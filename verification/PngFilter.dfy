/** PNG scanline filtering: the reference reconstruction of section 9 of the PNG
    specification, and the row loop of stbi__create_png_image_raw, which keeps two
    row buffers and treats the first row with filters that need no row above it. */
module PngFilter {
  import opened Prelude

  const NONE := 0
  const SUB := 1
  const UP := 2
  const AVG := 3
  const PAETH := 4
  const AVG_FIRST := 5

  function Abs(x: int): int {
    if x < 0 then -x else x
  }

  /** The Paeth predictor as section 9.4 defines it. */
  function PaethPredictor(a: int, b: int, c: int): int {
    var p := a + b - c;
    var pa, pb, pc := Abs(p - a), Abs(p - b), Abs(p - c);
    if pa <= pb && pa <= pc then a else if pb <= pc then b else c
  }

  /** stbi__paeth. */
  function Paeth(a: int, b: int, c: int): (t: int)
    ensures t == PaethPredictor(a, b, c)
  {
    var thresh := c * 3 - (a + b);
    var lo := if a < b then a else b;
    var hi := if a < b then b else a;
    var t0 := if hi <= thresh then lo else c;
    if thresh <= lo then hi else t0
  }

  /** Prediction from the byte to the left, above, and above left. */
  function Predict(f: nat, a: byte, b: byte, c: byte): (p: nat)
    requires f <= 4
    ensures p < 256
  {
    if f == NONE then 0
    else if f == SUB then a
    else if f == UP then b
    else if f == AVG then (a as int + b) / 2
    else PaethPredictor(a, b, c)
  }

  /** The filter types of section 9.2 by their numbers; the average is rounded down. */
  lemma FilterTypes(a: byte, b: byte, c: byte)
    ensures Predict(0, a, b, c) == 0 && Predict(1, a, b, c) == a && Predict(2, a, b, c) == b
    ensures var p := Predict(3, a, b, c); 2 * p <= a as int + b < 2 * p + 2
  {
  }

  /** The Paeth predictor is the nearest of left, above and above left to left + above - above left,
      in that order if two are equally near. */
  lemma PaethIsNearest(a: byte, b: byte, c: byte)
    ensures var e, p := a as int + b - c, Predict(4, a, b, c);
      && (p == a || p == b || p == c)
      && Abs(e - p) <= Abs(e - a) && Abs(e - p) <= Abs(e - b) && Abs(e - p) <= Abs(e - c)
      && (Abs(e - p) == Abs(e - a) ==> p == a)
      && (Abs(e - p) == Abs(e - b) < Abs(e - a) ==> p == b)
  {
  }

  /** STBI__BYTECAST of a sum. */
  function Add(a: byte, d: nat): byte {
    (a as int + d) % 256
  }

  /** What is left of a byte after its prediction. */
  function Residual(b: byte, p: nat): byte {
    (b as int - p) % 256
  }

  lemma AddResidual(b: byte, p: nat)
    ensures Add(Residual(b, p), p) == b && Residual(Add(b, p), p) == b
  {
    Wraps(b, (b as int - p) / 256);
    Wraps(b, (b as int + p) / 256);
  }

  lemma Wraps(b: byte, q: int)
    ensures (b - 256 * q) % 256 == b
  {
  }

  /** Byte k of a row, or zero left of its first pixel. */
  function Behind(row: seq<byte>, k: int): byte
    requires k < |row|
  {
    if k < 0 then 0 else row[k]
  }

  /** Reference reconstruction of a row from its filtered bytes and the row above. */
  function Recon(f: nat, bpp: nat, raw: seq<byte>, up: seq<byte>): (row: seq<byte>)
    requires f <= 4 && bpp >= 1 && |raw| <= |up|
    ensures |row| == |raw|
  {
    if raw == [] then []
    else
      var k := |raw| - 1;
      var init := Recon(f, bpp, raw[..k], up);
      init + [Add(raw[k], Predict(f, Behind(init, k - bpp), up[k], Behind(up, k - bpp)))]
  }

  /** Filtering, the other direction: what an encoder stores. */
  function Filtered(f: nat, bpp: nat, row: seq<byte>, up: seq<byte>): (raw: seq<byte>)
    requires f <= 4 && bpp >= 1 && |row| <= |up|
    ensures |raw| == |row|
  {
    seq(|row|, k requires 0 <= k < |row| =>
      Residual(row[k], Predict(f, Behind(row, k - bpp), up[k], Behind(up, k - bpp))))
  }

  lemma {:induction false} ReconAt(f: nat, bpp: nat, raw: seq<byte>, up: seq<byte>, k: nat)
    requires f <= 4 && bpp >= 1 && |raw| <= |up| && k < |raw|
    ensures var row := Recon(f, bpp, raw, up);
      row[k] == Add(raw[k], Predict(f, Behind(row, k - bpp), up[k], Behind(up, k - bpp)))
    decreases |raw|
  {
    if k < |raw| - 1 {
      ReconAt(f, bpp, raw[..|raw| - 1], up, k);
    }
  }

  /** Filtering a row filters its beginning and then its last byte. */
  lemma FilteredSplit(f: nat, bpp: nat, row: seq<byte>, up: seq<byte>, k: nat)
    requires f <= 4 && bpp >= 1 && |row| == k + 1 <= |up|
    ensures var raw := Filtered(f, bpp, row, up);
      && raw[..k] == Filtered(f, bpp, row[..k], up)
      && raw[k] == Residual(row[k], Predict(f, Behind(row[..k], k - bpp), up[k], Behind(up, k - bpp)))
  {
    assert Behind(row, k - bpp) == Behind(row[..k], k - bpp);
  }

  lemma ReconLast(f: nat, bpp: nat, raw: seq<byte>, up: seq<byte>, k: nat, init: seq<byte>)
    requires f <= 4 && bpp >= 1 && |raw| == k + 1 <= |up| && init == Recon(f, bpp, raw[..k], up)
    ensures Recon(f, bpp, raw, up)
         == init + [Add(raw[k], Predict(f, Behind(init, k - bpp), up[k], Behind(up, k - bpp)))]
  {
  }

  /** Reconstruction undoes filtering, for every filter, pixel stride and row. */
  lemma {:induction false} ReconUndoesFilter(f: nat, bpp: nat, row: seq<byte>, up: seq<byte>)
    requires f <= 4 && bpp >= 1 && |row| <= |up|
    ensures Recon(f, bpp, Filtered(f, bpp, row, up), up) == row
    decreases |row|
  {
    if row != [] {
      var k := |row| - 1;
      FilteredSplit(f, bpp, row, up, k);
      ReconUndoesFilter(f, bpp, row[..k], up);
      ReconLast(f, bpp, Filtered(f, bpp, row, up), up, k, row[..k]);
      AddResidual(row[k], Predict(f, Behind(row[..k], k - bpp), up[k], Behind(up, k - bpp)));
      assert row == row[..k] + [row[k]];
    }
  }

  /** Filtering undoes reconstruction: no stored row is ambiguous. */
  lemma FilterUndoesRecon(f: nat, bpp: nat, raw: seq<byte>, up: seq<byte>)
    requires f <= 4 && bpp >= 1 && |raw| <= |up|
    ensures Filtered(f, bpp, Recon(f, bpp, raw, up), up) == raw
  {
    var row := Recon(f, bpp, raw, up);
    forall k | 0 <= k < |raw|
      ensures Filtered(f, bpp, row, up)[k] == raw[k]
    {
      FilteredAt(f, bpp, raw, up, row, k);
    }
  }

  lemma FilteredAt(f: nat, bpp: nat, raw: seq<byte>, up: seq<byte>, row: seq<byte>, k: nat)
    requires f <= 4 && bpp >= 1 && k < |raw| <= |up| && row == Recon(f, bpp, raw, up)
    ensures Filtered(f, bpp, row, up)[k] == raw[k]
  {
    var p := PredictionAt(f, bpp, raw, up, row, k);
    AddResidual(raw[k], p);
  }

  lemma PredictionAt(f: nat, bpp: nat, raw: seq<byte>, up: seq<byte>, row: seq<byte>, k: nat) returns (p: nat)
    requires f <= 4 && bpp >= 1 && k < |raw| <= |up| && row == Recon(f, bpp, raw, up)
    ensures row[k] == Add(raw[k], p) && Filtered(f, bpp, row, up)[k] == Residual(row[k], p)
  {
    ReconAt(f, bpp, raw, up, k);
    p := Predict(f, Behind(row, k - bpp), up[k], Behind(up, k - bpp));
  }

  // ----- images --------------------------------------------------------------

  /** A stored row: its filter byte and its filtered bytes. */
  datatype Line = Line(filter: byte, data: seq<byte>)

  predicate Decodable(lines: seq<Line>, n: nat) {
    forall i :: 0 <= i < |lines| ==> lines[i].filter <= 4 && |lines[i].data| == n
  }

  function Zeros(n: nat): (z: seq<byte>)
    ensures |z| == n && forall k :: 0 <= k < n ==> z[k] == 0
  {
    seq(n, k => 0)
  }

  /** The row above the next one: zeros above the first. */
  function Above(rows: seq<seq<byte>>, n: nat): seq<byte> {
    if rows == [] then Zeros(n) else rows[|rows| - 1]
  }

  /** Reference reconstruction of an image. */
  function Image(lines: seq<Line>, bpp: nat, n: nat): (rows: seq<seq<byte>>)
    requires bpp >= 1 && Decodable(lines, n)
    ensures |rows| == |lines| && forall i :: 0 <= i < |rows| ==> |rows[i]| == n
  {
    if lines == [] then []
    else
      var init, last := lines[..|lines| - 1], lines[|lines| - 1];
      var rows := Image(init, bpp, n);
      rows + [Recon(last.filter, bpp, last.data, Above(rows, n))]
  }

  /** Rows of n bytes and a filter for each. */
  predicate Encodable(rows: seq<seq<byte>>, fs: seq<nat>, n: nat) {
    |fs| == |rows| && forall i :: 0 <= i < |rows| ==> |rows[i]| == n && fs[i] <= 4
  }

  /** The lines an encoder stores for rows, filtered by fs. */
  function Encode(rows: seq<seq<byte>>, fs: seq<nat>, bpp: nat, n: nat): (lines: seq<Line>)
    requires bpp >= 1 && Encodable(rows, fs, n)
    ensures |lines| == |rows| && Decodable(lines, n)
  {
    if rows == [] then []
    else
      var j := |rows| - 1;
      Encode(rows[..j], fs[..j], bpp, n) + [Line(fs[j], Filtered(fs[j], bpp, rows[j], Above(rows[..j], n)))]
  }

  lemma ImageStep(lines: seq<Line>, line: Line, bpp: nat, n: nat)
    requires bpp >= 1 && Decodable(lines, n) && line.filter <= 4 && |line.data| == n
    ensures Decodable(lines + [line], n)
    ensures var rows := Image(lines, bpp, n);
      Image(lines + [line], bpp, n) == rows + [Recon(line.filter, bpp, line.data, Above(rows, n))]
  {
    assert (lines + [line])[..|lines|] == lines;
  }

  /** Decoding one more encoded row. */
  lemma DecodeRow(rows: seq<seq<byte>>, lines: seq<Line>, row: seq<byte>, f: nat, bpp: nat, n: nat)
    requires bpp >= 1 && f <= 4 && |row| == n && Decodable(lines, n) && Image(lines, bpp, n) == rows
    ensures |Above(rows, n)| == n
    ensures var line := Line(f, Filtered(f, bpp, row, Above(rows, n)));
      Decodable(lines + [line], n) && Image(lines + [line], bpp, n) == rows + [row]
  {
    ReconUndoesFilter(f, bpp, row, Above(rows, n));
    ImageStep(lines, Line(f, Filtered(f, bpp, row, Above(rows, n))), bpp, n);
  }

  lemma SplitLast<T>(s: seq<T>, j: nat)
    requires |s| == j + 1
    ensures s == s[..j] + [s[j]]
  {
  }

  lemma EncodablePrefix(rows: seq<seq<byte>>, fs: seq<nat>, n: nat, j: nat)
    requires Encodable(rows, fs, n) && j <= |rows|
    ensures Encodable(rows[..j], fs[..j], n)
  {
  }

  /** Decoding what was encoded gives the image back, whatever filter each row uses. */
  lemma {:induction false} DecodeEncode(rows: seq<seq<byte>>, fs: seq<nat>, bpp: nat, n: nat)
    requires bpp >= 1 && Encodable(rows, fs, n)
    ensures Image(Encode(rows, fs, bpp, n), bpp, n) == rows
    decreases |rows|
  {
    if rows != [] {
      var j := |rows| - 1;
      EncodablePrefix(rows, fs, n, j);
      DecodeEncode(rows[..j], fs[..j], bpp, n);
      EncodeLast(rows, fs, bpp, n, j, rows[..j], Encode(rows[..j], fs[..j], bpp, n));
      SplitLast(rows, j);
    }
  }

  lemma EncodeLast(rows: seq<seq<byte>>, fs: seq<nat>, bpp: nat, n: nat, j: nat, init: seq<seq<byte>>, lines: seq<Line>)
    requires bpp >= 1 && Encodable(rows, fs, n) && |rows| == j + 1 && init == rows[..j]
    requires Encodable(init, fs[..j], n)
    requires lines == Encode(init, fs[..j], bpp, n) && Image(lines, bpp, n) == init
    ensures Image(Encode(rows, fs, bpp, n), bpp, n) == init + [rows[j]]
  {
    DecodeRow(init, lines, rows[j], fs[j], bpp, n);
  }

  // ----- layout in memory ----------------------------------------------------

  function RowStart(n: nat, j: nat): nat {
    if j == 0 then 0 else RowStart(n, j - 1) + n + 1
  }

  lemma {:induction false} RowStartIsProduct(n: nat, j: nat)
    ensures RowStart(n, j) == (n + 1) * j
  {
    if j > 0 {
      RowStartIsProduct(n, j - 1);
    }
  }

  lemma {:induction false} RowStartMono(n: nat, j: nat, rows: nat)
    requires j <= rows
    ensures RowStart(n, j) <= RowStart(n, rows)
    decreases rows
  {
    if j < rows {
      RowStartMono(n, j, rows - 1);
    }
  }

  function LineAt(raw: seq<byte>, at: nat, n: nat): Line
    requires at + n + 1 <= |raw|
  {
    Line(raw[at], raw[at + 1..at + 1 + n])
  }

  /** The first j lines of the inflated data. */
  function Lines(raw: seq<byte>, n: nat, j: nat): (lines: seq<Line>)
    requires RowStart(n, j) <= |raw|
    ensures |lines| == j && forall i :: 0 <= i < j ==> |lines[i].data| == n
  {
    if j == 0 then [] else Lines(raw, n, j - 1) + [LineAt(raw, RowStart(n, j - 1), n)]
  }

  function Bytes(lines: seq<Line>): seq<byte> {
    if lines == [] then []
    else
      var last := lines[|lines| - 1];
      Bytes(lines[..|lines| - 1]) + [last.filter] + last.data
  }

  lemma {:induction false} LinesOfPrefix(raw: seq<byte>, more: seq<byte>, n: nat, j: nat)
    requires RowStart(n, j) <= |raw|
    ensures Lines(raw + more, n, j) == Lines(raw, n, j)
    decreases j
  {
    if j > 0 {
      LinesOfPrefix(raw, more, n, j - 1);
      var s := RowStart(n, j - 1);
      assert (raw + more)[s + 1..s + 1 + n] == raw[s + 1..s + 1 + n];
    }
  }

  /** Lines are read back from their bytes, and trailing data does not matter. */
  lemma {:induction false} LinesOfBytes(lines: seq<Line>, n: nat, more: seq<byte>)
    requires forall i :: 0 <= i < |lines| ==> |lines[i].data| == n
    ensures |Bytes(lines)| == RowStart(n, |lines|)
    ensures Lines(Bytes(lines) + more, n, |lines|) == lines
    decreases |lines|
  {
    if lines == [] {
    } else {
      var j := |lines| - 1;
      var init, last := Bytes(lines[..j]), lines[j];
      LinesOfBytes(lines[..j], n, [last.filter] + last.data + more);
      LastLine(init, last, more);
      assert lines == lines[..j] + [last];
    }
  }

  lemma LastLine(init: seq<byte>, last: Line, more: seq<byte>)
    ensures var raw := init + [last.filter] + last.data + more;
      raw == init + ([last.filter] + last.data + more) && LineAt(raw, |init|, |last.data|) == last
  {
    var raw := init + [last.filter] + last.data + more;
    assert raw[|init| + 1..|init| + 1 + |last.data|] == last.data;
  }

  // ----- the row loops -------------------------------------------------------

  /** first_row_filter. */
  function FirstRowFilter(f: nat): (g: nat)
    requires f <= 4
  {
    [NONE, SUB, NONE, AVG_FIRST, SUB][f]
  }

  /** buf[at..at + n] holds the first k bytes of row. */
  ghost predicate Holds(buf: seq<byte>, at: nat, row: seq<byte>, k: nat) {
    && k <= |row| && at + |row| <= |buf|
    && forall i :: 0 <= i < k ==> buf[at + i] == row[i]
  }

  /** row is the reconstruction, stated byte by byte. */
  ghost predicate IsRecon(f: nat, bpp: nat, raw: seq<byte>, up: seq<byte>, row: seq<byte>) {
    && f <= 4 && 1 <= bpp <= |raw| == |up| == |row|
    && forall k :: 0 <= k < |raw| ==> ByteRule(f, bpp, raw, up, row, k)
  }

  ghost predicate ByteRule(f: nat, bpp: nat, raw: seq<byte>, up: seq<byte>, row: seq<byte>, k: nat)
    requires f <= 4 && bpp >= 1 && k < |raw| == |up| == |row|
  {
    row[k] == Add(raw[k], Predict(f, Behind(row, k - bpp), up[k], Behind(up, k - bpp)))
  }

  /** Only buf[cur..cur + n] differs. */
  ghost predicate SameElsewhere(buf: seq<byte>, before: seq<byte>, cur: nat, n: nat) {
    |buf| == |before| && forall i :: 0 <= i < |buf| && !(cur <= i < cur + n) ==> buf[i] == before[i]
  }

  /** One row into buf[cur..cur + |raw|].  up is the row above as the reference sees it:
      buf[prior..] itself, or zeros when this is the first row. */
  method UnfilterRow(filter: nat, raw: seq<byte>, bpp: nat, buf: array<byte>, cur: nat, prior: nat,
                     ghost f: nat, ghost up: seq<byte>)
    requires 1 <= bpp <= |raw| && f <= 4 && |up| == |raw|
    requires cur + |raw| <= buf.Length && prior + |raw| <= buf.Length
    requires cur + |raw| <= prior || prior + |raw| <= cur
    requires || (filter == FirstRowFilter(f) && up == Zeros(|raw|))
             || (filter == f && Holds(buf[..], prior, up, |raw|))
    modifies buf
    ensures Holds(buf[..], cur, Recon(f, bpp, raw, up), |raw|)
    ensures SameElsewhere(buf[..], old(buf[..]), cur, |raw|)
  {
    ghost var row := Recon(f, bpp, raw, up);
    ReconIs(f, bpp, raw, up);
    if filter == NONE {
      NoneCopies(bpp, raw, up, row);
      CopyRow(raw, buf, cur, |raw|, row);
    } else if filter == SUB {
      SubRow(raw, bpp, buf, cur, up, row);
    } else if filter == UP {
      UpRow(raw, bpp, buf, cur, prior, up, row);
    } else if filter == AVG {
      AvgRow(raw, bpp, buf, cur, prior, up, row);
    } else if filter == PAETH {
      PaethRow(raw, bpp, buf, cur, prior, up, row);
    } else {
      AvgFirstRow(raw, bpp, buf, cur, row);
    }
  }

  lemma ReconIs(f: nat, bpp: nat, raw: seq<byte>, up: seq<byte>)
    requires 1 <= bpp <= |raw| && f <= 4 && |up| == |raw|
    ensures IsRecon(f, bpp, raw, up, Recon(f, bpp, raw, up))
    ensures up == Zeros(|raw|) && f == UP ==> IsRecon(NONE, bpp, raw, up, Recon(f, bpp, raw, up))
    ensures up == Zeros(|raw|) && f == PAETH ==> IsRecon(SUB, bpp, raw, up, Recon(f, bpp, raw, up))
  {
    var row := Recon(f, bpp, raw, up);
    forall k | 0 <= k < |raw|
      ensures ByteRule(f, bpp, raw, up, row, k)
      ensures up == Zeros(|raw|) && f == UP ==> ByteRule(NONE, bpp, raw, up, row, k)
      ensures up == Zeros(|raw|) && f == PAETH ==> ByteRule(SUB, bpp, raw, up, row, k)
    {
      ReconAt(f, bpp, raw, up, k);
    }
  }

  lemma NoneCopies(bpp: nat, raw: seq<byte>, up: seq<byte>, row: seq<byte>)
    requires IsRecon(NONE, bpp, raw, up, row)
    ensures forall k :: 0 <= k < |raw| ==> row[k] == raw[k]
  {
    forall k | 0 <= k < |raw|
      ensures row[k] == raw[k]
    {
      assert ByteRule(NONE, bpp, raw, up, row, k);
    }
  }

  method CopyRow(raw: seq<byte>, buf: array<byte>, cur: nat, n: nat, ghost row: seq<byte>)
    requires n <= |raw| == |row| && cur + |raw| <= buf.Length
    requires forall k :: 0 <= k < n ==> row[k] == raw[k]
    modifies buf
    ensures Holds(buf[..], cur, row, n)
    ensures SameElsewhere(buf[..], old(buf[..]), cur, n)
  {
    for k := 0 to n
      invariant Holds(buf[..], cur, row, k)
      invariant SameElsewhere(buf[..], old(buf[..]), cur, n)
    {
      buf[cur + k] := raw[k];
    }
  }

  method SubRow(raw: seq<byte>, bpp: nat, buf: array<byte>, cur: nat, ghost up: seq<byte>, ghost row: seq<byte>)
    requires cur + |raw| <= buf.Length && IsRecon(SUB, bpp, raw, up, row)
    modifies buf
    ensures Holds(buf[..], cur, row, |raw|)
    ensures SameElsewhere(buf[..], old(buf[..]), cur, |raw|)
  {
    forall k | 0 <= k < bpp
      ensures row[k] == raw[k]
    {
      assert ByteRule(SUB, bpp, raw, up, row, k);
    }
    CopyRow(raw, buf, cur, bpp, row);
    for k := bpp to |raw|
      invariant Holds(buf[..], cur, row, k)
      invariant SameElsewhere(buf[..], old(buf[..]), cur, |raw|)
    {
      assert ByteRule(SUB, bpp, raw, up, row, k);
      buf[cur + k] := Add(raw[k], buf[cur + k - bpp]);
    }
  }

  method UpRow(raw: seq<byte>, bpp: nat, buf: array<byte>, cur: nat, prior: nat, ghost up: seq<byte>,
               ghost row: seq<byte>)
    requires IsRecon(UP, bpp, raw, up, row) && cur + |raw| <= buf.Length
    requires cur + |raw| <= prior || prior + |raw| <= cur
    requires Holds(buf[..], prior, up, |up|)
    modifies buf
    ensures Holds(buf[..], cur, row, |raw|)
    ensures SameElsewhere(buf[..], old(buf[..]), cur, |raw|)
  {
    for k := 0 to |raw|
      invariant Holds(buf[..], cur, row, k) && Holds(buf[..], prior, up, |up|)
      invariant SameElsewhere(buf[..], old(buf[..]), cur, |raw|)
    {
      assert ByteRule(UP, bpp, raw, up, row, k);
      buf[cur + k] := Add(raw[k], buf[prior + k]);
    }
  }

  method AvgRow(raw: seq<byte>, bpp: nat, buf: array<byte>, cur: nat, prior: nat, ghost up: seq<byte>,
                ghost row: seq<byte>)
    requires IsRecon(AVG, bpp, raw, up, row) && cur + |raw| <= buf.Length
    requires cur + |raw| <= prior || prior + |raw| <= cur
    requires Holds(buf[..], prior, up, |up|)
    modifies buf
    ensures Holds(buf[..], cur, row, |raw|)
    ensures SameElsewhere(buf[..], old(buf[..]), cur, |raw|)
  {
    for k := 0 to bpp
      invariant Holds(buf[..], cur, row, k) && Holds(buf[..], prior, up, |up|)
      invariant SameElsewhere(buf[..], old(buf[..]), cur, |raw|)
    {
      assert ByteRule(AVG, bpp, raw, up, row, k);
      buf[cur + k] := Add(raw[k], buf[prior + k] / 2);
    }
    for k := bpp to |raw|
      invariant Holds(buf[..], cur, row, k) && Holds(buf[..], prior, up, |up|)
      invariant SameElsewhere(buf[..], old(buf[..]), cur, |raw|)
    {
      assert ByteRule(AVG, bpp, raw, up, row, k);
      buf[cur + k] := Add(raw[k], (buf[prior + k] as int + buf[cur + k - bpp]) / 2);
    }
  }

  method PaethRow(raw: seq<byte>, bpp: nat, buf: array<byte>, cur: nat, prior: nat, ghost up: seq<byte>,
                  ghost row: seq<byte>)
    requires IsRecon(PAETH, bpp, raw, up, row) && cur + |raw| <= buf.Length
    requires cur + |raw| <= prior || prior + |raw| <= cur
    requires Holds(buf[..], prior, up, |up|)
    modifies buf
    ensures Holds(buf[..], cur, row, |raw|)
    ensures SameElsewhere(buf[..], old(buf[..]), cur, |raw|)
  {
    for k := 0 to bpp
      invariant Holds(buf[..], cur, row, k) && Holds(buf[..], prior, up, |up|)
      invariant SameElsewhere(buf[..], old(buf[..]), cur, |raw|)
    {
      assert ByteRule(PAETH, bpp, raw, up, row, k);
      buf[cur + k] := Add(raw[k], buf[prior + k]);
    }
    for k := bpp to |raw|
      invariant Holds(buf[..], cur, row, k) && Holds(buf[..], prior, up, |up|)
      invariant SameElsewhere(buf[..], old(buf[..]), cur, |raw|)
    {
      assert ByteRule(PAETH, bpp, raw, up, row, k);
      buf[cur + k] := Add(raw[k], Paeth(buf[cur + k - bpp], buf[prior + k], buf[prior + k - bpp]));
    }
  }

  method AvgFirstRow(raw: seq<byte>, bpp: nat, buf: array<byte>, cur: nat, ghost row: seq<byte>)
    requires cur + |raw| <= buf.Length && IsRecon(AVG, bpp, raw, Zeros(|raw|), row)
    modifies buf
    ensures Holds(buf[..], cur, row, |raw|)
    ensures SameElsewhere(buf[..], old(buf[..]), cur, |raw|)
  {
    forall k | 0 <= k < bpp
      ensures row[k] == raw[k]
    {
      assert ByteRule(AVG, bpp, raw, Zeros(|raw|), row, k);
    }
    CopyRow(raw, buf, cur, bpp, row);
    for k := bpp to |raw|
      invariant Holds(buf[..], cur, row, k)
      invariant SameElsewhere(buf[..], old(buf[..]), cur, |raw|)
    {
      assert ByteRule(AVG, bpp, raw, Zeros(|raw|), row, k);
      buf[cur + k] := Add(raw[k], buf[cur + k - bpp] / 2);
    }
  }

  // ----- the image loop ------------------------------------------------------

  function Flatten(rows: seq<seq<byte>>): seq<byte> {
    if rows == [] then [] else Flatten(rows[..|rows| - 1]) + rows[|rows| - 1]
  }

  function RowBase(n: nat, j: nat): nat {
    if j == 0 then 0 else RowBase(n, j - 1) + n
  }

  lemma {:induction false} RowBaseIsProduct(n: nat, j: nat)
    ensures RowBase(n, j) == n * j
  {
    if j > 0 {
      RowBaseIsProduct(n, j - 1);
    }
  }

  lemma {:induction false} FlattenLength(rows: seq<seq<byte>>, n: nat)
    requires forall i :: 0 <= i < |rows| ==> |rows[i]| == n
    ensures |Flatten(rows)| == RowBase(n, |rows|)
    decreases |rows|
  {
    if rows != [] {
      FlattenLength(rows[..|rows| - 1], n);
    }
  }

  lemma {:induction false} RowBaseMono(n: nat, j: nat, rows: nat)
    requires j <= rows
    ensures RowBase(n, j) <= RowBase(n, rows)
    decreases rows
  {
    if j < rows {
      RowBaseMono(n, j, rows - 1);
    }
  }

  lemma {:induction false} BadLineStays(raw: seq<byte>, n: nat, j: nat, rows: nat)
    requires j < rows && RowStart(n, rows) <= |raw| && RowStart(n, j + 1) <= |raw|
    requires raw[RowStart(n, j)] > 4
    ensures !Decodable(Lines(raw, n, rows), n)
    decreases rows
  {
    if j == rows - 1 {
      assert Lines(raw, n, rows)[j].filter > 4;
    } else {
      RowStartMono(n, j + 1, rows - 1);
      BadLineStays(raw, n, j, rows - 1);
      var init := Lines(raw, n, rows - 1);
      assert init <= Lines(raw, n, rows);
      var i :| 0 <= i < |init| && !(init[i].filter <= 4 && |init[i].data| == n);
      assert Lines(raw, n, rows)[i] == init[i];
    }
  }

  /** Offset of the buffer half that row j uses. */
  function Half(j: nat, n: nat): nat {
    if j % 2 == 0 then 0 else n
  }

  lemma FlattenStep(rows: seq<seq<byte>>, row: seq<byte>)
    ensures Flatten(rows + [row]) == Flatten(rows) + row
  {
    assert (rows + [row])[..|rows|] == rows;
  }

  /** memcpy of a finished row to its place in the output. */
  method StoreRow(out: array<byte>, at: nat, buf: array<byte>, cur: nat, n: nat, ghost row: seq<byte>)
    requires out != buf && |row| == n && at + n <= out.Length && Holds(buf[..], cur, row, n)
    modifies out
    ensures out[..at + n] == old(out[..at]) + row
  {
    for k := 0 to n
      invariant out[..at + k] == old(out[..at]) + row[..k]
      invariant Holds(buf[..], cur, row, n)
    {
      out[at + k] := buf[cur + k];
      assert row[..k + 1] == row[..k] + [row[k]];
      assert out[..at + k + 1] == out[..at + k] + [row[k]];
    }
    assert row[..n] == row;
  }

  /** Row j into its half of the buffer and from there to the output; up is the row above, in the
      other half unless j is the first row. */
  method UnfilterAndStore(line: Line, bpp: nat, filterBuf: array<byte>, out: array<byte>, base: nat, j: nat,
                          ghost up: seq<byte>)
    requires 1 <= bpp <= |line.data| == |up| && line.filter <= 4
    requires filterBuf.Length == 2 * |line.data| && out != filterBuf && base + |line.data| <= out.Length
    requires if j == 0 then up == Zeros(|up|) else Holds(filterBuf[..], Half(j + 1, |up|), up, |up|)
    modifies filterBuf, out
    ensures var row := Recon(line.filter, bpp, line.data, up);
      Holds(filterBuf[..], Half(j, |up|), row, |up|) && out[..base + |up|] == old(out[..base]) + row
  {
    var n := |line.data|;
    var filter := if j == 0 then FirstRowFilter(line.filter) else line.filter;
    UnfilterRow(filter, line.data, bpp, filterBuf, Half(j, n), Half(j + 1, n), line.filter, up);
    StoreRow(out, base, filterBuf, Half(j, n), n, Recon(line.filter, bpp, line.data, up));
  }

  /** One round of the row loop: row j into its half of the buffer, while the other half
      holds row j - 1, and from there to the output. */
  method UnfilterInto(line: Line, bpp: nat, filterBuf: array<byte>, out: array<byte>, base: nat, j: nat,
                      ghost image: seq<seq<byte>>)
    requires 1 <= bpp <= |line.data| && line.filter <= 4
    requires |image| == j && |Above(image, |line.data|)| == |line.data|
    requires filterBuf.Length == 2 * |line.data| && out != filterBuf && base + |line.data| <= out.Length
    requires j > 0 ==> Holds(filterBuf[..], Half(j - 1, |line.data|), image[j - 1], |line.data|)
    requires out[..base] == Flatten(image)
    modifies filterBuf, out
    ensures var row := Recon(line.filter, bpp, line.data, Above(image, |line.data|));
      && out[..base + |line.data|] == Flatten(image + [row])
      && Holds(filterBuf[..], Half(j, |line.data|), row, |line.data|)
  {
    ghost var up := Above(image, |line.data|);
    UnfilterAndStore(line, bpp, filterBuf, out, base, j, up);
    FlattenStep(image, Recon(line.filter, bpp, line.data, up));
  }

  /** After j rows: out starts with the image so far, and the last row is in its half of
      the buffer. */
  ghost predicate RowsDone(raw: seq<byte>, bpp: nat, n: nat, j: nat, filterBuf: seq<byte>, out: seq<byte>)
    requires bpp >= 1
  {
    && RowStart(n, j) <= |raw| && RowBase(n, j) <= |out|
    && Decodable(Lines(raw, n, j), n)
    && var image := Image(Lines(raw, n, j), bpp, n);
       && out[..RowBase(n, j)] == Flatten(image)
       && (j > 0 ==> Holds(filterBuf, Half(j - 1, n), image[j - 1], n))
  }

  /** The rest of a round, after the filter byte was found good. */
  method UnfilterNext(raw: seq<byte>, bpp: nat, n: nat, j: nat, at: nat, base: nat, filterBuf: array<byte>,
                      out: array<byte>)
    requires 1 <= bpp <= n && out != filterBuf && filterBuf.Length == 2 * n
    requires at == RowStart(n, j) && at + n + 1 <= |raw| && raw[at] <= 4
    requires base == RowBase(n, j) && base + n <= out.Length
    requires RowsDone(raw, bpp, n, j, filterBuf[..], out[..])
    modifies filterBuf, out
    ensures RowsDone(raw, bpp, n, j + 1, filterBuf[..], out[..])
  {
    ghost var lines := Lines(raw, n, j);
    ghost var image := Image(lines, bpp, n);
    var line := LineAt(raw, at, n);
    assert out[..][..base] == out[..base];
    UnfilterInto(line, bpp, filterBuf, out, base, j, image);
    assert out[..][..base + n] == out[..base + n];
    ghost var row := Recon(line.filter, bpp, line.data, Above(image, n));
    RowsStep(raw, bpp, n, j, filterBuf[..], out[..], lines, image, line, row);
  }

  lemma RowsStep(raw: seq<byte>, bpp: nat, n: nat, j: nat, filterBuf: seq<byte>, out: seq<byte>,
                 lines: seq<Line>, image: seq<seq<byte>>, line: Line, row: seq<byte>)
    requires bpp >= 1 && RowStart(n, j + 1) <= |raw| && RowBase(n, j + 1) <= |out|
    requires lines == Lines(raw, n, j) && line == LineAt(raw, RowStart(n, j), n) && line.filter <= 4
    requires Decodable(lines, n) && image == Image(lines, bpp, n) && |Above(image, n)| == n
    requires row == Recon(line.filter, bpp, line.data, Above(image, n))
    requires out[..RowBase(n, j + 1)] == Flatten(image + [row]) && Holds(filterBuf, Half(j, n), row, n)
    ensures RowsDone(raw, bpp, n, j + 1, filterBuf, out)
  {
    NextImage(raw, bpp, n, j, lines, image, line, row);
  }

  lemma NextImage(raw: seq<byte>, bpp: nat, n: nat, j: nat, lines: seq<Line>, image: seq<seq<byte>>, line: Line,
                  row: seq<byte>)
    requires bpp >= 1 && RowStart(n, j + 1) <= |raw|
    requires lines == Lines(raw, n, j) && line == LineAt(raw, RowStart(n, j), n) && line.filter <= 4
    requires Decodable(lines, n) && image == Image(lines, bpp, n) && |Above(image, n)| == n
    requires row == Recon(line.filter, bpp, line.data, Above(image, n))
    ensures Decodable(Lines(raw, n, j + 1), n)
    ensures Image(Lines(raw, n, j + 1), bpp, n) == image + [row] && |image| == j
  {
    LinesStep(raw, n, j);
    ImageStep(lines, line, bpp, n);
  }

  lemma LinesStep(raw: seq<byte>, n: nat, j: nat)
    requires RowStart(n, j + 1) <= |raw|
    ensures Lines(raw, n, j + 1) == Lines(raw, n, j) + [LineAt(raw, RowStart(n, j), n)]
  {
  }

  /** The row loop: alternates between the halves of filterBuf and stops at a filter
      byte above four. */
  method UnfilterRows(raw: seq<byte>, bpp: nat, n: nat, rows: nat, filterBuf: array<byte>, out: array<byte>)
    returns (ok: bool)
    requires 1 <= bpp <= n && RowStart(n, rows) <= |raw|
    requires out != filterBuf && out.Length == RowBase(n, rows) && filterBuf.Length == 2 * n
    modifies filterBuf, out
    ensures ok <==> Decodable(Lines(raw, n, rows), n)
    ensures ok ==> out[..] == Flatten(Image(Lines(raw, n, rows), bpp, n))
  {
    var at, base := 0, 0;
    for j := 0 to rows
      invariant at == RowStart(n, j) && base == RowBase(n, j)
      invariant RowsDone(raw, bpp, n, j, filterBuf[..], out[..])
    {
      RowStartMono(n, j + 1, rows);
      RowBaseMono(n, j + 1, rows);
      if raw[at] > 4 {
        BadLineStays(raw, n, j, rows);
        return false;
      }
      UnfilterNext(raw, bpp, n, j, at, base, filterBuf, out);
      at := at + 1 + n;
      base := base + n;
    }
    ok := true;
  }

  /** stbi__create_png_image_raw for eight-bit samples without an added alpha channel:
      rows of n bytes.  It fails exactly if the data is shorter than the image or a filter
      byte is above four; otherwise out is the reference image. */
  method Unfilter(raw: seq<byte>, bpp: nat, n: nat, rows: nat) returns (ok: bool, out: array<byte>)
    requires 1 <= bpp <= n
    ensures RowStart(n, rows) == (n + 1) * rows
    ensures ok <==> RowStart(n, rows) <= |raw| && Decodable(Lines(raw, n, rows), n)
    ensures ok ==> out[..] == Flatten(Image(Lines(raw, n, rows), bpp, n))
  {
    RowStartIsProduct(n, rows);
    RowBaseIsProduct(n, rows);
    out := new byte[n * rows];
    if |raw| < (n + 1) * rows {
      return false, out;
    }
    var filterBuf := new byte[2 * n];
    ok := UnfilterRows(raw, bpp, n, rows, filterBuf, out);
  }
}
