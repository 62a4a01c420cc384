# WKOpenVR: a verified model

WKOpenVR is a SteamVR driver with an overlay and a set of sidecar processes. This project models the
parts of it that are hardest to get right and proves, in Dafny 4.11, what they are for:

- **DEFLATE and PNG** (`lib/stb_image.h`): canonical Huffman tables, the bit buffer, LZ77 expansion into a
  doubling buffer, scanline unfiltering and Adam7. Every fast form is proved equal to the public reference,
  sections 3.1 and 3.2 of RFC 1951 and sections 8.2, 9.2 and 9.4 of the PNG specification.
  Modules `Bits`, `CanonicalCode`, `HuffmanTable`, `BitReversal`, `BitStream`, `Lz77`, `DeflateTables`,
  `BitMeter`, `Inflate`, `PngFilter`, `Adam7`.
- **JSON** (`lib/picojson.h`): the one-character-pushback parser and the compact and prettified serializer,
  proved to undo each other. Its escapes are proved against
  section 3 of RFC 3629 and section 7 of RFC 8259. Modules `Json`, `JsonRoundTrip`, `JsonUnicode`, `JsonText`,
  `JsonParser`, `Decimal`.
- **Concurrent protocols**: the seqlock slots and the frame ring, the pose ring, the sidecar supervisor and the
  CPU-time ledger, each as a transition system in which every load, store or critical section is a step of its
  own, with results about every state of every run. Modules `Seqlock`, `PoseRing`, `Supervisor`, `Ledger`.
- **Pose state machines** over exact reals: the seven-phase source blend, the one-euro filter and the
  constant-velocity re-anchor ramp. Modules `SourceBlend`, `BlendPhases`, `OneEuro`, `OneEuroLaws`, `Reanchor`,
  `Reals`.
- **Histories**: crash markers, their text files and the feature mask over unbounded launch histories, and
  command-line quoting against the Microsoft C argument rules. Modules `MarkerText`, `Safety`, `CommandLine`.

`Prelude` holds the types that several modules share. `dafny verify dfyconfig.toml` checks the whole project.

## Reading the model

Code that mutates objects, arrays or cursors is a class or a method with loops, proved against a specification
function (`HuffmanTable.ZHuffman`, `Inflate.ZBuf`, `JsonParser.Input`, `PngFilter.Unfilter`, `Adam7.Deinterlace`,
`SourceBlend.SourceBlender`, `OneEuro.Filter`, `Reanchor.DeviceTransform`, `Safety.ModuleSafety`). Pure code is
functions and lemmas. Concurrent code is a step relation, an invariant and results about runs.

Clocks, random choices, process creation, control pipes, the outcome of file operations, trigonometry and square
roots are parameters or arbitrary choices of a step.

Some promises of the code's comments do not hold as written. For each of them there is a run that shows it and
the exact condition under which the promise holds:

- `TryReadWireByIndex` says that it returns false once the requested frame has been overwritten. It checks the
  publish index once, before it reads the slot, so a slow reader can get the frame one lap later
  (`Seqlock.OverwrittenFrameIsReturned`). It returns the frame asked for if and only if fewer than target + 32
  frames had been written at its second generation load (`Seqlock.ByIndexExact`).
- A drain of the pose ring stops before the index it loaded, so the newest pose is never delivered and position 0,
  which no write ever filled, is delivered first (`PoseRing.NewestIsNeverDelivered`, `PoseRing.DeliveredIntact`).
  The bound of half a ring minus one poses written until the callback returns is tight (`PoseRing.BoundIsTight`).
- A host can be alive after `Stop` has returned, because a thread's check of the stop flag and its spawn are
  separate steps (`Supervisor.HostOutlivesStop`). When the kill of a `Stop` has run, no host will be alive before the
  next `Start` if and only if the stop flag still stands and no thread is between its check and its spawn
  (`Supervisor.StopIsFinal`); the flag stands unless a `Start` began meanwhile (`Supervisor.StopFlagStands`).
- The Huffman decoder of `stb_image` is meant to reject a block that needs bits from behind the input. It accepts the
  input `[0]` for a block of nine bits (`Inflate.OverrunIsAccepted`), because `stbi__fill_bits` has shifted in zeros
  that the test at the end of the block does not count. A block is accepted if and only if it is encoded in the input
  followed by zeros, can be expanded, fits and passes the counters `num_bits`, bytes left and `hit_zeof_once`, which
  can be told from the code lengths alone (`BitMeter.Passes`). It is accepted without using such zeros if and only if
  it lies within the input (`Inflate.ZBuf.ParseHuffmanBlock`, `BitMeter.WithinPasses`); every other accepted block
  has used padding beyond the sixteen bits that the test knows of (`BitMeter.OverrunUsesFill`).

## Model

| member | source | states |
|---|---|---|
| `CanonicalCode.PrefixFree` | lib/stb_image.h:4138-4149 | For every list of code lengths no code is a prefix of another: a word matches at most one symbol (section 3.2.2 of RFC 1951) |
| `CanonicalCode.BitByBit` | lib/stb_image.h:4224-4271 | Decoding literally bit by bit, as section 3.2.2 of RFC 1951 describes it, gives exactly the symbol whose code begins the stream, which is what the table decoder returns and consumes |
| `CanonicalCode.AcceptedIffKraft` | lib/stb_image.h:4135-4149 | The checks on the code lengths accept a list if and only if its Kraft sum is at most one, so exactly the lists that have a prefix code |
| `CanonicalCode.AcceptedLimits` | lib/stb_image.h:4143-4145 | In an accepted list the code limit of every length, used or not, is at most 2 to the length |
| `CanonicalCode.SymbolOfRank` | lib/stb_image.h:4151-4165 | The k-th symbol of a length exists and has k symbols of that length before it |
| `CanonicalCode.AboveShorter` | lib/stb_image.h:4139-4148 | A code of some length is at least the limit of every shorter length, cut to that length |
| `CanonicalCode.CanonicalRules` | lib/stb_image.h:4139-4157 | The two rules of section 3.2.2 of RFC 1951: symbols of one length have consecutive codes in their own order, and shorter codes come before longer ones |
| `HuffmanTable.SlotInjective` | lib/stb_image.h:4154-4157 | Different symbols have different places in the size and value arrays |
| `HuffmanTable.BitReverseIsTop` | lib/stb_image.h:4116-4122 | Reversing sixteen bits and shifting reads the first bits of the stream as a number, most significant first |
| `BitReversal.ReversesBit` | lib/stb_image.h:4107-4114 | Bit i of the result of the four mask-and-shift rounds is bit 15 - i of the argument, for every 16-bit word |
| `BitReversal.SwapsReverse` | lib/stb_image.h:4107-4122 | The mask-and-shift form, shifted by 16 - bits, gives the first bits of every 16-bit word, most significant first, which is the function the decoder is proved with |
| `HuffmanTable.HitsIffResidue` | lib/stb_image.h:4158-4163 | Nine bits select a short code exactly if they are congruent to its reversed code, which is the set of entries the inner loop writes |
| `HuffmanTable.ZHuffman.Build` | lib/stb_image.h:4124-4169 | Succeeds if and only if the lengths have a prefix code, and then the fast table, the per-length tables and the symbol tables are those of the canonical code |
| `HuffmanTable.CountSizes` | lib/stb_image.h:4130-4134 | The number of symbols of every length, none of length zero |
| `HuffmanTable.TooManyCodes` | lib/stb_image.h:4135-4137 | Rejects exactly the lists in which some length n has more than 2^n symbols, and no prefix code has such a list |
| `HuffmanTable.AssignLengths` | lib/stb_image.h:4138-4150 | First codes, first symbols and preshifted limits of all lengths, or a rejection exactly if some length has codes that do not fit |
| `HuffmanTable.EnterSymbols` | lib/stb_image.h:4151-4167 | Every symbol is in the size and value arrays at its place, and in every fast-table entry that begins with its code |
| `HuffmanTable.FillResidue` | lib/stb_image.h:4159-4163 | Writes exactly the entries congruent to the reversed code and no others |
| `BitStream.RefillKeepsStream` | lib/stb_image.h:4209-4210 | Or-ing the next byte in above the buffered bits does not change the stream of bits still to be read |
| `BitStream.TakeBits` | lib/stb_image.h:4218-4220 | The masked bits are the next bits of the stream, least significant first (section 3.1.1 of RFC 1951), and shifting them out leaves the rest of the stream below its bound |
| `BitStream.PadKeepsStream` | lib/stb_image.h:4246-4258 | Counting sixteen zero bits in after the end of the input keeps the stream |
| `BitStream.FastLookup` | lib/stb_image.h:4263-4269 | A nonzero fast-table entry is the unique symbol whose code begins the word, with its length; zero means no code of at most nine bits begins it |
| `BitStream.BelowPreshift` | lib/stb_image.h:4230-4232 | Comparing the reversed word with the preshifted limit compares the first bits with the limit of that length |
| `BitStream.FindLength` | lib/stb_image.h:4229-4233 | The loop finds the first length above nine whose limit exceeds the first bits, or 16 if there is none |
| `BitStream.DecodeSlow` | lib/stb_image.h:4224-4241 | Returns the symbol whose code begins the word and its length, or -1 exactly if no code does; the checks on the index and on the size never reject a word |
| `BitStream.AboveAllMeansNoCode` | lib/stb_image.h:4230-4233 | A word above the limits of all lengths begins with no code |
| `Lz77.CopyIsPeriodic` | lib/stb_image.h:4348-4354 | A copy, overlapping or not, repeats the last dist bytes with period dist |
| `Lz77.TokenUnique` | lib/stb_image.h:4312-4343 | At most one token is encoded at the start of a bit stream |
| `Lz77.BlockUnique` | lib/stb_image.h:4309-4357 | At most one block is encoded at the start of a bit stream |
| `Lz77.BlockEndsThere` | lib/stb_image.h:4324-4334 | The end-of-block symbol is the end of the only block encoded |
| `DeflateTables.DistExtra` | lib/stb_image.h:4306-4307 | Distance symbol k has k / 2 - 1 extra bits, the first two none (section 3.2.5 of RFC 1951) |
| `DeflateTables.LengthExtra` | lib/stb_image.h:4300-4301 | The same for the length symbols: k / 4 - 1 extra bits, none for the first eight and for 285 |
| `DeflateTables.DistChain` | lib/stb_image.h:4303-4307 | Distances begin at 1 and every symbol begins where the one before it ends |
| `DeflateTables.LengthChain` | lib/stb_image.h:4295-4301 | Lengths begin at 3 and every symbol up to 284 begins where the one before it ends |
| `DeflateTables.EveryCopyHasAToken` | lib/stb_image.h:4336-4342 | Every length from 3 to 258 at every distance from 1 to 32768 has a token |
| `DeflateTables.DistanceInRange` | lib/stb_image.h:4341-4342 | Every token copies from a distance of 1 to 32768 |
| `DeflateTables.LengthInRange` | lib/stb_image.h:4337-4338 | Every token copies 3 to 258 bytes |
| `DeflateTables.DistanceOrder` | lib/stb_image.h:4303-4342 | A distance is smaller if and only if its symbol is, or its extra bits for the same symbol |
| `DeflateTables.LengthOrder` | lib/stb_image.h:4295-4338 | Lengths grow in the same way, with 258 alone having two tokens |
| `BitMeter.TokensSpend` | lib/stb_image.h:4312-4342 | Reading the tokens of a stream advances the counters by exactly their bits, or the input had fewer bits left |
| `BitMeter.BlockSpends` | lib/stb_image.h:4309-4334 | The same for a whole block with its end symbol |
| `BitMeter.WithinPasses` | lib/stb_image.h:4243-4262 | A block that lies within the input always passes the counters |
| `BitMeter.OverrunUsesFill` | lib/stb_image.h:4326-4332 | A block that runs past the input and passes has used zeros of `stbi__fill_bits`: the input is used up and more padding was added than the sixteen bits that were announced |
| `Inflate.ZBuf.constructor` | lib/stb_image.h:4177-4190 | A new buffer reads exactly the input bits and is valid for every initial output size of at least one |
| `Inflate.ZBuf.RefillByte` | lib/stb_image.h:4209-4210 | Adds eight bits, zeros behind the end of the input, and keeps the stream and the buffer below 2 to the number of bits |
| `Inflate.ZBuf.FillBits` | lib/stb_image.h:4202-4212 | Leaves more than 24 bits, keeps the stream, and its give-up branch is never taken |
| `Inflate.ZBuf.Receive` | lib/stb_image.h:4214-4222 | The next n bits as a number and the stream advanced by n |
| `Inflate.ZBuf.EnsureBits` | lib/stb_image.h:4246-4262 | Gives up exactly if fewer than sixteen bits are buffered, the input is used up and the sixteen padding bits were already given; otherwise at least sixteen bits are there and the stream is kept |
| `Inflate.ZBuf.HuffmanDecode` | lib/stb_image.h:4243-4271 | The symbol whose code begins the stream, consuming exactly its code, or -1 only if no code begins it or the counters gave up |
| `Inflate.ZBuf.ZExpand` | lib/stb_image.h:4273-4293 | Makes room by doubling if and only if the total fits 32 bits and can be allocated; the output so far is kept |
| `Inflate.GrowthKeepsFits` | lib/stb_image.h:4282-4285 | Growing the buffer does not change which sizes can still be reached from where it started |
| `Inflate.SizeMatters` | lib/stb_image.h:4282-4288 | With an allocator limit of six bytes, five bytes can be reached from a buffer of three and not from one of one |
| `Inflate.AnySizeFits` | lib/stb_image.h:4273-4293 | A need of n bytes can be met from every initial size if and only if n is at most 2^31 and n is at most one or 2n - 2 bytes can be allocated |
| `Inflate.ZBuf.PutLiteral` | lib/stb_image.h:4316-4320 | Appends the byte or fails exactly if it does not fit |
| `Inflate.ZBuf.PutCopy` | lib/stb_image.h:4344-4354 | Appends the reference expansion of the copy, reading only bytes already produced, or fails exactly if it does not fit |
| `Inflate.ZBuf.FillRun` | lib/stb_image.h:4349-4351 | The shortcut for distance one appends what the general copy would |
| `Inflate.ZBuf.CopyRun` | lib/stb_image.h:4353 | The byte-by-byte loop appends the reference copy |
| `Inflate.ZBuf.ReadToken` | lib/stb_image.h:4313-4342 | Reads the token encoded at the stream, or the end of the block, or reports exactly that the stream encodes neither or the counters do not let it be read |
| `Inflate.ZBuf.PutToken` | lib/stb_image.h:4316-4354 | Applies a token: refused if it reaches before the first byte or does not fit, otherwise the reference expansion |
| `Inflate.ZBuf.ParseHuffmanBlock` | lib/stb_image.h:4309-4357 | Succeeds if and only if the stream, continued with zeros, encodes a block that never copies from before the first byte, fits and passes the counters; then the output is exactly the reference LZ77 expansion of that one block (section 3.2.3 of RFC 1951) and the stream stands behind it. It succeeds within the input if and only if such a block lies within the input |
| `Inflate.BlockOutcome` | lib/stb_image.h:4309-4357 | What the outcome says about the input alone: the equivalences of the row above and the padding an accepted overrun has used |
| `Inflate.OverrunIsAccepted` | lib/stb_image.h:4243-4262 | On the input of one zero byte a block of nine bits is accepted, and one bit behind the input has been consumed |
| `PngFilter.Paeth` | lib/stb_image.h:4657-4668 | The branch-free form equals the Paeth predictor of section 9.4 of the PNG specification for all integers |
| `PngFilter.FilterTypes` | lib/stb_image.h:4755-4773 | Filter types 0 to 3 predict nothing, the byte to the left, the byte above, and their average rounded down |
| `PngFilter.PaethIsNearest` | lib/stb_image.h:4657-4668 | Filter type 4 predicts the nearest of left, above and above left to left + above - above left, in that order on a tie |
| `PngFilter.ReconUndoesFilter` | lib/stb_image.h:4755-4785 | Reconstruction undoes filtering for every filter, pixel stride and row |
| `PngFilter.FilterUndoesRecon` | lib/stb_image.h:4755-4785 | Filtering undoes reconstruction |
| `PngFilter.DecodeEncode` | lib/stb_image.h:4737-4787 | Decoding an encoded image gives the image back, whatever filter each row uses |
| `PngFilter.LinesOfBytes` | lib/stb_image.h:4743-4787 | Cutting the byte stream into rows undoes joining rows |
| `PngFilter.UnfilterRow` | lib/stb_image.h:4755-4785 | Each of the six filter loops writes the reference reconstruction and nothing else; on the first row the substitute filters give the reconstruction against a row of zeros |
| `PngFilter.SubRow` | lib/stb_image.h:4759-4763 | The Sub loop writes the reference reconstruction |
| `PngFilter.UpRow` | lib/stb_image.h:4764-4767 | The Up loop writes the reference reconstruction |
| `PngFilter.AvgRow` | lib/stb_image.h:4768-4773 | The Average loops write the reference reconstruction |
| `PngFilter.PaethRow` | lib/stb_image.h:4774-4779 | The Paeth loops write the reference reconstruction, the first pixel by plain addition |
| `PngFilter.AvgFirstRow` | lib/stb_image.h:4780-4784 | The first-row Average loop writes the reconstruction against a row of zeros |
| `PngFilter.UnfilterInto` | lib/stb_image.h:4738-4787 | One round with two alternating half buffers: the new row is in its half, and the output holds the rows so far and the new one |
| `PngFilter.UnfilterRows` | lib/stb_image.h:4737-4787 | Succeeds if and only if no filter byte exceeds four, and then the output is the reference image, row after row |
| `PngFilter.Unfilter` | lib/stb_image.h:4696-4787 | Fails exactly if the data is shorter than the image or a filter byte exceeds four; otherwise the freshly allocated output is the reference image |
| `Adam7.Partition` | lib/stb_image.h:4873-4900 | Every pixel of the image belongs to exactly one pass, row and column, inside that pass (section 8.2 of the PNG specification) |
| `Adam7.LandsInside` | lib/stb_image.h:4880-4891 | A pixel of a pass lies inside the image exactly if it lies inside the reduced image |
| `Adam7.AtInjective` | lib/stb_image.h:4892-4893 | Different pixels have different addresses |
| `Adam7.ScatterPass` | lib/stb_image.h:4888-4895 | One pass writes exactly its pixels and leaves the others alone |
| `Adam7.Deinterlace` | lib/stb_image.h:4870-4904 | After the seven passes every pixel holds the matching pixel of its pass, for every width and height of at least one |
| `Json.InsertIsUpdate` | lib/picojson.h:830-847 | Storing a member keeps the object a map, sets the key and changes nothing else |
| `JsonRoundTrip.StringRoundTrip` | lib/picojson.h:522-557 | Every string, with every control character, quote and backslash, is read back from its escaped form |
| `JsonRoundTrip.ValueRoundTrip` | lib/picojson.h:574-637 | Every value serialized at any indentation and followed by anything that does not continue a number is read back and leaves what follows |
| `JsonRoundTrip.RoundTrip` | lib/picojson.h:559-643 | Parsing the compact or prettified serialization of any well-formed value gives the value, for every lawful number codec |
| `JsonRoundTrip.ParseWellFormed` | lib/picojson.h:813-921 | Whatever the parser accepts is a well-formed value: objects have every key once, in order |
| `JsonRoundTrip.ParseIsStable` | lib/picojson.h:574-921 | Serializing what was parsed and parsing again gives the same value |
| `JsonRoundTrip.IntegersLawful` | lib/picojson.h:486-502 | Integers below 2^53 in magnitude, printed without a fraction, form a lawful number codec |
| `JsonUnicode.Utf8Decodes` | lib/picojson.h:750-768 | A decoder written from section 3 of RFC 3629 reads the bytes pushed for any code point below 0x110000 as that code point and stops right behind them |
| `JsonUnicode.DecodesOnlyUtf8` | lib/picojson.h:750-768 | Whatever that decoder accepts is those bytes: no other encoding exists |
| `JsonUnicode.QuadRead` | lib/picojson.h:710-730 | Four hexadecimal digits in either letter case are read as the number they write |
| `JsonUnicode.UnitRead` | lib/picojson.h:732-770 | The escape of a code unit that is no surrogate is read as the UTF-8 bytes of that code point |
| `JsonUnicode.PairRead` | lib/picojson.h:737-752 | The escaped UTF-16 pair of any code point from 0x10000 to 0x10FFFF is read as its UTF-8 bytes |
| `JsonUnicode.LoneSurrogate` | lib/picojson.h:737-748 | A low surrogate alone, or a high one without an escape behind it, is refused |
| `JsonText.EscapeMeans` | lib/picojson.h:785-797 | Each of the eight short escapes is read as the character that section 7 of RFC 8259 gives it |
| `JsonText.OtherEscapes` | lib/picojson.h:797-806 | Any other letter but u after a backslash is refused |
| `JsonText.Blanks` | lib/picojson.h:682-690 | Blanks are exactly the characters 9, 10, 13 and 32 |
| `JsonText.NumberCharacters` | lib/picojson.h:849-868 | The characters of a number are the digits, signs, point and exponent letters; it begins with a digit or a minus sign |
| `JsonText.LessMeans` | lib/picojson.h:133 | Keys are ordered by the first character in which they differ, a prefix first |
| `JsonText.WordsMean` | lib/picojson.h:873-883 | null, true and false are read as what they say, whatever follows |
| `JsonText.PrettyLayout` | lib/picojson.h:567-637 | Prettified, every element stands on a line of its own, two blanks deeper than its bracket: shown on a nested value |
| `JsonText.CompactLayout` | lib/picojson.h:574-637 | Compact, the same value has no blank at all |
| `JsonParser.Input.GetC` | lib/picojson.h:654-667 | The next character or -1, with the line counter equal to one plus the line breaks before the cursor |
| `JsonParser.Input.UngetC` | lib/picojson.h:668-670 | The character last read is the next one again |
| `JsonParser.Input.SkipWs` | lib/picojson.h:682-690 | Skips exactly the white space |
| `JsonParser.Input.Expect` | lib/picojson.h:691-698 | Skips white space and consumes the character if it is the one expected, otherwise gives it back |
| `JsonParser.Input.Match` | lib/picojson.h:699-707 | Consumes the pattern or the matching part of it |
| `JsonParser.Input.QuadHex` | lib/picojson.h:710-729 | The loop reads what the grammar function says, also on errors |
| `JsonParser.Input.Codepoint` | lib/picojson.h:731-770 | The code point, surrogate pairs included, as UTF-8, and the cursor where the grammar function says |
| `JsonParser.Input.ParseString` | lib/picojson.h:772-811 | The string and the cursor of the grammar function, also on errors |
| `JsonParser.Input.NumberText` | lib/picojson.h:849-867 | The longest run of number characters |
| `JsonParser.Input.ParseValue` | lib/picojson.h:869-921 | Accepts exactly the texts the grammar function accepts, with the same value and the same cursor, also on errors |
| `JsonParser.Input.ParseArray` | lib/picojson.h:813-828 | The loop over items reads what the grammar function says |
| `JsonParser.Input.ParseObject` | lib/picojson.h:830-847 | The loop over members reads what the grammar function says |
| `JsonParser.SerializeStr` | lib/picojson.h:552-557 | Appends the escaped string |
| `JsonParser.Indent` | lib/picojson.h:567-572 | Appends a line break and the indentation |
| `JsonParser.SerializeTo` | lib/picojson.h:574-637 | The recursion with its loops appends exactly the specified text |
| `JsonParser.SerializeValue` | lib/picojson.h:559-565 | The whole serialization, prettified with a final line break or compact |
| `CommandLine.QuoteArg` | core/src/common/Win32CommandLine.cpp:5-33 | The loop with its backslash counter writes the specified quoted form |
| `CommandLine.QuotedRoundTrip` | core/src/common/Win32CommandLine.cpp:11-32 | Inside quotes the quoted form is read back as the value and the argument ends with it, by the Microsoft C rules |
| `CommandLine.ArgRoundTrip` | core/src/common/Win32CommandLine.cpp:5-33 | One quoted argument followed by a blank or the end is split off as itself |
| `CommandLine.ArgsRoundTrip` | core/src/common/Win32CommandLine.cpp:5-33 | For every list of strings, quoting each and joining with spaces splits into exactly the list |
| `Seqlock.GenNeverReturns` | core/src/common/Protocol.h:1077-1091 | A generation a reader saw as even is never current again once the slot has been written |
| `Seqlock.WriterKeeps` | core/src/common/Protocol.h:1077-1091 | Every step of a write, word by word and in any order, keeps the invariant for all slots and readers |
| `Seqlock.ReaderKeeps` | core/src/common/Protocol.h:1093-1109 | Every step of a read keeps the invariant |
| `Seqlock.RunInv` | core/src/common/Protocol.h:1077-1109 | In every state of every run a slot at rest holds one whole body and its generation counts its writes |
| `Seqlock.ReadIsWhole` | core/src/common/Protocol.h:1093-1109 | Every successful read returns exactly one whole body, that of the last write to the slot when it was sampled, no older than anything published when the read began; the snapshot of PerfStats is the same protocol with one slot |
| `Seqlock.LatestIsRecent` | core/src/common/Protocol.h:1447-1466 | Reading the latest frame after seeing publish index i returns a frame n of at least i from the slot of i |
| `Seqlock.ByIndexExact` | core/src/common/Protocol.h:1468-1490 | Reading by index returns the target or a later frame of its slot, and the target if and only if fewer than target + size frames had been written at the second generation load; publish index at most target + size - 2 suffices, at most target + size - 1 is necessary |
| `Seqlock.OverwrittenFrameIsReturned` | core/src/common/Protocol.h:1468-1490 | A run in which frame 33 is returned for target 1 although frame 1 was overwritten |
| `Seqlock.PublishOne` | core/src/common/Protocol.h:1496-1506 | An undisturbed publish appends one frame and leaves the readers alone |
| `PoseRing.Resync` | core/src/common/Protocol.h:705-711 | The cursor starts at most half a ring behind and is moved exactly if it was ahead or more than half a ring behind, then to half a ring back |
| `PoseRing.WriterKeeps` | core/src/common/Protocol.h:741-754 | A write, torn while it runs, keeps every position whose slot it does not reuse |
| `PoseRing.ReaderKeeps` | core/src/common/Protocol.h:701-719 | A step of a drain, a callback that runs for any time included, keeps the invariant |
| `PoseRing.RunInv` | core/src/common/Protocol.h:701-754 | The invariant holds in every state of every run |
| `PoseRing.InOrder` | core/src/common/Protocol.h:701-719 | While no drain starts with a lag of more than half a ring, all deliveries together are the positions 0, 1, 2, ... in order, without gap or repeat, up to the cursor |
| `PoseRing.DrainStarts` | core/src/common/Protocol.h:705-711 | A drain resumes at its cursor, or exactly half a ring back if the lag is larger |
| `PoseRing.DrainEnds` | core/src/common/Protocol.h:713-716 | A drain that ends has reached exactly the index it loaded |
| `PoseRing.DeliveredIntact` | core/src/common/Protocol.h:713-716 | Position p of at least 1 carries the p-th pose written, position 0 the initial contents, if fewer than half a ring minus one poses were written between the load and the return of the callback |
| `PoseRing.NewestIsNeverDelivered` | core/src/common/Protocol.h:713-716 | A delivered position is below the index that was loaded |
| `PoseRing.BoundIsTight` | core/src/common/Protocol.h:701-754 | A run with exactly half a ring minus one poses written since the load that delivers a torn pose |
| `Supervisor.DecideHostExitAction` | core/src/common/HostSupervisorBase.h:78-101 | Ignored exactly on a generation mismatch; a clean singleton exit keeps the counter and waits 500 ms; a halt means a fast exit that reached the threshold; a slow exit resets the counter |
| `Supervisor.SpawnKeeps` | core/src/common/HostSupervisorBase.cpp:359-452 | Spawning keeps at most one live host and bumps the generation whenever the handle changes |
| `Supervisor.KillKeeps` | core/src/common/HostSupervisorBase.cpp:467-500 | Killing leaves no live host spawned by the supervisor |
| `Supervisor.ReapKeeps` | core/src/common/HostSupervisorBase.cpp:621-643 | Reaping keeps both invariants and halts exactly at the fifth fast exit |
| `Supervisor.MonitorKeeps` | core/src/common/HostSupervisorBase.cpp:502-748 | Every step of the monitor, its own restarts included, keeps the invariant |
| `Supervisor.ClientKeeps` | core/src/common/HostSupervisorBase.cpp:88-155 | Every step of any number of threads in Start, Stop and Restart keeps the invariant |
| `Supervisor.RunInv` | core/src/common/HostSupervisorBase.cpp:88-748 | The invariant holds in every state of every run |
| `Supervisor.AtMostOneHost` | core/src/common/HostSupervisorBase.cpp:359-452 | Under every interleaving at most one host spawned by the supervisor is alive, and it is the tracked one |
| `Supervisor.ReapsWhatItWaitedOn` | core/src/common/HostSupervisorBase.cpp:611-653 | With a matching generation the monitor reaps the very process it waited on, which has exited, the uptime it measures never exceeds the time since the spawn, and it then sleeps 500 ms after exit code 3 or 4 and the backoff otherwise, unless it halts; with another generation it changes nothing |
| `Supervisor.BreakerCounts` | core/src/common/HostSupervisorBase.cpp:622-643 | Halted exactly if the counter is five, and the counter is the trailing run of exits under 2000 ms since the last reset, clean singleton exits passed over |
| `Supervisor.HaltedSpawnsNothing` | core/src/common/HostSupervisorBase.cpp:549-575 | While halted, no step of the monitor spawns, kills or reaps |
| `Supervisor.BackoffStep` | core/src/common/HostSupervisorBase.cpp:583-604 | A failed spawn doubles the backoff up to 30 s; a successful spawn, the end of a restart or a new monitor sets it to one second; no other step changes it |
| `Supervisor.BackoffLaw` | core/src/common/HostSupervisorBase.cpp:583-717 | In every run, with n failed spawns counted in its steps since the last success, restart or start, the backoff is min(1000 * 2^n, 30000), and the monitor sleeps for it or for the 500 ms of a singleton exit |
| `Supervisor.StopIsFinal` | core/src/common/HostSupervisorBase.cpp:126-137 | In every run, right after the kill of a Stop no host is alive, and none is alive in any continuation without a Start if and only if the stop flag still stands and no thread has passed its check of it |
| `Supervisor.StopFlagStands` | core/src/common/HostSupervisorBase.cpp:94-137 | Once set, the stop flag stands until some thread enters Start |
| `Supervisor.FromMonitor` | core/src/common/HostSupervisorBase.cpp:502-748 | Without the stop flag a running monitor can reach a spawn from every program point |
| `Supervisor.HostOutlivesStop` | core/src/common/HostSupervisorBase.cpp:126-137 | A run in which a host is alive after Stop has returned |
| `Ledger.ReadClockKeeps` | core/src/common/ModulePerf.cpp:205-216 | Reading the clock without the lock keeps the balance |
| `Ledger.JoinKeeps` | core/src/common/ModulePerf.cpp:218-221 | Entering the registry, any time after the reading, keeps the balance: the time in between is not lost |
| `Ledger.UnregisterKeeps` | core/src/common/ModulePerf.cpp:226-250 | Unregistering moves the unseen time of a thread to the retired balance |
| `Ledger.ScanKeeps` | core/src/common/ModulePerf.cpp:341-358 | Reading one clock moves its unseen time to the running sample |
| `Ledger.SampleKeeps` | core/src/common/ModulePerf.cpp:324-411 | Every step of a sample keeps the balance |
| `Ledger.TimeIsConserved` | core/src/common/ModulePerf.cpp:195-411 | In every state of every run and for every slot: drained + read by a running sample + retired + unseen time of threads in the registry or about to enter it equals all time used since registration began |
| `Ledger.AllDrained` | core/src/common/ModulePerf.cpp:403-411 | With no thread registered, nothing retired and no sample running, everything used has been drained |
| `Ledger.SampleDrainsAll` | core/src/common/ModulePerf.cpp:324-411 | A sample that nobody disturbs leaves nothing behind: all time used has been drained except that of threads about to enter the registry |
| `SourceBlend.DurationAlpha` | core/src/driver/DriverSynthCompose.h:193-200 | Between 0 and 1, 0 at the start, 1 exactly once the duration has passed |
| `SourceBlend.SmoothstepSlope` | core/src/driver/DriverSynthCompose.h:187-191 | Smoothstep is monotone and nowhere steeper than 3/2 |
| `SourceBlend.BlendWithin` | core/src/driver/DriverSynthCompose.h:255-276 | A blended position lies between the two positions |
| `SourceBlend.OutputWithinSupplied` | core/src/driver/DriverSynthCompose.h:293-429 | Over every run each position component of every output stays within any bounds that hold for the poses supplied so far |
| `SourceBlend.BlendPoint` | core/src/driver/DriverSynthCompose.h:343-424 | A step that ends in a blending phase shows the point of the curve for the time since the phase began; the start is the previous output and does not move while the phase lasts |
| `SourceBlend.BlendStartsWithoutJump` | core/src/driver/DriverSynthCompose.h:358-413 | Every step that enters a blending phase outputs exactly the previous output position |
| `SourceBlend.BlendSpeed` | core/src/driver/DriverSynthCompose.h:255-276 | Between two steps of one blend with the same target a component moves at most 1.5 * (elapsed / duration) * gap |
| `SourceBlend.SynthIsEarned` | core/src/driver/DriverSynthCompose.h:325-372 | With fixed timing and a monotone clock, returning to the synthesised pose from any other phase is preceded by that pose being available on every call for at least the stable time plus the blend time |
| `SourceBlend.MissingWithoutFallback` | core/src/driver/DriverSynthCompose.h:374-394 | With the synthesised pose missing and the fallback disallowed, the output is invalid, or it is the last synthesised pose and less than the grace time has passed since the first call that missed it |
| `BlendPhases.NextPhase` | core/src/driver/DriverSynthCompose.h:293-429 | The next phase is the entry of a table of the previous phase, whether the synthesised pose is offered, whether the fallback is allowed, and which of the four times, limited to 5000 ms, have passed |
| `BlendPhases.PhaseClock` | core/src/driver/DriverSynthCompose.h:278-284 | The start time of a phase is the call that entered it |
| `BlendPhases.OutputOfPhase` | core/src/driver/DriverSynthCompose.h:293-429 | Over every run: the phase follows the table; the stable phases show the synthesised pose offered or the fallback of this very call, the grace hold the last pose offered, a forbidden fallback the last place marked unusable, and a blend a point of its curve |
| `BlendPhases.SmoothEnds` | core/src/driver/DriverSynthCompose.h:187-191 | The blend curve leaves its start and reaches its end without speed and is the same both ways |
| `BlendPhases.BlendReports` | core/src/driver/DriverSynthCompose.h:255-276 | A blended pose is usable if either pose is and reports the state of the nearer one |
| `SourceBlend.SourceBlender.SetPhase` | core/src/driver/DriverSynthCompose.h:278-284 | The phase, with its start time changed only if the phase changes |
| `SourceBlend.SourceBlender.StepSourceBlend` | core/src/driver/DriverSynthCompose.h:293-429 | The method updates the state and returns the pose as the step function of the results above says |
| `SourceBlend.SourceBlender.StepWithSynth` | core/src/driver/DriverSynthCompose.h:325-372 | The branch with a synthesised pose |
| `SourceBlend.SourceBlender.StepWithoutSynth` | core/src/driver/DriverSynthCompose.h:374-428 | The branches without a synthesised pose |
| `SourceBlend.SourceBlender.FadeToFallback` | core/src/driver/DriverSynthCompose.h:415-424 | The fade to the fallback pose |
| `OneEuro.AlphaFromCutoffHz` | core/src/common/SmartSmoothingShadowMath.h:36-42 | A gain strictly between 0 and 1 |
| `OneEuro.AlphaGrows` | core/src/common/SmartSmoothingShadowMath.h:36-42 | The gain grows with the cutoff and with the interval |
| `OneEuro.AlphaIsLowPass` | core/src/common/SmartSmoothingShadowMath.h:36-42 | The gain is that of a first-order low pass: w / (1 + w) with w = 2 pi * cutoff * interval |
| `OneEuro.UpdateEnvelope` | core/src/common/SmartSmoothingShadowMath.h:51-58 | The envelope stays between 0 and 1 |
| `OneEuro.EnvelopeLaw` | core/src/common/SmartSmoothingShadowMath.h:44-58 | A rising target is approached by the share dt / (dt + attack constant) of the gap, a falling one by dt / (dt + release constant) |
| `OneEuro.BuildParams` | core/src/common/SmartSmoothingShadowMath.h:104-120 | For every smoothness the parameters are usable and the minimum cutoff lies between 0.25 and 16.45 Hz |
| `OneEuro.SmootherIsSlower` | core/src/common/SmartSmoothingShadowMath.h:104-111 | The smoother the setting, the lower the minimum cutoff |
| `OneEuro.GainRange` | core/src/common/SmartSmoothingShadowMath.h:435-458 | Whatever the state and the sample, the gain is positive, at most 1 and at least the gain of the minimum cutoff |
| `OneEuro.CutoffGrows` | core/src/common/SmartSmoothingShadowMath.h:445-454 | The cutoff rises with the speed, with the release and with the distance to the raw position |
| `OneEuro.AtRest` | core/src/common/SmartSmoothingShadowMath.h:442-458 | At rest the gain is exactly that of the minimum cutoff |
| `OneEuro.FullyReleased` | core/src/common/SmartSmoothingShadowMath.h:455-458 | Fully released, the filter passes the sample through |
| `OneEuroLaws.SpeedLaw` | core/src/common/SmartSmoothingShadowMath.h:411-430 | The speed estimate moves towards v or less exactly if neither the raw, the reported nor the implied speed exceeds v by more than its dead band |
| `OneEuroLaws.ReleaseLaw` | core/src/common/SmartSmoothingShadowMath.h:433-441 | The release opens when the device is fast or far from the output and closes when it is slow and near |
| `OneEuroLaws.CutoffFollows` | core/src/common/SmartSmoothingShadowMath.h:442-454 | The speed estimate alone, and the speed that would catch up alone, raise the cutoff by the slope times themselves, up to the maximum |
| `OneEuroLaws.CatchUpSpeed` | core/src/common/SmartSmoothingShadowMath.h:442-448 | The catching-up speed closes the distance beyond the still zone in one sample, at most 3 m/s, and is zero inside it |
| `OneEuroLaws.RestartLaw` | core/src/common/SmartSmoothingShadowMath.h:370-409 | The filter restarts at the raw position exactly on the first sample, when time stands still, after a gap above 0.25 s, and on a jump above 0.5 m or 60 degrees |
| `OneEuroLaws.ParamsSmoothest` | core/src/common/SmartSmoothingShadowMath.h:67-120 | All parameters at full smoothness |
| `OneEuro.WithinRaw` | core/src/common/SmartSmoothingShadowMath.h:370-463 | Every filtered coordinate stays within the raw samples since the last reseed |
| `OneEuro.OutputNearRaw` | core/src/common/SmartSmoothingShadowMath.h:401-463 | After every valid sample, from any state, the output is within the jump distance of the raw position |
| `OneEuro.ConvergesToConstant` | core/src/common/SmartSmoothingShadowMath.h:370-463 | For constant input the error shrinks at least as fast as (1 - alpha)^n, alpha being the gain of the minimum cutoff for the shortest interval |
| `OneEuro.Filter.SeedFilter` | core/src/common/SmartSmoothingShadowMath.h:347-363 | Restarts the filter at the raw position |
| `OneEuro.Filter.Advance` | core/src/common/SmartSmoothingShadowMath.h:461-473 | The loop over the axes moves every coordinate by the gain |
| `OneEuro.Filter.Step` | core/src/common/SmartSmoothingShadowMath.h:370-475 | The method updates the state as the step function of the results above says |
| `Reanchor.PivotOnSegment` | core/src/driver/IsometryTransform.h:59-79 | The pivot point moves exactly along the straight segment, whatever the rotation does |
| `Reanchor.EuclideanIsLawful` | core/src/driver/ServerTrackedDeviceProviderTransforms.cpp:118 | The Euclidean length obeys the laws assumed of lengths |
| `Reanchor.LawsCanBeMet` | core/src/driver/ServerTrackedDeviceProviderTransforms.cpp:110-126 | The laws assumed of slerp, angular distance and length are met by turns about an axis, at any distance from each other |
| `Reanchor.FractionIs` | core/src/common/ReanchorRamp.h:24-37 | For frames of at least a microsecond the fraction is the share of the remaining time that the frame takes, or 1 |
| `Reanchor.FrameLaw` | core/src/driver/ServerTrackedDeviceProviderTransforms.cpp:110-126 | The time left, max(distance / 0.045, angle / 0.0785), drops by exactly dt; once it is at most dt the target is reached and the latch clears |
| `Reanchor.FrameCaps` | core/src/driver/ServerTrackedDeviceProviderTransforms.cpp:110-126 | No frame of the ramp moves by more than 0.045 * dt or turns by more than 0.0785 * dt |
| `Reanchor.NormalFrame` | core/src/driver/ServerTrackedDeviceProviderTransforms.cpp:128-136 | Without the ramp a frame leaves the share 1 - dt * rate of the distance and of the angle, nothing if that is negative |
| `Reanchor.OnTheWay` | core/src/driver/ServerTrackedDeviceProviderTransforms.cpp:110-126 | Until the time needed has passed the ramp is on and the time left is the time needed minus the time elapsed |
| `Reanchor.RampEnds` | core/src/driver/ServerTrackedDeviceProviderTransforms.cpp:110-126 | The ramp ends on the target with the first frame at which the elapsed time reaches the time needed |
| `Reanchor.DeviceTransform.BlendTransform` | core/src/driver/ServerTrackedDeviceProviderTransforms.cpp:99-136 | The method updates transform, latch and time stamp as the frame function of the results above says |
| `MarkerText.FieldRoundTrip` | core/src/common/ModuleSafety.cpp:104-112 | Searching for a key anywhere in the text finds the value of its line up to the first line end, whatever the value is, unless the key with its separator stands in an earlier line |
| `MarkerText.PlainLine` | core/src/common/ModuleSafety.cpp:104-112 | In a line without further separators the key stands only if the key of the line ends with it |
| `MarkerText.ReadUnsigned` | core/src/common/ModuleSafety.cpp:114-123 | The loop reads the leading digits as a number modulo 2^32 |
| `MarkerText.CountersRoundTrip` | core/src/common/ModuleSafety.cpp:125-151 | Counters survive being written to and read from their file |
| `MarkerText.ReasonRoundTrip` | core/src/common/ModuleSafety.cpp:85-97 | Whatever the reason in a marker is, it is read back up to its first line end, so as written if and only if it is one line |
| `MarkerText.MarkerLayout` | core/src/common/ModuleSafety.cpp:85-97 | The three lines of a marker, character by character |
| `Safety.AssessCounts` | core/src/common/ModuleSafety.cpp:299-333 | An assessment counts exactly the active-only cases and blames repeated exits only at three or more; the count is the one written to the file |
| `Safety.GateCounts` | core/src/driver/FeatureFlags.cpp:63-87 | A gate counts exactly the active-only launches and makes a module blamable only at three or more |
| `Safety.FindOnlyBlamable` | core/src/driver/FeatureFlags.cpp:89-109 | The loop finds the gate to blame if and only if there is exactly one |
| `Safety.ComposeFeatureFlags` | core/src/driver/FeatureFlags.h:43-61 | The mask holds exactly the enabled modules, and the router with face tracking or captions |
| `Safety.ModuleSafety.ApplyGates` | core/src/driver/FeatureFlags.cpp:176-193 | All seven gates, the router last and only if something needs it |
| `Safety.ModuleSafety.DetectFeatureFlags` | core/src/driver/FeatureFlags.cpp:148-200 | The mask returned is exactly that of the rules below about the files before the launch; face tracking and captions are in it only with the router |
| `Safety.MaskExact` | core/src/driver/FeatureFlags.cpp:63-200 | A module is in the mask if and only if it is wanted, was not disabled, was not left inside an operation, is not the only module with a third active-only run, and, for face tracking and captions, the router passes the same test |
| `Safety.LaunchExact` | core/src/common/ModuleSafety.cpp:299-333 | A launch leaves an unwanted module alone; of a wanted one it uses up the markers, counts them modulo 2^32, and disables it with the reason named exactly if it was left inside an operation or is the only suspect |
| `Safety.SuspectDisables` | core/src/common/ModuleSafety.cpp:308-331 | A wanted module with a suspect marker of a one-line reason is disabled afterwards if and only if it was before or the reason is neither shutdown nor flag_removed |
| `Safety.ConversionExact` | core/src/common/ModuleSafety.cpp:335-338 | An explicit conversion also disables a module by itself after its third active-only run |
| `Safety.MaskExcludesDisabled` | core/src/driver/FeatureFlags.cpp:63-87 | No module with an auto-disabled marker is in the mask |
| `Safety.MaskIsWanted` | core/src/driver/FeatureFlags.cpp:155-192 | A module is in the mask only if its flag is present, the router also if a module that needs it has its flag |
| `Safety.LaunchUsesUpMarkers` | core/src/common/ModuleSafety.cpp:327-332 | A launch uses up the stale markers of every module it assesses, so each unclean exit is counted once |
| `Safety.CleanMeansIdle` | core/src/common/ModuleSafety.cpp:267-347 | Over every history no module carries a clean mark and an active mark at once |
| `Safety.DisabledUntilReenabled` | core/src/common/ModuleSafety.cpp:291-347 | Over every history a disabled module stays disabled until it is enabled again |
| `Safety.DisabledIsMasked` | core/src/driver/FeatureFlags.cpp:82-85 | A disabled module is in no mask |
| `Safety.AtMostOneBlamed` | core/src/driver/FeatureFlags.cpp:89-115 | A launch blames repeated unclean exits on at most one module, the only one that could be blamed |
| `Safety.CounterCounts` | core/src/common/ModuleSafety.cpp:267-347 | Over every history the counter on disk is the number of active-only assessments since the last clean mark or re-enable, modulo 2^32 |
| `Safety.BackoffNeedsThree` | core/src/driver/FeatureFlags.cpp:89-115 | Over every history repeated exits are blamed on a module, by the backoff or by an explicit conversion, only after at least three active-only assessments since its last clean mark or re-enable |

## Left out

- JPEG, GIF, BMP, TGA, PSD, PIC, HDR and PNM decoding and the SIMD kernels of `lib/stb_image.h`.
- The dynamic code-length header, stored blocks, the zlib header and the loop over blocks around `stbi__parse_huffman_block`.
- Expansion of samples of 1, 2, 4 and 16 bits and of a missing alpha channel after unfiltering, palettes and transparency.
- Inflate.ZBuf.constructor: an initial output buffer of size zero is excluded, because the doubling loop would not end on it.
- JSON numbers other than exact integers: printing and scanning are an arbitrary lawful codec, so locales, `snprintf` and `strtod` are not modelled. The 64-bit integer type of picojson is not modelled.
- CommandLine.QuoteArg: does not model wrap-around of the 32-bit backslash count, because a string of 2^32 backslashes is needed to reach it. The rule of its own for the program name is not modelled.
- Weak memory: the atomics of the seqlocks and rings are sequentially consistent. Generations and indices do not wrap at 2^64.
- Mapping and version checks of the shared-memory segments.
- Owner leases, logging, control-pipe messages and `running_` of the supervisor. Processes can be terminated, and a terminated process is dead. Start while a monitor is still running is not a step: it would end the program.
- Child processes in the CPU ledger: a registration that replaces an entry with the same process number drops its unbanked time. Percentages, section timers and memory counters, and that a sample over no wall time drains without reporting.
- Rotations, velocities, accelerations and offsets in the source blend, the alpha it reports, and the gate that decides whether a synthesised pose is offered.
- OneEuro.BuildParams: the power (1 - s)^1.8 is a parameter between 0 and 1, because no irrational power is modelled; OneEuro.SmootherIsSlower uses that it falls as the smoothness s grows.
- The rotation path of the one-euro filter, which can only force a reseed of the position path; the prediction factor and the shadow comparison.
- Frames of the re-anchor ramp shorter than a microsecond, normalisation of quaternions and the choice of the normal blend rate. Slerp, angular distance and length are used through their laws; rotations that differ in sign are one rotation.
- Failing file operations, modules outside the driver safety list and the log lines of the launch.
- Floating-point rounding: numbers are exact reals.
