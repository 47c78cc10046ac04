# Verification model of the wallet firmware

This project models the parts of a hardware wallet's firmware that carry its data out through a screen and in through a
camera, and a few of the containers below them, and proves what they are for:

- **QR symbols** (`firmware/app/src/qrcode/qr.c`, tables in `qr_private.h`). Data are written as a bit stream, completed,
  divided into Reed-Solomon blocks, interleaved, walked into the symbol, masked and labelled. The main results are about a
  reader that sees nothing but the size of the finished symbol and the colours of its modules: it gets exactly the segments
  that were added, every syndrome of every block is zero, and the version is the least one that has room. The same is
  proved for every symbol of a structured-append message. All tables of the standard (ISO/IEC 18004:2015) that this rests on
  are checked for all 40 versions: block lengths, count widths, the exponent and logarithm tables, the generator rows, and
  that function modules and code words fill the symbol exactly.
- **QR packets** (`firmware/app/core/wallet/qr_pack.c`, `CameraManager.cpp`). A message is encrypted if asked, cut into
  chunks behind which a digest goes, scanned in any order and with repeats, put together, decrypted and checked. SHA-256
  and the cipher are parameters: a function to 32 bytes, and a pair of inverses that keeps lengths.
- **A chained hash table** (`map.c`), over linked nodes, that stays one finite map through growing, failing to grow,
  replacing and removing; and the **expansion of references** in configuration values (`ini_parser.c`), which overwrites
  the source strings while it recurses.
- **The timed message queue** (`AppMain.cpp`): a linked list and a pool of five nodes, with posting, deleting, detaching,
  handling and releasing as steps that may come in any order.
- A bitmap writer (`qrcnv_bmp.c`), a table-driven checksum (`crc.h`) and decimal amounts (`coin_util_hw.c`).

Code that changes things in place is modelled as classes and methods over arrays and linked nodes, each proved against a
function of the inputs or of the old state; what is promised of those functions is proved as lemmas. One module stands for
one concern. What several of them share (masks, words of the standard, parity, keys, tables) is stated once more in terms of
what it means: by literal patterns and words, by columns of the tables that the code does not use, and by the standard's own
worked examples. `QrCode.dfy`, `Structured.dfy`, `Reassembly.dfy`, `CameraManager.dfy`, `HashMap.dfy`, `MessageQueue.dfy` and
`IniExpand.dfy` hold the classes and methods that are called from outside.

Some promises do not hold of the code as it is. They are stated with an input that shows it and with the exact condition
under which they hold, which can be looked up before the call:

- The version that is chosen is the least one, and large enough, unless adds that failed over their characters came
  before: `qr.c:947-950` counts the corrections before the check that rejects the data. `DriftedRun` is a run whose symbol
  does not show what was put into it. The choice is right exactly when every version below the least one with room is too
  small by more than the drift, which is 4 or 2 bits for each rejected add (`DriftHarmless` in `ChoiceRightIff` and
  `Finalize`). A version that was asked for always has room.
- The chunks of a message are right exactly when the chunks before the last end within it; small packets can break that
  (`SmallPacketsOverrun`, `JoinedIsMessage`, `MessageComesBack`).
- A target that is set partly before the expansion of references can depend on the order of the keys
  (`PresetShowsOrder`). The order shows exactly when a key that is not preset refers to one that is, that the source gives as plain
  text, and as another text than the preset one (`OrderShowsIff`).
- Kanji lengths are not adjoint (`KanjiLengthNotAdjoint`). For even sizes they are, and for an odd size exactly when the
  limit has room for neither or for both of the characters around it (`KanjiAdjointIff`).
- After a failed write the cursor comes back with byte position and bit number exchanged, `qr.c:1207-1208`
  (`EncodeDataWord`); that is where it was only when the two were equal (`ExchangedCursor`), and after a first add it is bit
  63 (`FirstFailureMoves`).
- A message of kind 0 leaves its slot of the pool looking free while it is queued. Posting keeps the pool sound exactly when
  the kind is not 0 or no slot is free (`PostMessageDelay`, `SlotTakenTwice`).
- The number of symbols of a message is not bounded by 16: the upper limit is held against the mask, `qr.c:145`
  (`CountUnbounded`). Adds are modelled as far as they keep within the table of 16 places (`StaysInTable`).
- A block corrects half as many errors as it has words for them, as the table says, except for the entry of version 22 at
  level H, which is never read (`CorrectsIff`).
- The margin of a bitmap is not bounded: the limit is held against the magnification, `qrcnv.h:89` (`MarginUnbounded`).

## Model

| member | source | states |
|---|---|---|
| Segments.LengthAdjoint | firmware/app/src/qrcode/qr.c:747-887 | for the three modes that can be written and a positive number of characters, so many bits are enough for the data exactly when the number is at most the most characters that fit in so many bits |
| Segments.KanjiLengthNotAdjoint | firmware/app/src/qrcode/qr.c:756-887 | an input for which the same fails for Kanji: three bytes take no more than 17 bits and the count, while fewer than three are said to fit |
| Segments.KanjiAdjointIff | firmware/app/src/qrcode/qr.c:756-887 | for Kanji it holds for every even size, and for an odd size exactly when the limit leaves room for neither or for both of the characters around it |
| Segments.CodeOfChar | firmware/app/src/qrcode/qr.c:1220-1360 | every code of a mode has a character of the mode, so there are exactly ten digits, 45 alphanumerics and 256 bytes |
| Segments.AlphabetIs | firmware/app/include/qrcode/qr_private.h:416-433 | the alphanumeric codes number the digits, the capital letters and the nine symbols in this order, and nothing else has one |
| StandardExamples.NumericExample | firmware/app/src/qrcode/qr.c:1200-1384 | the digits 01234567 in version 1 are written as the bits that the standard prints |
| StandardExamples.AlnumExample | firmware/app/src/qrcode/qr.c:1200-1384 | the characters AC-42 in version 1 are written as the bits that the standard prints |
| StandardExamples.OneDigit | firmware/app/include/qrcode/qr_private.h:35-282 | how many bits one digit takes in each mode, for each of the three ranges of versions |
| StandardExamples.DataWords | firmware/app/src/qrcode/qr.c:1390-1432 | the digits 01234567 in version 1 at level M give the sixteen data words that the standard prints, pad words included |
| Segments.EncodeSegmentLength | firmware/app/src/qrcode/qr.c:756-813 | the bits that a segment is written as are exactly as many as its encoded length counts |
| Segments.ReadCharsOfEncoded | firmware/app/src/qrcode/qr.c:1220-1370 | decoding the character groups of a mode gives the characters back and leaves what follows |
| Segments.ReadSegmentOfEncoded | firmware/app/src/qrcode/qr.c:1200-1384 | a reader takes exactly the written segment off the front of a stream |
| Segments.ReadSegmentsOfEncoded | firmware/app/src/qrcode/qr.c:1200-1384 | a stream of segments, followed by a terminator or by too few bits for one, is read as exactly those segments |
| VersionTable.TableConsistent | firmware/app/include/qrcode/qr_private.h:35-282 | for every version and level the blocks add up to the data words and, with their error-correction words, to all code words; blocks fit the scratch buffers, the last kind is the longest, and at most 7 bits remain |
| VersionTable.CentresAreSpaced | firmware/app/include/qrcode/qr_private.h:35-282 | alignment centres are at 6, at 7 from the far edge, and at equal distances before that, by the formula for the distance and its one exception |
| Capacities.CharsAreEncodable | firmware/app/include/qrcode/qr_private.h:35-282 | for every version, level and mode the most characters that can be encoded are the number in the capacity column, which the code does not use |
| Capacities.FitsByTable | firmware/app/include/qrcode/qr_private.h:35-282 | data of a mode that can be written fit in an empty symbol exactly when they have no more characters than that column says |
| Capacities.LevelsFall | firmware/app/include/qrcode/qr_private.h:35-282 | in every version the levels L, M, Q and H have fewer and fewer data words |
| Capacities.CorrectsIff | firmware/app/include/qrcode/qr_private.h:35-282 | a block has two words for every error in the column of corrections, and its guard words, in every version and level but 22-H |
| Capacities.BlocksDetermined | firmware/app/include/qrcode/qr_private.h:35-282 | data words, all words and that column leave no other division into blocks |
| VersionTable.FittingCountFits | firmware/app/include/qrcode/qr_private.h:35-282 | what fits in a symbol has a number of characters that fits in the count indicator of its version |
| GaloisField.MulIsFieldProduct | firmware/app/include/qrcode/qr_private.h:287-326 | the product through the tables is bilinear, has the unit 1, and multiplying by 2 is the shift with reduction by 0x11d: it is the multiplication of GF(256) |
| GaloisField.MulCommutes | firmware/app/include/qrcode/qr_private.h:287-326 | the product through the tables is commutative |
| GaloisField.TableProduct | firmware/app/src/qrcode/qr.c:1540-1560 | adding exponents modulo 255 and looking the sum up multiplies a non-zero coefficient by a power of two |
| ReedSolomon.Round | firmware/app/src/qrcode/qr.c:1505-1545 | one shift with a multiple of the generator taken away keeps the invariant of long division |
| ReedSolomon.DivideBlock | firmware/app/src/qrcode/qr.c:1472-1581 | the shift register with its shortcut for a zero lead leaves the words that complete the data to a multiple of the generator |
| Syndromes.GeneratorRowIsGenerator | firmware/app/include/qrcode/qr_private.h:331-364 | each row of the table that is used is the product of the factors x + 2^0 to x + 2^(n-1) |
| Syndromes.SyndromesVanish | firmware/app/src/qrcode/qr.c:1472-1581 | data with the words computed for them have all n syndromes zero |
| Syndromes.CodewordUnique | firmware/app/src/qrcode/qr.c:1472-1581 | no other error-correction words complete the data to a codeword |
| CodewordBlocks.ComputeErrorCorrection | firmware/app/src/qrcode/qr.c:1472-1581 | every block of the version and level, at its place in the buffers, becomes a codeword |
| Interleaving.WordAtPosition | firmware/app/src/qrcode/qr.c:1587-1670 | word i of block b comes out at the position that counts all words of earlier rounds and of earlier blocks in its round |
| Interleaving.PositionsOrdered | firmware/app/src/qrcode/qr.c:1587-1670 | positions go up from round to round and from block to block, so no two words share one |
| Interleaving.PositionsOnto | firmware/app/src/qrcode/qr.c:1587-1670 | every position holds some word of some block |
| Interleaving.RoundsLengthIsTotal | firmware/app/src/qrcode/qr.c:1587-1670 | as many words come out as the blocks have together |
| Interleaving.BlocksOfRounds | firmware/app/src/qrcode/qr.c:1587-1670 | collecting the blocks again from the interleaved words gives the data back |
| Interleaving.AppendRounds | firmware/app/src/qrcode/qr.c:1600-1665 | the nested loops append exactly the rounds and change nothing behind them |
| CodewordBlocks.MakeCodewords | firmware/app/src/qrcode/qr.c:1587-1670 | the final sequence is all data words interleaved, then all error-correction words interleaved |
| CodewordBlocks.DataPartOfInterleaved | firmware/app/src/qrcode/qr.c:1587-1670 | a reader that knows version and level gets the data words out of the final sequence |
| CodewordBlocks.BlocksAreCodewords | firmware/app/src/qrcode/qr.c:1472-1670 | every block collected from the final sequence has all syndromes zero |
| FunctionPattern.FunctionCellsFill | firmware/app/include/qrcode/qr_private.h:35-282 | in every version function modules, code bits and remainder bits together are all modules of the symbol |
| FunctionPattern.FreeModulesFit | firmware/app/src/qrcode/qr.c:1676-1825 | the walk meets exactly as many free modules as there are code bits and remainder bits |
| PatternDrawing.FillFunctionPattern | firmware/app/src/qrcode/qr.c:1676-1788 | drawing part by part leaves exactly the function modules of the version, in their colours, and everything else empty |
| PatternDrawing.PatternsAreRings | firmware/app/include/qrcode/qr_private.h:372-391 | finders and alignment patterns are dark rings around their centre with one light ring |
| PatternDrawing.FinderRatio | firmware/app/include/qrcode/qr_private.h:372-381 | rows and columns through the middle of a finder are dark, light, three dark, light, dark |
| PatternDrawing.FormatCellsRun | firmware/app/include/qrcode/qr_private.h:439-450 | the bits of the format word run down column 8 and, in the other copy, along row 8 from the right, past the timing pattern |
| PatternDrawing.VersionCellsRun | firmware/app/include/qrcode/qr_private.h:459-472 | the bits of the version word fill three columns of six from the top; the two copies are each other with rows and columns exchanged |
| PatternDrawing.TimingThroughAlignment | firmware/app/src/qrcode/qr.c:1720-1765 | timing patterns keep their alternating colours where alignment patterns cross them |
| Placement.WalkCovers | firmware/app/src/qrcode/qr.c:1830-1881 | every module outside the timing column is on the walk, at one place only |
| Placement.FreeOrderDistinct | firmware/app/src/qrcode/qr.c:1847-1881 | no free module is visited twice |
| Placement.FreeOrderComplete | firmware/app/src/qrcode/qr.c:1847-1881 | every free module outside the timing column is visited |
| Placement.StepIsNext | firmware/app/src/qrcode/qr.c:1847-1881 | the step that moves right, turns at the edges and passes over column 6 is the next place of the walk |
| Placement.WalkBegins | firmware/app/src/qrcode/qr.c:1830-1881 | the walk starts in the lower right corner, goes to the left module and then up |
| Placement.ReadPlaced | firmware/app/src/qrcode/qr.c:1794-1825 | reading the data flags along the walk gives the bits that were placed along it |
| QrCodes.QrCode.NextPosition | firmware/app/src/qrcode/qr.c:1847-1881 | the search ends, at the next free module or beyond the walk |
| QrCodes.QrCode.FillCodeWord | firmware/app/src/qrcode/qr.c:1794-1825 | bit k of the code words, highest bit first, goes to the k-th free module, and nothing else changes |
| Masking.TrialsIndependent | firmware/app/src/qrcode/qr.c:1927-2000 | a mask after another mask gives what it gives on the fresh symbol |
| Masking.MaskComesOff | firmware/app/src/qrcode/qr.c:1936-2000 | function modules stay as they are, and exclusive-or with the mask gives the data flag of every free module back |
| Masking.MaskTiles | firmware/app/src/qrcode/qr.c:1984-1991 | each of the eight masks flips exactly the modules of its printed tile, repeated over the whole symbol |
| Masking.ApplyMask | firmware/app/src/qrcode/qr.c:1936-2000 | rewriting the colours in place gives the masked symbol: a free module is dark when its data say so, and the other way round where the tile of the mask says |
| QrCodes.QrCode.SelectMaskPattern | firmware/app/src/qrcode/qr.c:1887-1922 | the mask asked for, or else the one of lowest penalty, the first on a tie, applied to the symbol as it was before all trials |
| Penalty.ScoreRuns | firmware/app/src/qrcode/qr.c:2015-2081 | the run counter adds up the scores of the maximal runs of a line |
| Penalty.ScoreFinders | firmware/app/src/qrcode/qr.c:2096-2160 | 40 for every finder-like pattern of a line; asking for light right after the pattern, as only the scan of columns does, makes no difference |
| Penalty.Evaluate | firmware/app/src/qrcode/qr.c:2006-2179 | the scan loops add up to the penalty stated over lines, blocks and the share of dark modules |
| Penalty.PenaltyOfTransposed | firmware/app/src/qrcode/qr.c:2006-2179 | the penalty stays the same when rows and columns are exchanged |
| Penalty.LightPenalty | firmware/app/src/qrcode/qr.c:2006-2179 | a symbol of any size without a dark module is charged one run in every line, three for every block, and 100 for the share |
| Penalty.FinderScore | firmware/app/src/qrcode/qr.c:2096-2160 | a line that is just a finder-like pattern from edge to edge is charged 40 |
| FormatInfo.FormatWord | firmware/app/src/qrcode/qr.c:2185-2215 | the word without its mask is a multiple of the generator 0x537 with level and mask in its upper five bits, and it is the one that the standard prints for level and mask |
| FormatInfo.FormatWordIsOfTable | firmware/app/src/qrcode/qr.c:2185-2215 | a masked code word with level and mask on top is the one of 32 printed words, bit for bit |
| FormatInfo.ReadFormatOfWord | firmware/app/src/qrcode/qr.c:2185-2215 | a reader gets level and mask from the word |
| FormatInfo.VersionWordSaysVersion | firmware/app/include/qrcode/qr_private.h:477-485 | the upper six bits of every version word are the version |
| FormatInfo.VersionWordIsCodeWord | firmware/app/include/qrcode/qr_private.h:477-485 | the lower twelve bits of every version word are the check bits of the upper six |
| FormatInfo.FillFormatInfo | firmware/app/src/qrcode/qr.c:2185-2249 | exactly the modules of the two copies of the format word, of the two copies of the version word from version 7 on, and the one that is always dark become dark |
| SymbolReader.InfoReadable | firmware/app/src/qrcode/qr.c:2185-2249 | both printed copies of format and version word read as they were written |
| SymbolReader.SymbolShows | firmware/app/src/qrcode/qr.c:2255-2341 | a symbol made of placed, masked, labelled code words shows a reader level, mask, data bits and blocks without a fault |
| DataStream.ExchangedCursor | firmware/app/src/qrcode/qr.c:1376-1377 | a cursor put back with its parts exchanged is where it was only if they were equal |
| DataStream.FirstFailureMoves | firmware/app/src/qrcode/qr.c:1376-1377 | when the first write of all fails, the cursor goes from bit 0 to bit 63 |
| DataStream.OredAppends | firmware/app/src/qrcode/qr.c:1437-1456 | ORing bits in at the cursor appends them to a stream that zeros follow |
| DataStream.TailEndsStream | firmware/app/src/qrcode/qr.c:1390-1432 | what completes a stream is taken for its end by a reader |
| ReadBack.CompletedIsPadded | firmware/app/src/qrcode/qr.c:1390-1432 | behind a completed stream there are zeros up to the next whole word, and from there the words 0xEC and 0x11 in turn |
| QrCodes.QrCode.AddDataBits | firmware/app/src/qrcode/qr.c:1437-1456 | the low n bits of a word are ORed in from the cursor on, highest first; the cursor moves on by n |
| QrCodes.QrCode.EncodeData | firmware/app/src/qrcode/qr.c:1240-1370 | the characters are appended group by group; before the first one that is not of the mode all whole groups are |
| QrCodes.QrCode.EncodeDataWord | firmware/app/src/qrcode/qr.c:1201-1384 | a successful write appends exactly the segment; a failed one is reported for the mode, leaves mode, count and the whole groups before the foreign character in the buffer, and exchanges the parts of the cursor |
| QrCodes.QrCode.FinalizeDataWord | firmware/app/src/qrcode/qr.c:1390-1432 | the data words hold the stream, then terminator and fill bits of zero, and then the words 0xEC and 0x11 in turn to the last |
| QrCodes.DetectDataType | firmware/app/src/qrcode/qr.c:623-638 | the mode that is detected can hold the data, and no other mode that can takes fewer bits |
| QrCodes.FirstNotOf | firmware/app/src/qrcode/qr.c:643-672 | the first character that is not of the mode, or that all are |
| QrCodes.QrCode.Init | firmware/app/src/qrcode/qr.c:39-119 | which parameters are accepted, and which error the others get |
| QrCodes.QrCode.AddDataAs | firmware/app/src/qrcode/qr.c:906-1023 | every add is answered as its arguments and the room demand, a first one as the capacity column of the version table says; a successful one appends one segment, a failed one leaves the segments alone, and over its characters it leaves the count, the exchanged cursor and the broken-off write that are described |
| QrCodes.VerdictAgrees | firmware/app/src/qrcode/qr.c:936-947 | a first add in a mode that can be written is too large exactly when it has more characters than the capacity column says for version, level and mode |
| QrCodes.QrCode.AddData | firmware/app/src/qrcode/qr.c:893-901 | the same with the mode given at the start |
| QrCodes.QrCode.Buffer | firmware/app/src/qrcode/qr.c:934-1010 | while the version is open, an add is kept as a record, and the lengths for the three ranges of versions stay exact but for the drift of rejected adds |
| Records.FirstRecord | firmware/app/src/qrcode/qr.c:2304-2324 | parsing finds mode, size and data of each record as they were kept, and the end where they end |
| VersionChoice.ChoiceIsLeast | firmware/app/src/qrcode/qr.c:2277-2300 | without rejected adds the choice by corrected lengths is the least version with room for the encoded length with its own count widths |
| VersionChoice.ChoiceRightIff | firmware/app/src/qrcode/qr.c:947-950 | with rejected adds the choice is the least version with room, and has room at all, exactly when every version below the least one with room is too small by more than the drift |
| VersionChoice.DriftMisleads | firmware/app/src/qrcode/qr.c:947-994 | eight bytes at level H after one rejected add: version 1 is taken, which has no room for them |
| QrCodes.DriftedRun | firmware/app/src/qrcode/qr.c:947-994 | a letter is refused as a number, eight bytes are added and the symbol is finished: what a reader gets from it is not what was added |
| VersionChoice.TestMeans | firmware/app/src/qrcode/qr.c:2284-2292 | the comparison made for a version says whether the data fit its capacity but for the drift |
| QrCodes.QrCode.ChooseVersion | firmware/app/src/qrcode/qr.c:2277-2300 | the search stops at the first version whose capacity passes the comparison |
| QrCodes.QrCode.EncodeSource | firmware/app/src/qrcode/qr.c:2304-2324 | the buffered records are encoded in order as the segments that were added |
| QrCodes.QrCode.Finalize | firmware/app/src/qrcode/qr.c:2255-2341 | it succeeds exactly when all buffered data can be written; version and mask are as asked or as chosen, the symbol is the masked and labelled one, and the data fit it if the version was asked for, else exactly when the drift does no harm |
| QrCodes.QrCode.ReadsBack | firmware/app/src/qrcode/qr.c:2255-2341 | a noise-free reader gets exactly the segments added, if and only if the version has room for them |
| ReadBack.CompletedReads | firmware/app/src/qrcode/qr.c:1390-1432 | a completed stream reads back as its segments exactly when they fit in the capacity |
| QrCodes.ShowData | firmware/app/src/widget/showQrWindow.c:34-55 | showing data gives a symbol exactly for data of a mode that fit version 40 at level H; it reads as that one segment, and no smaller version would have done |
| QrCodes.ShowRun | firmware/app/src/qrcode/qr.c:2255-2341 | any run of adds gives a symbol exactly when every item is taken and of its mode; a reader gets all of them in order, and a version left open is the least with room |
| Structured.Cut | firmware/app/src/qrcode/qr.c:1082-1120 | the data are cut exactly when the symbols together have room, into full pieces and a last one that is not empty |
| Structured.RoomDecides | firmware/app/src/qrcode/qr.c:1042-1120 | for data of a mode that can be written, an add succeeds exactly when the remaining symbols have room |
| Structured.QrStructured.Init | firmware/app/src/qrcode/qr.c:125-212 | which parameters are accepted; the upper limit of 16 is held against the mask, not the number of symbols |
| Structured.CountUnbounded | firmware/app/src/qrcode/qr.c:145-150 | every number of symbols from two up is taken, 17 for one |
| Structured.QrStructured.AddDataAs | firmware/app/src/qrcode/qr.c:1042-1175 | every add is answered as its arguments and the room demand; then the pieces in the symbols put together are the message so far and the new data, in as few symbols as there is room in, never more than the bound; each bit of the parity says whether an odd number of bytes of the message have it |
| Structured.ParityMeans | firmware/app/src/qrcode/qr.c:1166-1172 | bit k of the parity is set exactly when an odd number of bytes have bit k set |
| QrCodes.QrCode.PutHeader | firmware/app/src/qrcode/qr.c:2385-2398 | the header goes over the zeros that were left for it, and the payload stays as it is |
| Structured.QrStructured.Finalize | firmware/app/src/qrcode/qr.c:2371-2405 | every symbol is completed with its own index, the last index and the parity of the whole message, and a reader of all the symbols gets the message |
| Structured.PartReads | firmware/app/src/qrcode/qr.c:2371-2405 | a reader of one symbol gets index, last index, parity and exactly the piece of the message that it holds |
| Structured.MessageReads | firmware/app/src/qrcode/qr.c:2371-2405 | a reader that takes the symbols in order, checks index, last index and parity of each, and puts the pieces together gets the message |
| QrPackets.EncodePacket | firmware/app/core/wallet/qr_pack.c:503-565 | the bytes written one after the other are the packet on the wire; empty data give none |
| QrPackets.DecodeOfPacket | firmware/app/core/wallet/qr_pack.c:236-335 | decoding a packet on the wire gives the packet back, for all fields that fit |
| QrPackets.DecodedIsWire | firmware/app/core/wallet/qr_pack.c:236-335 | a packet that is accepted, and begins as a sender writes it, is on the wire what a sender writes, up to what follows it |
| QrPackets.PacketExample | firmware/app/core/wallet/qr_pack.c:503-565 | a packet in one piece, byte for byte |
| QrPackets.DecodedIsChecked | firmware/app/core/wallet/qr_pack.c:236-335 | nothing is accepted of another version or header length, whose data do not match the check code, that is empty, whose index is not below the total, or that contradicts itself on whether more follow; every field comes from its place |
| Fragmentation.Split | firmware/app/core/wallet/qr_pack.c:567-692 | the packets are those of the message, encrypted if asked, in chunks of the average length with the digest last, none larger than allowed |
| Fragmentation.LengthsFit | firmware/app/core/wallet/qr_pack.c:608-616 | the average length is positive and fits in a packet, and all chunks together hold message and digest |
| Fragmentation.TotalIsLeast | firmware/app/core/wallet/qr_pack.c:608-616 | the number of packets is the least that have room for message and digest |
| Fragmentation.JoinedIsMessage | firmware/app/core/wallet/qr_pack.c:625-660 | the chunks put together are message and digest exactly when those before the last end within the message |
| Fragmentation.FewPacketsStayInside | firmware/app/core/wallet/qr_pack.c:608-616 | with n packets, (n-1)^2 + 4n at most the size and 4 is enough for that |
| Fragmentation.SmallPacketsOverrun | firmware/app/core/wallet/qr_pack.c:608-660 | 269 bytes in packets of 32: 15 chunks of 18 bytes run over the end |
| Fragmentation.PacketsFit | firmware/app/core/wallet/qr_pack.c:567-692 | no packet is larger than the caller allowed, and none is empty |
| Reassembly.MergeBuffer.Merge | firmware/app/core/wallet/qr_pack.c:337-425 | codes, collected chunks and the merged packet after any packet, wrong ones included |
| Reassembly.BufferMeans | firmware/app/core/wallet/qr_pack.c:337-425 | after any stream of packets the buffer holds the latest chunk of every index since the header last changed |
| Reassembly.CompletionMeans | firmware/app/core/wallet/qr_pack.c:337-425 | completion is reported exactly when every index has come since the header last changed, with the latest chunks in order |
| Reassembly.ProgressMeans | firmware/app/core/wallet/qr_pack.c:337-425 | the progress that is reported counts the different indices that have come since the header last changed |
| Reassembly.MessageComesBack | firmware/app/core/wallet/qr_pack.c:427-493 | decrypting and checking the chunks put together gives the message when they stay inside it, and otherwise never does |
| ScanSession.CameraManager.OnQrResult | firmware/app/src/device/CameraManager.cpp:69-152 | what one scan does to the session, and what is sent to the user interface |
| ScanSession.PlainCode | firmware/app/src/device/CameraManager.cpp:103-113 | a code that is not a packet is delivered as it is and ends the scanning, unless part of a message of several packets is there; then it is refused with -201 and leaves all as it was |
| ScanSession.PlainIsDelivered | firmware/app/src/device/CameraManager.cpp:42-152 | in any session, a code that is not a packet and is scanned right after a start is the result, byte for byte |
| ScanSession.FailureMeans | firmware/app/src/device/CameraManager.cpp:114-150 | what each code of a failure says of the packet and the keys; no failure ends the scanning |
| ScanSession.CameraManager.StartPreview | firmware/app/src/device/CameraManager.cpp:42-47 | a start forgets everything and switches the scanning on |
| ScanSession.CameraManager.StopPreview | firmware/app/src/device/CameraManager.cpp:53-62 | a stop switches the scanning off and keeps the packet that may still be in use |
| ScanSession.OneResultPerStart | firmware/app/src/device/CameraManager.cpp:42-152 | in any session there are no more results than starts |
| ScanSession.StartBetweenResults | firmware/app/src/device/CameraManager.cpp:42-152 | between two results of any session there is a start |
| ScanSession.ResultIsChecked | firmware/app/src/device/CameraManager.cpp:100-152 | a result has passed the check of its digest, and one from a client was decrypted with that client's key if it came encrypted |
| ScanSession.ResultsAreChecked | firmware/app/src/device/CameraManager.cpp:42-152 | every result of any session carries data that passed the check, whatever was scanned before |
| ScanSession.MessageIsScanned | firmware/app/src/device/CameraManager.cpp:42-152 | scanning the packets of a message after a start, in any order with any repeats, and with any codes that are not packets in between, delivers the message once, with the scan that completes it |
| HashMaps.HashMap.Find | firmware/app/src/utils/map.c:91-104 | the node with the key and the one before it in its chain, or that the map has no such key |
| HashMaps.HashMap.Get | firmware/app/src/utils/map.c:124-138 | the value of the key in the map |
| HashMaps.HashMap.Remove | firmware/app/src/utils/map.c:168-177 | the map without the key, and nothing else |
| HashMaps.HashMap.Resize | firmware/app/src/utils/map.c:55-89 | the same nodes and the same map, whether or not the larger array is granted |
| HashMaps.HashMap.Set | firmware/app/src/utils/map.c:140-166 | the map with the key set; it fails exactly when the table has to grow and gets no memory, and then an old value of another size is gone |
| HashMaps.StaysRoomy | firmware/app/src/utils/map.c:140-166 | below its limit the table never comes to hold more nodes than buckets, and grows only when it is full |
| HashMaps.HashMap.Next | firmware/app/src/utils/map.c:186-200 | one more key behind those visited, until all of them have been |
| HashMaps.HashMap.VisitsEveryKeyOnce | firmware/app/src/utils/map.c:179-200 | a full visit lists every key of the map, each once |
| IniExpand.GetFinalValue | firmware/app/src/utils/ini_parser.c:149-227 | it ends for every source, leaves the source strings as they were, and computes the final value, cycles and the length limit included |
| IniExpand.ReferencesMean | firmware/app/src/utils/ini_parser.c:190-203 | `{:name}` means the name in the section of the key, `{section:name}` that key itself, `{name}` a variable; of a longer key the first 127 characters |
| IniExpand.ShowSection | firmware/app/src/utils/ini_parser.c:149-227 | run on `a:x = {:y}` and `a:y = 1`, the expansion of `a:x` gives 1 |
| IniExpand.FewerClosers | firmware/app/src/utils/ini_parser.c:190-215 | hiding the end of a reference leaves fewer closing braces in sight, which is why the recursion ends |
| IniExpand.FinalSolves | firmware/app/src/utils/ini_parser.c:149-227 | without cycles, and with everything short enough, the final value of a key is its text with every reference replaced by the value of what it refers to |
| IniExpand.SolutionSolves | firmware/app/src/utils/ini_parser.c:149-227 | recursive substitution gives values that satisfy this for all keys at once |
| IniExpand.SolutionIsUnique | firmware/app/src/utils/ini_parser.c:149-227 | there are no other such values |
| IniExpand.IniParserTrans | firmware/app/src/utils/ini_parser.c:321-342 | all keys are put into the target with their final values, in the order in which the map lists them |
| IniExpand.OrderDoesNotMatter | firmware/app/src/utils/ini_parser.c:321-342 | whatever that order is, the target is the one solution, when preset keys are not keys of the source |
| IniExpand.PresetShowsOrder | firmware/app/src/utils/ini_parser.c:321-342 | with a preset key that the source has too, two orders give different values |
| IniOrder.OrderShowsIff | firmware/app/src/utils/ini_parser.c:321-342 | without cycles, and with everything short enough, all orders of the keys give the same target exactly when no key that is not preset refers to one that is, whose text in the source is plain and differs from the preset one |
| MessageQueue.AppMain.PostMessageDelay | firmware/app/src/window/AppMain.cpp:476-549 | a message of any kind goes into the list behind all that are due no later; slots, list and batch stay apart exactly when the kind is not 0 or no slot was free, and otherwise the slot that is taken next is a node of the list |
| MessageQueue.AppMain.TakeNode | firmware/app/src/window/AppMain.cpp:482-496 | the first free slot of the pool, or a new node when there is none |
| MessageQueue.AppMain.DeleteMessage | firmware/app/src/window/AppMain.cpp:551-597 | all queued messages of the kind go, the others stay in order, and every node is given back once |
| MessageQueue.AppMain.Detach | firmware/app/src/window/AppMain.cpp:670-692 | exactly the messages that are due leave the list, in order |
| MessageQueue.NoneDueLeft | firmware/app/src/window/AppMain.cpp:670-692 | of the messages taken off all are due, of those left none is, and nothing changes its order |
| MessageQueue.AppMain.HandleFront | firmware/app/src/window/AppMain.cpp:694-704 | the message at the front is handled if its kind is positive; that it is due is never in doubt |
| MessageQueue.AppMain.ReleaseFront | firmware/app/src/window/AppMain.cpp:705-715 | the node at the front is given back, and the loop goes on with the next |
| MessageQueue.InsertSorted | firmware/app/src/window/AppMain.cpp:526-543 | the list stays sorted by due time, first come first served among equals |
| MessageQueue.RunsAreBalanced | firmware/app/src/window/AppMain.cpp:476-715 | after any run of steps every accepted message is in exactly one place, the lists are sorted, and nothing was handled before it was due |
| MessageQueue.DropsAreDeletions | firmware/app/src/window/AppMain.cpp:551-704 | a message of a positive kind was dropped exactly when some step deleted its kind while it was queued |
| MessageQueue.HandledExactlyOnce | firmware/app/src/window/AppMain.cpp:476-715 | when nothing is left, a message was handled exactly once if and only if it was accepted, is of a positive kind, and was not deleted while it was queued; all others were not handled, and none was before it was due |
| MessageQueue.SlotTakenTwice | firmware/app/src/window/AppMain.cpp:482-489 | a slot just filled is handed out again exactly when the kind put into it is 0 |
| Bitmaps.SymbolToBmp | firmware/app/src/qrcode/qrcnv_bmp.c:98-171 | which parameters are refused, and that the file is the header and the lines, of exactly the declared size |
| Bitmaps.MarginUnbounded | firmware/app/include/qrcode/qrcnv.h:88-94 | every margin from 0 up is taken |
| Bitmaps.PixelShowsModule | firmware/app/src/qrcode/qrcnv_bmp.c:127-171 | a pixel of the file is set exactly when it falls on a black module; margin and padding are light |
| Bitmaps.WriteHeader | firmware/app/src/qrcode/qrcnv_bmp.c:274-332 | the 62 bytes of the header, written field by field |
| Bitmaps.HeaderReads | firmware/app/src/qrcode/qrcnv_bmp.c:274-332 | a little-endian reader finds the sizes of file, header and image, the planes, bits and colours at their places |
| Crcs.TableStep | firmware/app/include/qrcode/crc.h:47-55 | one step through the table is eight steps of one bit |
| Crcs.Crc.Update | firmware/app/include/qrcode/crc.h:44-56 | the running value after a buffer is that of its bits one after the other |
| Crcs.Crc.Sum | firmware/app/include/qrcode/crc.h:59-63 | the checksum starts from all ones and is complemented at the end |
| Crcs.SumOfA | firmware/app/include/qrcode/crc.h:44-63 | the checksum of the one letter a is 0xe8b7be43 |
| Crcs.SerialComposes | firmware/app/include/qrcode/crc.h:44-56 | going on with a second part is the same as both parts at once |
| Crcs.StaysSmall | firmware/app/include/qrcode/crc.h:44-63 | the value stays below 2^32 in a wider word |
| Amounts.Bignum2Double | firmware/app/src/coin/coin_util_hw.c:73-131 | which arguments are refused, and the text of the others, cut to the size of the buffer |
| Amounts.BigEndianJoins | firmware/app/src/coin/coin_util_hw.c:90-95 | of bytes put together those in front count 256 times for each one behind, and a single byte is itself |
| Amounts.Cut | firmware/app/src/coin/coin_util_hw.c:118-131 | what is kept of a text is its beginning: all of it when it fits with its terminator, else one less than the buffer |
| Amounts.PrintedReads | firmware/app/src/coin/coin_util_hw.c:90-131 | the text stands for exactly the amount if and only if its whole part is below 2^64 |
| Amounts.FractionReads | firmware/app/src/coin/coin_util_hw.c:99-113 | the fraction has no zero at its end unless it is a single one |

## Left out

- Kanji data are counted but can never be written, because the lookup in `qr.c:1349-1356` is a stub; the model keeps that.
- Finalizing a symbol that nothing was added to; its cursor was never set.
- Failing allocations, except the one that the hash table handles by itself; a failed one in posting, splitting or buffering is not modelled.
- Widths of C integers, where the values are bounded by the tables or by the size of memory: lengths, indices, times and identifiers are unbounded.
- QrStructured.AddDataAs: adds for which the source would write beyond its table of 16 places are excluded, by the precondition that `StaysInTable` states; a mode that it does not know is refused, but the source has by then read its count width beyond the end of that table, which is not modelled. After an add that failed over its characters only the answer is stated, for the symbol written last is then left as EncodeDataWord leaves it.
- Converting a symbol to text formats, the text and hexadecimal helpers, and images of several symbols at once.
- Extended headers and time flags of packets, packets as text (base64), and the debug output of packets.
- Split: bytes that the source reads behind a message that is cut too long are a parameter; that they can be read at all is a precondition.
- SHA-256 and the cipher are parameters; nothing is said about how hard they are to break.
- Keys of clients come from storage in the source; here they are a parameter of the session.
- The camera itself, its preview thread and the lock: a session is a run of calls, one after the other.
- Characters above 127 in keys of the hash table: the source adds a signed `char` to the hash, the model an unsigned one.
- Copies of keys and values made by the hash table: keys and values are values here, not places in memory.
- GetFinalValue: a value of 255 characters that is taken from the target inside a reference has no terminator in the source; the model reads the 255 characters.
- Reading configuration files, including others, and the syntax of lines.
- What becomes of the queue after a message of kind 0 has taken a slot: PostMessageDelay says that the list is still in order and the slot will be taken again, and the other operations ask for a sound pool.
- The object that a message may carry, waiting for the next due time, and waking the loop up.
- Reading the list without the lock when the loop looks at its head, and releasing slots outside the lock: steps are atomic here.
- The floating point value that `bignum2double` also computes, and big number arithmetic.
- Window system, storage, secure element, update and power code.
