# piJade: a verified model of its hard core

This project models, in Dafny, the parts of the piJade repository whose correctness is not visible from reading one
function, and proves what they promise:

- the DEFLATE engine of `libjade/miniz.c`: the LZ77 parser, in-place Huffman construction and limiting, canonical codes,
  code-length run-length packing, table-driven decoding, overlapping copies and Adler-32 (RFC 1951 and RFC 1950), up
  to the whole round trip with all three kinds of block: the bytes a finished compressor has handed over, in as many
  output buffers as it took, are inflated to exactly its input (`DeflateRoundTrip.InflateUndoesCompress`); the code
  lengths it builds cost no more than any others that fit (`HuffmanLengths.MinimumRedundancy`); and the decoder's
  tables are those of RFC 1951, told in the standard's own arithmetic, down to streams given byte by byte;
- the BBQr collector of `main/bbqr.c`, with the base32 reader of `main/utils/util.c`, and the camera session it shares
  with BC-UR in `main/bcur.c`, from a message, compressed or not, to what the caller is handed, and which code ends a
  scan;
- the persisted settings of `libjade/pijade_settings.c`, with commit, erase and restart in `libjade/nvs_flash.c` and
  `libjade/libjade.c`;
- the descriptor text reader of `main/descriptor_text.c`: checksum, JSON member finder and template walk;
- the BC-UR layer of `main/bcur.c`: QR-set generation, CBOR traversal, and the output descriptor reader against the
  device's own encoder and, multisig included, against the trees and texts it is for.

Code that changes things step by step in the source does so here: classes with the source's fields, arrays written in
place, loops with their invariants. Each such method is tied to a specification function, and what the source promises
is proved about that function. The build modelled is the one in use: unaligned loads are off, so matches are compared
byte by byte and copied three bytes at a time.

## How it is laid out

| files | subject |
|---|---|
| `Bits`, `CanonicalCode`, `InflateTables`, `InflateDecoder`, `InflateSymbols`, `InflateLookup` | canonical codes; the decoder's fast table and overflow tree |
| `RadixSort`, `HuffmanDepth`, `HuffmanLengths`, `HuffmanLimit`, `HuffmanEncoder` | from symbol counts to limited code lengths and codes |
| `HuffmanOptimal`, `HuffmanCost` | why no code lengths cost less than those of merging lightest first |
| `CodeLengthRle` | run-length packing of code lengths, both halves |
| `LzWindow`, `LzCodes`, `LzParser`, `MatchCopy` | the sliding window, the code buffer, the lazy parser, the decoder's copies |
| `BitStream`, `BlockSymbols`, `BlockFormat`, `BlockStored`, `BlockHeader` | fields of bits, symbols with extra bits, stored bytes, and a block as it is sent and read |
| `BlockWriter`, `BlockSender`, `BlockOutlet` | writing a block, in which form it goes out, and where its bytes go |
| `BlockReader`, `DeflateStream`, `DeflateRoundTrip` | the block decoder, whole streams, and from data to bytes to data |
| `DeflateFormat`, `DeflateReading`, `DeflateExamples` | the decoder's tables against RFC 1951, and streams followed byte by byte |
| `Adler32` | the deferred-modulo checksum |
| `Base32`, `BbqrFrames`, `BbqrSpec`, `BbqrCollector`, `BbqrLaws`, `BbqrTransfer`, `BbqrDelivery` | BBQr from one frame to whole transfers and what they deliver |
| `ScanSession`, `ScanRuns` | the camera session, and when it ends |
| `SettingsFields`, `SettingsStore`, `SettingsFormat`, `SettingsBlob`, `SettingsSave`, `SettingsRuns`, `SettingsDevice` | the settings blob and what a restart sees |
| `SettingsLookups`, `SettingsRules` | what a lookup answers after any calls, and which files are taken, in literal numbers |
| `DescriptorPolymod`, `DescriptorChecksum`, `DescriptorChecksumLaws`, `DescriptorCollision`, `DescriptorVector` | the descriptor checksum |
| `JsonFinder`, `JsonLaws` | the JSON member finder |
| `DescriptorKeys`, `DescriptorTokens`, `DescriptorTemplate`, `DescriptorTemplateLaws`, `DescriptorText`, `DescriptorExamples` | the template walk, the whole reader, and texts that show its limits |
| `DescriptorNotations`, `DescriptorLimits` | the notations of keys and child paths in literal text, and which texts there is room for |
| `QrSet` | QR-set generation |
| `CborTree`, `CborMaps`, `CborOutput`, `CborEncode`, `CborLaws`, `CborKeys`, `CborDescriptors` | CBOR traversal, the output reader, the encoder, and what keys and outputs mean as literal text |

`dafny verify dfyconfig.toml` checks everything.

## What is taken as given

- SHA-256 is an arbitrary function from bodies to digests; `bip32_key_init()` and `bip32_key_to_base58()` are an
  arbitrary function of the key material.
- Where the BBQr collector inflates, that is an arbitrary function from a whole compressed message to its output or a
  failure. `BbqrDelivery.InflateRaw` is the function the decompressor modelled here gives, and
  `BbqrDelivery.Received` takes it for that.
- bc-ur's encoder is a stream of parts that is the same after every start; its decoder is an abstract state with a
  success predicate.
- libwally's map keeps one item per key, replaces in place and appends new keys; an arbitrary function says which of its
  calls it carries out.
- tinycbor's iterator is a cursor over tokens with a count of the items left, as section 3 of RFC 8949 lays them out.
- A host that reports failure keeps its old copy; an arbitrary function says which requests it carries out.

## Where a promise needs a condition

- A BBQr frame of another transfer changes nothing exactly when a collection is running or the frame could not have
  started one (`BbqrTransfer.ForeignHarmless`). One that arrives first, on an empty collector, keeps the collector until
  a frame under its own header contradicts a part held and cannot start a collection itself; that is exactly when the
  collector is empty again, and frames of the wanted transfer alone never do it (`BbqrTransfer.Hijacked`).
- A commit that reports success survives a restart exactly when a handler was registered and the map library has room
  for all entries, or, without a handler, when what is loaded of the last saved store is just what would have been
  written (`SettingsRuns.CommitSticks`); a run that loses one is `SettingsRuns.CommitLost`.
- A factory reset that reports success is still in force after a restart exactly when a handler was registered, or
  there was nothing to bring back (`SettingsRuns.ResetSticks`); a run in which the old store comes back is
  `SettingsRuns.ResetUndone`. So a restart sees the last commit or reset made with a handler
  (`SettingsRuns.RestartSees`), and sees it whole exactly when the map library has room for all its entries.
- A finishing compression ends in `Done` once the caller's buffers have taken all the output. The assertion on the output
  buffer at `libjade/miniz.c:742` is modelled as its failure: it can only fail in a flush of a block kept with its own
  code whose bytes have left the window, and never with the fixed code forced (`LzParser.Compressor.FlushBlock`).
- Values are C strings, so substituting them into a template gives the text back exactly when no key holds a NUL
  (`DescriptorTemplateLaws.ExpansionIsText`); such a text is `DescriptorExamples.NulKeyLost`.
- A replaced character in a checksummed descriptor is refused by the reader everywhere but in three places, and what the
  reader does there is stated exactly (`DescriptorText.SubstitutionRefused`). Without its `#` the text counts as one
  that carries no checksum (`DescriptorExamples.HashAccepted`). A blank in place of the first character is skipped, and
  the rest is accepted exactly when it has the same checksum, which happens (`DescriptorExamples.BlankAccepted`). After a
  brace in that place the text counts as JSON and its checksum is not looked at (`DescriptorExamples.BraceAccepted`).
- The device reads back its own output descriptors exactly up to paths of 16 steps (`CborLaws.EncodedOutputReadsBack`).
- The comment at `main/bbqr.h:36-42` says a final part seen first costs a single frame; that holds, and it is why N + 1
  frames are needed and not N.

## Model

| member | source | states |
|---|---|---|
| Adler32.DeferredModulo | libjade/miniz.c:1857-1877 | taking remainders only at the end of a run of bytes gives the sums that section 2.2 of RFC 1950 defines with a remainder after every byte |
| Adler32.PlainBound | libjade/miniz.c:1857-1875 | how large the undivided sums can get over a run of any length |
| Adler32.BlockFits | libjade/miniz.c:1858-1876 | that bound stays below 2^32 for every run of up to 5552 bytes |
| Adler32.AddByte | libjade/miniz.c:1863-1873 | one byte added in 32-bit arithmetic that is shown never to wrap |
| Adler32.AddBlock | libjade/miniz.c:1861-1873 | eight bytes at a time and then the rest one by one sum exactly the block |
| Adler32.Update | libjade/miniz.c:1853-1878 | after one call the checksum is the per-byte definition continued over that call's bytes, for any length |
| Adler32.PerByteSplit | libjade/miniz.c:1857-1878 | the definition over two pieces is the definition over both together |
| Adler32.UpdateAll | libjade/miniz.c:1853-1878 | however the output is split across calls, the final value is the definition over the whole output |
| Adler32.KnownValue | libjade/miniz.c:1853-1878 | the checksum of the nine bytes "Wikipedia" is 0x11E60398 |
| CanonicalCode.PrefixFree | libjade/miniz.c:314-327 | the same wire bits never start with the codes of two different symbols |
| CanonicalCode.PlainDecodesStart | libjade/miniz.c:314-327 | reading bit by bit against the first code of each length finds the symbol whose code starts the bits |
| CanonicalCode.CompleteCovers | libjade/miniz.c:1554-1564 | when the lengths use up the code space, any bits start with some symbol's code |
| InflateTables.SlotsBounded | libjade/miniz.c:1565-1604 | the overflow tree never allocates more nodes than there are symbols (five for a lone code), so it stays inside its array |
| InflateSymbols.ReverseBits | libjade/miniz.c:1570-1572 | the shift loop reverses a code's bits |
| InflateSymbols.CountSizes | libjade/miniz.c:1552-1560 | the counting loops leave the canonical first code of every length, the total and the number of used symbols |
| InflateSymbols.FillFast | libjade/miniz.c:1573-1582 | a short code fills exactly the lookup entries whose low bits are its wire bits, and no other |
| InflateSymbols.InsertLong | libjade/miniz.c:1583-1603 | a long code is threaded into the overflow tree with every table invariant kept |
| InflateSymbols.GateAccepts | libjade/miniz.c:1561-1564 | what passes the size test has a complete code or at most one used symbol |
| InflateSymbols.BuildTables | libjade/miniz.c:1549-1604 | tables are built exactly when the lengths use up 65536 or at most one symbol is used, and then they are the tables of those lengths |
| InflateLookup.HuffDecode | libjade/miniz.c:1355-1387 | on any bits at all, lookup and tree give the symbol whose code starts them and its length, or, when none does, symbol 0 and the bits followed in vain |
| InflateLookup.DecodedIs | libjade/miniz.c:1355-1387 | a symbol whose bit-reversed code starts the bits is the one decoded, by the tables as by plain canonical decoding, and without one the plain decoder finds none |
| InflateLookup.WalkTree | libjade/miniz.c:1372-1378 | the tree walk ends at the first node that links no further, with the symbol whose code ends there or none |
| InflateLookup.CompleteDecodes | libjade/miniz.c:1355-1387 | for lengths of total 65536, whatever bits come, a symbol whose code starts them is decoded, as plain decoding does |
| RadixSort.Scatter | libjade/miniz.c:168-183 | one pass moves every item behind all items with a smaller digit, keeping the order of equal ones |
| RadixSort.RadixSortSyms | libjade/miniz.c:159-190 | the two-pass sort returns the same items sorted by count |
| HuffmanDepth.HeightBound | libjade/miniz.c:193-246 | a tree whose weights total at most 65535 is at most 22 high |
| HuffmanDepth.FullyMerged | libjade/miniz.c:203-222 | merging lightest first makes weights grow with height as the Fibonacci numbers do |
| HuffmanOptimal.MergeBound | libjade/miniz.c:203-222 | what no lengths that fit can cost less than, for some weights with the two lightest merged into one, plus those two, is a bound for the weights themselves |
| HuffmanCost.LowerBound | libjade/miniz.c:203-222 | so no lengths that fit cost less than the sum of all merged weights |
| HuffmanCost.CostFrom | libjade/miniz.c:223-246 | and the lengths handed out along the links cost exactly that sum |
| HuffmanLengths.LinkParents | libjade/miniz.c:203-222 | the first in-place phase leaves, over the counts, parent links that form one tree, and for ordinary counts it merged the two lightest items in every round |
| HuffmanLengths.LinksToDepths | libjade/miniz.c:223-225 | the second phase turns links into depths |
| HuffmanLengths.DepthsToLengths | libjade/miniz.c:226-246 | the third phase hands out leaf lengths whose Kraft sum is exactly one, and every leaf gets one more than the depth of the node that took it |
| HuffmanLengths.MinimumRedundancy | libjade/miniz.c:193-247 | for any sorted counts the in-place pass leaves non-increasing lengths of Kraft sum exactly one; when the counts are ordinary none is above 22, and no code lengths that fit into the code space have a smaller sum of counts times lengths |
| HuffmanLimit.EnforceMaxCodeSize | libjade/miniz.c:253-275 | limiting ends, keeps the number of codes, leaves no negative count and restores a Kraft sum of exactly one at the maximum, whenever 2^max is at least the number of codes |
| HuffmanEncoder.AssignSizes | libjade/miniz.c:307-312 | every used symbol gets a length within the limit and each length is given out as often as counted |
| HuffmanEncoder.AssignCodes | libjade/miniz.c:314-327 | every used symbol gets its canonical code with its bits reversed |
| HuffmanEncoder.LimitedAccepted | libjade/miniz.c:305-327 | the limited lengths pass the decoder's own size test |
| HuffmanEncoder.OptimizeTable | libjade/miniz.c:277-328 | from any counts: lengths within the limit, exactly for the used symbols, complete when there are two or more, and the matching wire codes |
| HuffmanEncoder.GateOpen | libjade/miniz.c:1561-1564 | lengths of a complete code, or of at most one used symbol, pass the size test |
| CodeLengthRle.PackOne | libjade/miniz.c:422-450 | each length extends the packing by itself or by a longer pending run, and a zero run and a repeat run are never held at once |
| CodeLengthRle.FlushRepeats | libjade/miniz.c:348-366 | a held repeat run is written as the lengths it stands for |
| CodeLengthRle.FlushZeros | libjade/miniz.c:368-392 | a held zero run is written as the zeros it stands for |
| CodeLengthRle.PackLengths | libjade/miniz.c:422-456 | packing emits no more entries than lengths, they stand for the lengths and the decoder expands them to the lengths, and the symbol counts are those of the entries |
| CodeLengthRle.ExpandLengths | libjade/miniz.c:1605-1629 | the decoder's loop expands packed entries as section 3.2.7 of RFC 1951 reads them, and refuses the same inputs |
| CodeLengthRle.UnpackItems | libjade/miniz.c:1605-1629 | packed entries are expanded by the decoder to the lengths they stand for, from any entry on |
| LzCodes.CopyIsInput | libjade/miniz.c:853-895 | copying a true repetition, overlap included, reproduces the input |
| LzCodes.CodeBuffer.RecordLiteral | libjade/miniz.c:898-910 | the code buffer then holds one more literal, and its symbol counts are those of what it holds |
| LzCodes.CodeBuffer.RecordMatch | libjade/miniz.c:912-939 | the code buffer then holds one more match, its distance and length kept in three bytes and its symbols counted |
| LzCodes.CodeBuffer.Finish | libjade/miniz.c:677-678 | aligning the open flag byte, or dropping an empty one, leaves exactly the packed form of what was recorded |
| LzWindow.WindowGrows | libjade/miniz.c:961-964 | storing a byte at its slot and in the mirror keeps the window equal to the last 32768 bytes |
| LzWindow.LinkSlot | libjade/miniz.c:868-876 | a 16-bit chain link whose distance is in range names the slot of the byte that far back, across every wrap |
| LzWindow.FindMatch | libjade/miniz.c:853-895 | whatever the hash chains hold, a longer match reported is a true repetition within reach |
| LzParser.Compressor.FillLookahead | libjade/miniz.c:950-990 | input moves into the window in order until the lookahead is full or the source is empty |
| LzParser.Compressor.ChooseMatch | libjade/miniz.c:995-1025 | what is offered after the search and its filters is a true repetition or nothing |
| LzParser.Compressor.ResolveHeld | libjade/miniz.c:1026-1050 | recording a held match, or the saved literal in favour of a longer one, keeps the record exact |
| LzParser.Compressor.StartFresh | libjade/miniz.c:1051-1063 | recording a literal or match, or holding a match back one byte, keeps the record exact |
| LzParser.Compressor.Round | libjade/miniz.c:947-1079 | one turn of the main loop keeps the whole state valid, takes input in order and makes progress |
| LzParser.Compressor.CompressNormal | libjade/miniz.c:941-1084 | the loop ends, keeps the state valid, stops early only when output waits for a buffer that is full, and otherwise takes all the input, and when flushing has parsed all of it |
| LzParser.BlockBytes | libjade/miniz.c:898-939 | the open block stands for the input from where it starts to where the record ends, as many bytes as counted |
| LzParser.FlushFacts | libjade/miniz.c:690-709 | if the 32-bit test puts the block's start within the window, the window holds every byte of the block where the raw write reads it |
| LzParser.Compressor.FlushBlock | libjade/miniz.c:662-780 | the recorded codes go out as one block, in whatever form, so that the blocks sent stand for the whole history; after it the stream is closed exactly on finishing, and a flush ends on a whole byte |
| LzParser.Compressor.FlushIfDue | libjade/miniz.c:1068-1078 | with the code buffer nearly full, or the block long and not shrinking, a block goes out, and there is room for the next turn |
| LzParser.Compressor.Work | libjade/miniz.c:1141-1157 | a call that leaves nothing waiting has taken all its input, and if it flushes, all input ever given has gone into blocks |
| LzParser.Compressor.Compress | libjade/miniz.c:1107-1160 | one call, from any state: input is taken in order and output follows earlier output; room left over means all input was taken; a flush with nothing left waiting, or Done, means the blocks handed over expand to all the input ever given; misuse is refused, for good |
| LzParser.ConsumedExactly | libjade/miniz.c:941-1084 | in every state the parser reaches, the expansion of all records, plus the saved literal if one is held, is exactly the input consumed, and every distance stays inside bytes produced |
| LzParser.NothingPending | libjade/miniz.c:1146-1150 | with an empty lookahead nothing is held back |
| BitStream.BitWriter.PutBits | libjade/miniz.c:330-346 | the bytes and the buffer then hold one more field behind all earlier ones, the buffer stays within 32 bits, and bytes are dropped only once the output is full |
| BitStream.BitWriter.Deliver | libjade/miniz.c:754-777 | the bytes leave the buffer, and what was written so far is still all there, in front of the bits not yet a byte |
| BitStream.BitWriter.Rewind | libjade/miniz.c:694-714 | going back to a saved place gives back exactly the fields held there |
| BitStream.FollowedReads | libjade/miniz.c:1307-1318 | a field in front of any bits is what masking reads, and shifting it out leaves the rest |
| BlockSymbols.LengthReadsBack | libjade/miniz.c:98-116 | for every match length the decoder's base and extra bits at the encoder's symbol give the length back |
| BlockSymbols.DistanceReadsBack | libjade/miniz.c:118-152 | for every distance they give the distance back |
| BlockFormat.SymbolReadsBack | libjade/miniz.c:314-327 | whatever bits follow a symbol's code, the decoder reads that symbol and exactly its code |
| BlockFormat.OpsReadBack | libjade/miniz.c:603-648 | operations sent with any two fitting codes that have their symbols are read back as the same operations, and the bits behind them are left |
| BlockStored.LiteralsExpand | libjade/miniz.c:1459-1497 | literals of some bytes stand for those bytes, whatever came before |
| BlockStored.StoredBack | libjade/miniz.c:1459-1497 | a stored block, with its padding, length and complement, is read back as its bytes whenever a whole number of bytes follows it |
| BlockHeader.HeaderReadsBack | libjade/miniz.c:460-480 | a header is read back as the code lengths it was made of |
| BlockHeader.BlockReadsBack | libjade/miniz.c:651-658 | a dynamic block, header and operations, is read back as those operations, and the bits behind it are left |
| BlockHeader.StaticComplete | libjade/miniz.c:483-500 | the fixed code uses up the code space and all its symbols |
| BlockHeader.StaticReadsBack | libjade/miniz.c:483-503 | so is a block with the fixed code, whatever its operations |
| BlockWriter.PutMatch | libjade/miniz.c:614-636 | a match goes out as its length symbol, distance symbol and the extra bits of both |
| BlockWriter.CompressLzCodes | libjade/miniz.c:603-648 | the loop over the code buffer sends exactly the recorded operations, in order, and the end symbol, and says whether all fitted |
| BlockWriter.CountsCover | libjade/miniz.c:909-938 | every symbol an operation needs has been counted |
| BlockWriter.PackedLong | libjade/miniz.c:898-939 | a full code buffer holds few enough operations for 16-bit counts |
| BlockWriter.TrimCodes | libjade/miniz.c:407-412 | dropping unused symbols at the end changes no code and not what the decoder's size test says |
| BlockWriter.LastUsed | libjade/miniz.c:407-412 | the search from above stops at the last used symbol or the least number sent |
| BlockWriter.PutLengths | libjade/miniz.c:465-472 | the lengths of the code for lengths go out in their own order, without the unused ones at the end |
| BlockWriter.PutItems | libjade/miniz.c:474-480 | the packed lengths go out as symbols and extra bits |
| BlockWriter.StartDynamicBlock | libjade/miniz.c:396-481 | from any symbol counts: a well-formed header goes out, and the codes returned are those it describes, for exactly the counted symbols and the end symbol |
| BlockWriter.CompressDynamic | libjade/miniz.c:651-658 | what was recorded, counted and packed goes out as one dynamic block |
| BlockWriter.CompressStatic | libjade/miniz.c:483-503 | or as one block with the fixed code |
| BlockReader.InflateLengths | libjade/miniz.c:1531-1536 | the loop reads the lengths of the code for lengths as `DeflateFormat.HeaderPlaces` places them |
| BlockReader.InflateRuns | libjade/miniz.c:1607-1631 | the loop expands runs as it reads them, and fails where the format says so |
| BlockReader.InflateMatch | libjade/miniz.c:1720-1737 | a match is read from its symbols and extra bits |
| BlockReader.InflateOps | libjade/miniz.c:1635-1737 | on any input, the main loop reads the operations up to the end symbol, or fails |
| BlockReader.InflateSizes | libjade/miniz.c:1531-1634 | on any input, the codes of a dynamic block are read and their tables built, or it is refused |
| BlockReader.InflateStored | libjade/miniz.c:1459-1497 | on any input, a stored block is read from the next byte boundary, or refused when length and complement disagree or bytes or room run out |
| BlockReader.InflateBlock | libjade/miniz.c:1457-1737 | on any input, one block of any of the three kinds is read, or refused |
| BlockSender.StaticFits | libjade/miniz.c:711-716 | however full the code buffer, the block with the fixed code takes less than the output buffer |
| BlockSender.PutStored | libjade/miniz.c:696-709 | bytes out of the window go out as a stored block at a byte boundary, the window's end crossed where needed |
| BlockSender.TryBlock | libjade/miniz.c:686-687 | the recorded codes go out with a code of their own or the fixed one; the answer is whether all fitted, and with the fixed one they do |
| BlockSender.StoreInstead | libjade/miniz.c:689-710 | whatever was tried is undone and the bytes go out as they are |
| BlockSender.FixedInstead | libjade/miniz.c:711-716 | whatever was tried is undone and the block goes out with the fixed code |
| BlockSender.SendBlock | libjade/miniz.c:684-716 | whatever the block, one form of it goes out whole behind the final bit: stored when asked for, with the fixed code or stored when small, and, when its bytes are in the window, either stored or shorter than they are |
| BlockSender.PutMarker | libjade/miniz.c:727-739 | a flush in between adds exactly an empty stored block and ends on a whole byte |
| BlockSender.EndFlush | libjade/miniz.c:718-740 | a finished stream is padded to a whole byte, and a call without flush adds nothing |
| BlockOutlet.SameFront | libjade/miniz.c:853-895 | operations after others that gave the same bytes mean the same, matches across the block boundary included |
| BlockOutlet.StandsNext | libjade/miniz.c:684-716 | a block more, coded or stored, and the blocks still stand for what was flushed |
| BlockOutlet.Outlet.FlushOutput | libjade/miniz.c:1086-1105 | as much of the waiting output as fits is handed over, and the rest waits in order |
| BlockOutlet.Outlet.HandOut | libjade/miniz.c:754-777 | the bytes of a block follow all earlier ones, in the caller's buffer as far as it has room and waiting from there on |
| BlockOutlet.Outlet.Flush | libjade/miniz.c:662-780 | everything given to the caller or waiting for him is the stream of the blocks sent, and they stand for what was flushed; an overrun of the buffer is possible only as stated |
| DeflateStream.InflateStream | libjade/miniz.c:1453-1804 | on any input, blocks are read up to the one marked final, or the stream is refused |
| DeflateStream.StreamReadsBack | libjade/miniz.c:1453-1804 | any blocks, in any mixture of the three kinds, are read back as all their operations, and the bits behind the stream are left |
| DeflateStream.Inflate | libjade/miniz.c:1453-1804 | the decompressor succeeds exactly when the stream reads, its distances reach and its bytes fit, and then the output is those bytes; `DeflateFormat` and `DeflateExamples` say which bits read as what |
| DeflateFormat.HeaderPlaces | libjade/miniz.c:1531-1536 | on any input, length k of the code for lengths is the three bits at three times its place, 3 for 0, 19 - 2k for 1 to 7, 2k - 12 for 8 to 15, k - 16 above (section 3.2.7 of RFC 1951), and zero if that is not sent; the header is refused exactly when the bits run out |
| DeflateFormat.LengthTable | libjade/miniz.c:1401-1402 | the decoder's base and extra bits of every length symbol are those of section 3.2.5 of RFC 1951 as arithmetic |
| DeflateFormat.DistanceTable | libjade/miniz.c:1403-1404 | and so are those of every distance symbol |
| DeflateFormat.LengthSymbol | libjade/miniz.c:1720-1727 | on any input a length symbol stands for its base plus its extra bits, or is refused when they run out |
| DeflateFormat.DistanceSymbol | libjade/miniz.c:1729-1737 | and so does a distance symbol |
| DeflateFormat.FixedCode | libjade/miniz.c:1507-1520 | the fixed code's lengths and codes are the four ranges of section 3.2.6 of RFC 1951 |
| DeflateFormat.FixedDistanceCode | libjade/miniz.c:1507-1520 | and its distance symbols are their own five-bit numbers |
| DeflateExamples.DynamicStream | libjade/miniz.c:1453-1804 | a dynamic block of 25 bytes as zlib writes it reads as the operations whose expansion is its 39-character text, in any room that is enough |
| DeflateExamples.FlushedStream | libjade/miniz.c:1453-1804 | a block with the fixed code, the empty stored block of a flush and a last fixed block, 11 bytes, read as "abc" |
| DeflateExamples.StoredStream | libjade/miniz.c:1459-1497 | the byte 1, any two bytes of length, any two of complement and that many content bytes read as those bytes exactly when each pair of length and complement bytes adds up to 255, and are refused otherwise |
| DeflateRoundTrip.StreamRoom | libjade/miniz.c:1453-1804 | a stream that reads within some room reads the same with more, and stays within the room it had |
| DeflateRoundTrip.InflateUndoesCompress | libjade/miniz.c:1107-1160 | from any state a compressor reaches, once it says Done the bytes handed over in all its calls read as exactly the input of all its calls, with less than a byte left over |
| DeflateRoundTrip.TooSmall | libjade/miniz.c:1453-1804 | and never when the room is less than that input |
| DeflateRoundTrip.RoundTrip | main/process/debug_scan_qr.c:17-41 | a new compressor with any flags, one finishing call, and the decompressor: when the first says Done the data comes back exactly if it fits; it stops short only with the output buffer full, and never fails with the fixed code forced |
| MatchCopy.CopyRun | libjade/miniz.c:1739-1801 | the three-at-a-time copy, and the byte loop at the end of the buffer, leave what a byte-at-a-time copy leaves, however far the source overlaps |
| MatchCopy.RunOps | libjade/miniz.c:1739-1801 | decoded operations run to the end exactly when every distance is in reach and the output fits, and then the output is their expansion |
| MatchCopy.SoundInReach | libjade/miniz.c:1739-1743 | what the encoder records is never refused by the decoder's distance check |
| Base32.Base32ToBin | main/utils/util.c:115-150 | on any input at all the 32-bit accumulator writes the whole bytes of the digits before padding or NUL, or nothing on a bad character or overflow |
| Base32.EncodeDecodes | main/utils/util.c:115-150 | what section 6 of RFC 4648 writes without padding is read back as the same bytes |
| BbqrFrames.ParseBase36Pair | main/bbqr.c:73-94 | two base36 digits are read as their value, anything else is refused |
| BbqrFrames.CheckBase32 | main/bbqr.c:112-135 | accepted exactly when all characters are strict base32 and the length can complete bytes |
| BbqrFrames.DecodeFramePayload | main/bbqr.c:140-172 | the bytes written are those of the payload's encoding, none for anything malformed or too long |
| BbqrFrames.ReadHeader | main/bbqr.c:225-242 | the header fields, or a refusal, by the format's rules |
| BbqrFrames.FrameReadsBack | main/bbqr.c:225-258 | every frame an encoder may send is parsed back to itself |
| BbqrLaws.AcceptedForm | main/bbqr.c:225-258 | every text that is taken starts with B$, one of H, 2 and Z and a known file type, and has the length, characters and block size of a frame an encoder may send |
| BbqrLaws.Base36Alphabet | main/bbqr.c:73-94 | the base36 digits are 0 to 9 and A to Z in that order |
| BbqrLaws.Base32Alphabet | main/bbqr.c:112-135 | the base32 digits are A to Z and 2 to 7 in that order |
| BbqrLaws.HexAlphabet | main/bbqr.c:140-156 | the hexadecimal digits are taken in either case |
| BbqrLaws.Base32Frame | main/bbqr.c:220-258 | B$2U0100MFRGG is "abc", whole, of type U |
| BbqrLaws.HexFrame | main/bbqr.c:220-258 | B$HP0B01dEadBEef is the second of eleven parts of type P, four bytes |
| BbqrSpec.RunSound | main/bbqr.c:220-321 | after any frames at all the collection is within its bounds: one block per part, within the ceiling, only the last part short |
| BbqrSpec.Provenance | main/bbqr.c:220-321 | after any frames at all the parts held are exactly those of the frames accepted since the last restart, one frame each, all under one header |
| BbqrSpec.EachPartOnce | main/bbqr.c:302-320 | in a complete collection every index was accepted exactly once |
| BbqrSpec.FullHasAll | main/bbqr.c:320 | as many parts as announced means every part from the first to the last |
| BbqrLaws.AnswerTells | main/bbqr.c:220-321 | after any frames, a frame is refused exactly when its part is not held afterwards under its header, and completes exactly when all announced parts are |
| BbqrLaws.FirstFrame | main/bbqr.c:273-299 | a frame on its own opens a collection with its part and block length, exactly when it is not the last of several and its length times the parts is within 410624; otherwise nothing happens |
| BbqrLaws.NextFrame | main/bbqr.c:244-320 | what any frame does to a running collection: nothing, a restart on contradiction, or its part added, with the exact conditions, in terms of the frame alone |
| BbqrCollector.MarkBit | main/bbqr.c:32-37 | setting one bit of the bitmap changes the answer for that part only |
| BbqrCollector.PlacePart | main/bbqr.c:302-318 | writing a part inside its block leaves every other part in place |
| BbqrCollector.GridWhole | main/bbqr.c:337-349 | the assembled buffer up to the final part's end is the parts in order |
| BbqrCollector.Collector.Collect | main/bbqr.c:220-321 | one frame does to bitmap, buffer and counters what the map of parts says, and gives its answer; every write is inside the buffer |
| BbqrCollector.Collector.SamePart | main/bbqr.c:260-265 | a repeat is recognised exactly when it is the held part byte for byte |
| BbqrCollector.Collector.Reset | main/bbqr.c:40-69 | everything but the scratch buffer is dropped |
| BbqrCollector.Collector.Finalise | main/bbqr.c:323-355 | an incomplete transfer yields nothing; a complete one of encoding H or 2 yields exactly the parts in index order with the file type, and one of encoding Z what inflation makes of them, or nothing when that fails; the same on every call |
| BbqrTransfer.TakeOwn | main/bbqr.c:260-320 | a genuine frame adds its part and never restarts; it is refused only if it is the last part and comes first |
| BbqrTransfer.CycleGathers | main/bbqr.c:244-320 | after any stretch of the cycle the collector holds exactly the parts gathered, so nothing was restarted |
| BbqrTransfer.CycleGathersAll | main/bbqr.c:273-278 | N + 1 frames from any point of the cycle gather all N parts |
| BbqrTransfer.ForeignHarmless | main/bbqr.c:244-247 | a frame with another header leaves the collector alone exactly when a collection is running or it could not start one |
| BbqrTransfer.Hijacked | main/bbqr.c:273-299 | a foreign frame that starts a collection first keeps the collector until a frame under its header contradicts a part held and cannot start one itself, and that is exactly when the collector is empty again |
| BbqrTransfer.InterleavingInvisible | main/bbqr.c:244-247 | frames of other transfers mixed in anywhere after the first own part change nothing |
| BbqrTransfer.TransferCompletes | main/bbqr.c:244-320 | N + 1 consecutive frames with others mixed in always complete: one of them is answered by COMPLETE, and every part is in its place |
| BbqrTransfer.MessageArrives | main/bbqr.c:220-349 | a message cut into blocks, written as frames and scanned from any point of the cycle is answered by COMPLETE within N + 1 frames and comes out whole |
| BbqrDelivery.Deliver | main/bbqr.c:220-355 | a message cut into blocks, scanned from any point of the cycle and finished: for H and 2 the caller is handed exactly the message and its file type, for Z what inflation makes of the message with the file type, and nothing when that fails |
| BbqrDelivery.InflatesBack | main/bbqr.c:178-213 | what a finished compressor has handed over inflates to exactly its input, unless that is empty or above 410624 bytes |
| BbqrDelivery.Received | main/bbqr.c:220-355 | from data through the compressor, Z frames, the camera and the end of the transfer back to the data and file type, whenever there is data and it is within the ceiling |
| ScanSession.Session.Collect | main/bcur.c:1262-1342 | one decoded QR code goes to the right collector and ends the scan exactly when the step says so; `ScanRuns.EndsExactly` says when that is |
| ScanSession.NeverBoth | main/bcur.c:1272-1297 | whatever the camera sees, at most one of BBQr and BC-UR is partly collected |
| ScanSession.EndsWhole | main/bcur.c:1291-1297 | once a BBQr transfer has begun only its completion ends the scan |
| ScanRuns.StateIsHeard | main/bcur.c:1262-1342 | whatever the camera sees, the state is that of the BBQr collector after the frames it heard and of the decoder after the parts it heard, each only while the other has nothing |
| ScanRuns.EndsExactly | main/bcur.c:1262-1342 | after any codes a code ends the scan exactly if it is a BBQr frame that is taken and leaves no part missing, or, with no BBQr collection running, a part after which the decoder has succeeded, or a code of neither kind |
| ScanRuns.PartsEnd | main/bcur.c:1305-1341 | of a run of BC-UR parts that pass the gate exactly that one ends the scan after which the decoder, fed all of them and started blank after failures, has succeeded; one that does not pass the gate never does |
| ScanRuns.OthersEnd | main/bcur.c:1272-1303 | a code of neither kind ends the scan exactly when no BBQr collection is running |
| ScanRuns.Watch | main/bcur.c:1344-1380 | handing codes over one by one stops at the first that ends the scan, and at none before |
| SettingsFields.FindField | libjade/pijade_settings.c:122-132 | a key is found exactly when a kept field has that name, and the index is that field's |
| SettingsFields.UserEntryValid | libjade/pijade_settings.c:134-159 | the registration rules: namespace, printable key, length bounds and cipher-block multiple |
| SettingsFormat.ParsePrint | libjade/pijade_settings.c:217-246 | printed entries are parsed back |
| SettingsFormat.PrintParse | libjade/pijade_settings.c:282-298 | only what is printed parses: the framing is unambiguous |
| SettingsBlob.ReadFrame | libjade/pijade_settings.c:282-298 | one entry's framing read byte by byte without passing the end |
| SettingsBlob.CheckField | libjade/pijade_settings.c:300-332 | a default-namespace entry passes exactly when its field, width, terminator, replay counter and network type are right |
| SettingsBlob.WalkEntries | libjade/pijade_settings.c:271-358 | the validating walk accepts exactly the well-formed bodies within all rules; the storing walk on one of those stores its entries up to the first the map library does not carry out, and fails exactly then |
| SettingsRules.OneEntry | libjade/pijade_settings.c:268-358 | a body of one entry is taken exactly when the entry keeps the rules and is not one of the two paired URLs |
| SettingsRules.OneRegistration | libjade/pijade_settings.c:134-159 | the rules of each registration kind in literal bounds: 114 to 3281, 41 to 3281, 32 to 288 in blocks of 16, and 8 bytes, under names of 1 to 15 visible characters |
| SettingsRules.OneField | libjade/pijade_settings.c:300-332 | a single field is taken exactly when its value is one that field may have |
| SettingsRules.ReplayCounter | libjade/pijade_settings.c:300-332 | the replay counter is four bytes that are not all 255 |
| SettingsRules.NetworkType | libjade/pijade_settings.c:300-332 | the network type is 0, 1 or 2 in four bytes, lowest first |
| SettingsRules.WalletFields | libjade/pijade_settings.c:60-120 | literal widths of the wallet's blob, keys and server certificate |
| SettingsRules.WalletNames | libjade/pijade_settings.c:60-120 | and the literal names those fields have |
| SettingsRules.FileLimits | libjade/pijade_settings.c:334-357 | no file with more than sixteen registrations of one kind, or with one of the two URLs only, is taken |
| SettingsRules.WholeFile | libjade/pijade_settings.c:173-263 | the file of a store with only the display flags set, byte for byte |
| SettingsSave.SizeStore | libjade/pijade_settings.c:181-208 | the sizing pass gives exactly the length of what is to be written, or refuses a store that may not be |
| SettingsSave.WriteFields | libjade/pijade_settings.c:216-231 | the writing pass over fields stays inside the sized buffer and writes the entries in order |
| SettingsSave.WriteRecords | libjade/pijade_settings.c:233-247 | so does the pass over registrations, ending exactly at the buffer's end |
| SettingsSave.Serialize | libjade/pijade_settings.c:173-263 | a blob is returned exactly for the stores the loader's rules accept, and it is that store's blob |
| SettingsSave.Deserialize | libjade/pijade_settings.c:360-381 | a blob refused for framing, digest or content leaves all maps unchanged and asks the map library for nothing; any other is stored, and fails exactly when the map library does |
| SettingsRuns.FieldsLookup | libjade/pijade_settings.c:217-223 | a restored default namespace answers the listed fields set within their widths, and nothing else |
| SettingsRuns.SavedLoads | libjade/pijade_settings.c:173-263 | every serialized blob is loadable, and into empty maps restores the kept fields and all registrations |
| SettingsRuns.BlobNotEmpty | libjade/daemon.c:374-377 | a commit's blob is never empty, so it is never taken for an erase |
| SettingsRuns.SlotIsLastSaved | libjade/libjade.c:767-796 | after any run the host's copy is the blob of the last saved store, or nothing |
| SettingsRuns.RestartSees | libjade/nvs_flash.c:258-291 | after any run a restart loads the persistable part of the store as of the last commit that succeeded with a handler, or nothing after a later reset with one; it comes back whole exactly when there is room for all entries |
| SettingsRuns.LoadsWhole | libjade/pijade_settings.c:344-348 | loading the entries in front of a failure never gives the whole store |
| SettingsRuns.LoadsExactly | libjade/pijade_settings.c:344-348 | a load gives the persistable part of a store exactly when the entries read are those that would be written for it |
| SettingsRuns.CommitSticks | libjade/libjade.c:767-786 | a successful commit survives a restart exactly when a handler was there and all entries have room, or, without one, when what is loaded of the last saved store is what would have been written |
| SettingsRuns.CommitLost | libjade/libjade.c:767-786 | a run that loses a commit reported successful |
| SettingsRuns.ResetSticks | libjade/libjade.c:790-796 | a successful reset is still in force after a restart exactly when a handler was there or there was nothing to bring back |
| SettingsRuns.ResetUndone | libjade/libjade.c:790-796 | a run in which a reset reports success and the old store comes back |
| SettingsStore.ReplaceDistinct | libjade/nvs_flash.c:155-159 | replacing keeps one item per key and adds at most the new key |
| SettingsStore.RemoveLooksUp | libjade/nvs_flash.c:199-205 | after a removal that key is gone and every other answers as before |
| SettingsLookups.WriteAnswers | libjade/nvs_flash.c:155-159 | after any calls and then a write, the key answers the value if it was carried out, and every other key and namespace, or all of them if not, as before |
| SettingsLookups.EraseAnswers | libjade/nvs_flash.c:199-205 | after any calls and then a removal, the key answers nothing if it was carried out, and every other key and namespace, or all of them if not, as before |
| SettingsLookups.ResetAnswers | libjade/nvs_flash.c:258-269 | after a factory reset nothing answers, whatever the host said |
| SettingsLookups.OthersAnswer | libjade/nvs_flash.c:283-291 | a commit and a change of handler change no answer |
| SettingsLookups.HandlerIs | libjade/libjade.c:756-796 | a handler is there exactly if one was set last since the last restart |
| SettingsLookups.PersistableAnswers | libjade/pijade_settings.c:217-246 | of the default namespace the listed fields within their widths persist, of the others everything |
| SettingsLookups.CommittedAnswers | libjade/nvs_flash.c:283-291 | after a commit with a handler and a restart with room, every key answers as before if its value persists, and nothing otherwise |
| SettingsLookups.EraseLasts | libjade/nvs_flash.c:199-205 | a removal, committed and restarted, is gone for good and leaves all else that persists |
| SettingsLookups.WriteLasts | libjade/nvs_flash.c:155-159 | a write, committed and restarted, is there with its value if it persists, and so is all else that persists |
| SettingsDevice.Firmware.SetBlob | libjade/nvs_flash.c:155-159 | a write is one step of the run model and succeeds as the map library does |
| SettingsDevice.Firmware.EraseKey | libjade/nvs_flash.c:199-205 | a removal is one step of the run model and succeeds as the map library does; `SettingsLookups.EraseAnswers` says what it leaves |
| SettingsDevice.Firmware.Commit | libjade/nvs_flash.c:283-291 | a commit is one step of the run model with the host's answer, success included |
| SettingsDevice.Firmware.FlashErase | libjade/nvs_flash.c:258-269 | a factory reset clears all five maps and reports what the host said |
| SettingsDevice.Firmware.Restart | libjade/libjade.c:756-759 | a restart loads the host's copy as far as the map library has room, or nothing if it is refused |
| DescriptorPolymod.StepLinear | main/descriptor_text.c:27-39 | the remainder step is linear over GF(2) |
| DescriptorPolymod.StepInjective | main/descriptor_text.c:27-39 | the step can be undone: different states stay different |
| DescriptorPolymod.PolymodStep | main/descriptor_text.c:27-39 | the five conditional additions are the step |
| DescriptorChecksum.ChecksumValid | main/descriptor_text.c:41-76 | accepted exactly when all characters are in the alphabet and the checksum is the computed one |
| DescriptorChecksum.RestExpands | main/descriptor_text.c:46-65 | grouping as the loop goes gives the symbol expansion of BIP 380 |
| DescriptorChecksumLaws.ComputeIsCheck | main/descriptor_text.c:41-76 | computing and comparing accepts exactly when the check form of BIP 380 (section "Checksum") ends in 1 |
| DescriptorChecksumLaws.TextSubstitution | main/descriptor_text.c:41-76 | replacing any one character of a correctly checksummed text by another of the alphabet always fails, for every length |
| DescriptorChecksumLaws.ChecksumSubstitution | main/descriptor_text.c:69-75 | so does replacing one character of the checksum |
| DescriptorVector.VectorHolds | main/descriptor_text.c:41-76 | raw(deadbeef)#89f8spxm, the vector of BIP 380, is valid |
| DescriptorVector.ChecksumAlphabet | main/descriptor_text.c:41-50 | the checksum's letters are those of BIP 173, row by row |
| DescriptorVector.InputAlphabet | main/descriptor_text.c:43-45 | the characters between the alphabet's letters and digits are those of BIP 380 |
| DescriptorText.SubstitutionRefused | main/descriptor_text.c:412-446 | through the whole reader, a replaced character of a checksummed descriptor is refused unless it is the '#' or a first character made a blank or a brace, and in those cases this is exactly what the reader says |
| DescriptorText.CheckRefuses | main/descriptor_text.c:434-446 | at the checksum stage a replaced character is refused exactly when it is not the '#' |
| DescriptorText.GetQuiet | main/descriptor_text.c:160-226 | a checksum behind a JSON export changes nothing in what the member finder returns |
| DescriptorCollision.SameChecksum | main/descriptor_text.c:41-76 | a wsh() descriptor and the sh() descriptor left without its first character can have the same checksum |
| DescriptorExamples.BlankAccepted | main/descriptor_text.c:412-446 | a checksummed descriptor whose first character became a blank, accepted as another descriptor |
| DescriptorExamples.HashAccepted | main/descriptor_text.c:438-446 | one whose '#' became a letter, accepted with the checksum as part of the template |
| DescriptorExamples.BraceAccepted | main/descriptor_text.c:412-428 | one whose first character became a brace, accepted as the export it then looks like |
| DescriptorText.ParseText | main/descriptor_text.c:391-515 | unwrapping, trimming, checking, stripping and walking in that order, with each error |
| JsonFinder.SkipValueAt | main/descriptor_text.c:127-156 | the iterative skipper stops where the nesting-aware reading stops |
| JsonFinder.JsonGetString | main/descriptor_text.c:160-226 | the finder's loops do what the functional reading of the text does |
| JsonLaws.WholeSkipped | main/descriptor_text.c:127-156 | the skipper stops right after any string or container, whatever nests in it |
| JsonLaws.ScalarSkipped | main/descriptor_text.c:127-156 | after a scalar it stops at the next delimiter |
| JsonLaws.FinderIsRight | main/descriptor_text.c:160-226 | for every well-formed object the answer is the unescaped string of the first top-level member with that name, ignoring case, never a nested one |
| JsonLaws.NamesMatch | main/descriptor_text.c:181 | names are the same exactly when they are as long and equal letter by letter but for capitals |
| JsonLaws.EscapesAre | main/descriptor_text.c:208-216 | the quote, the backslash and the slash may be escaped and stand for themselves, and nothing else may |
| JsonLaws.SpacesAre | main/descriptor_text.c:78-84 | blanks are the six characters of isspace() in the C locale |
| DescriptorKeys.CanonicalChild | main/descriptor_text.c:231-275 | the child path reader accepts exactly the two notations and the wildcard pair, with unhardened branches |
| DescriptorKeys.ChildStable | main/descriptor_text.c:231-275 | the canonical child path is its own canonical form |
| DescriptorKeys.DecReads | main/descriptor_text.c:253-265 | a printed number is read back |
| DescriptorNotations.BranchesTaken | main/descriptor_text.c:231-275 | /{a,b}/* and /<a;b>/* of the same decimal numbers are both taken, as the literal text /<a;b>/* with a first and b second, exactly when both are at most 0x7fffffff |
| DescriptorNotations.WildcardTaken | main/descriptor_text.c:231-240 | /** is taken as /<0;1>/* |
| DescriptorNotations.OnlyBranches | main/descriptor_text.c:231-275 | and nothing else is taken as a child path |
| DescriptorTokens.CanonicalKeyAt | main/descriptor_text.c:280-346 | the copying loops give a key's canonical value and child, or its error |
| DescriptorTokens.KeyStable | main/descriptor_text.c:280-346 | a canonical key is its own canonical form |
| DescriptorNotations.KeyTaken | main/descriptor_text.c:280-346 | a key with an origin is taken as its fingerprint in small letters, its path with h for hardened steps, its body and its child path's one form, exactly when it has at most 159 characters in front of a child path that is taken |
| DescriptorNotations.OriginRequired | main/descriptor_text.c:280-290 | a key without an origin is refused as unsupported |
| DescriptorNotations.ExportedKey | main/descriptor_text.c:280-346 | a wallet's export with capital letters, apostrophes and curly branches, and what it is read as |
| DescriptorTokens.TokenEndAt | main/descriptor_text.c:349-362 | a token ends at the first separator outside groups |
| DescriptorTokens.KeyEndsThere | main/descriptor_text.c:349-362 | in front of the same text a canonical key ends where the original ended |
| DescriptorTemplate.WalkText | main/descriptor_text.c:461-511 | the walk's loop, index reuse and limits are the functional walk |
| DescriptorTemplate.WalkIsFill | main/descriptor_text.c:461-511 | the template depends on the text only through its canonical pieces |
| DescriptorTemplateLaws.ExpansionIsText | main/descriptor_text.c:461-511 | for text without '@', substituting the values gives the text back with every key canonical, exactly when no key holds a NUL |
| DescriptorTemplateLaws.ExpansionWalksBack | main/descriptor_text.c:461-511 | walking that expansion yields the same template and values |
| DescriptorExamples.NulKeyLost | main/descriptor_text.c:473-493 | a text with a NUL in a key that the reader accepts, with a template and values that do not give it back |
| DescriptorTemplateLaws.NumberedByFirstAppearance | main/descriptor_text.c:473-493 | values are pairwise distinct, at most 15, and numbered in the order their keys first appear |
| DescriptorLimits.WalkExactly | main/descriptor_text.c:461-511 | a text with keys in order gets a template exactly if it has at most fifteen different values and 511 characters of template, and then it is that of these values and pieces |
| DescriptorLimits.KeylessRefused | main/descriptor_text.c:461-515 | a text without a key is refused |
| DescriptorLimits.NothingToRead | main/descriptor_text.c:412-434 | blanks only, and an export without a descriptor, are refused as invalid |
| DescriptorLimits.StripIs | main/descriptor_text.c:447-458 | stripping takes out the blanks and nothing else |
| DescriptorLimits.TrimIs | main/descriptor_text.c:432-437 | trimming takes the blanks off the end and nothing else |
| DescriptorLimits.ChecksumLength | main/descriptor_text.c:438-446 | exactly eight characters follow the first #, or the text is refused |
| DescriptorExamples.BareKeyRefused | main/descriptor_text.c:473-493 | a text in which a bare xpub or tpub opens a token is refused as unsupported |
| QrSet.Generator.Filtered | main/bcur.c:1557-1634 | the filtering attempt succeeds exactly when some worthy set lies within the pull cap, and then shows all kept parts so far, with margin unless a cap was hit |
| QrSet.Generator.Plain | main/bcur.c:1572-1625 | the plain loop shows exactly the first parts of a freshly started encoder |
| QrSet.Generator.Create | main/bcur.c:1546-1660 | one of two outcomes: a filtered, sized and verified set, or exactly the plain set; at most 2000 + num_fragments pulls and no overrun |
| QrSet.KeptGrows | main/bcur.c:1584-1588 | pulling on never changes the parts already kept |
| CborTree.AdvanceOverValue | main/bcur.c:475-483 | the loop over tags is the whole step |
| CborTree.OverWholeItem | main/bcur.c:475-483 | over any item tree, stepping over a value consumes exactly one whole item, tag chains of any length included |
| CborTree.PlainAdvance | main/bcur.c:469-483 | the library's own step does so except on tagged values, where it takes one tag (section 3.4 of RFC 8949) |
| CborTree.MapKeysAreUniqueUints | main/bcur.c:493-518 | the bitmask loop accepts exactly the cursors at maps of plain unsigned keys with none below 64 twice |
| CborTree.MapFindUintKey | main/bcur.c:521-546 | the search loop is the functional search |
| CborMaps.CheckedMap | main/bcur.c:493-518 | over a map's item tree, the key check passes exactly when its keys are unique unsigned integers below 64 |
| CborMaps.UniqueKeys | main/bcur.c:493-518 | the bitmask over the keys passes exactly when they are unsigned integers with none below 64 twice |
| CborMaps.LookupIsOnly | main/bcur.c:521-546 | in a checked map the lookup of a key below 64 succeeds exactly when there is an entry, and stands at its only value |
| CborMaps.OrderIrrelevant | main/bcur.c:493-546 | two checked maps with the same entries answer alike, whatever the order |
| CborOutput.OriginComponentsToPath | main/bcur.c:559-592 | the origin loop gives path text, count and last child, or a refusal |
| CborOutput.HdkeyToText | main/bcur.c:643-782 | the key reader's steps give the text or error its parts determine |
| CborOutput.ParseCryptoOutput | main/bcur.c:795-899 | the descriptor reader's appends, key loop and closing loop give the text or error that `CborDescriptors` states outright |
| CborLaws.OutputBalanced | main/bcur.c:795-899 | every accepted descriptor, multisig included, closes exactly the brackets it opens |
| CborKeys.KeyReads | main/bcur.c:643-782 | a key of any item tree that says so, its map's entries in any order, tags and optional parts present or not, reads as [fingerprint/path]xpub/<a;b>/* in literal text, if that fits, with the extended key rebuilt from exactly its depth, child number, parent, chain code, key and network |
| CborKeys.KeyRefused | main/bcur.c:643-690 | a private key and one of another coin are refused |
| CborDescriptors.KeysRead | main/bcur.c:845-880 | the keys of a multisig are read in array order, each after a comma |
| CborDescriptors.MultisigReads | main/bcur.c:795-899 | wsh() and sh(wsh()) over tag 406 and 407, any threshold and any number of keys: exactly the literal text with multi( for 406 and sortedmulti( for 407, the threshold, the keys in order and the closers, or exactly which refusal |
| CborDescriptors.SingleReads | main/bcur.c:795-899 | pkh(), wpkh() and either inside sh(), as literal text around the key |
| CborDescriptors.OthersRefused | main/bcur.c:795-899 | any other script tag is refused as unsupported |
| CborEncode.Encoder.EncodeScriptVariantTag | main/bcur.c:990-1034 | the tags written for a single-signature script |
| CborEncode.Encoder.EncodeHdkey | main/bcur.c:1036-1154 | the key map written, network part included only for test wallets |
| CborEncode.Encoder.EncodeOutput | main/bcur.c:1225-1230 | the tokens written are those of the output's item tree |
| CborLaws.PathReads | main/bcur.c:559-592 | an encoded path of up to 16 steps reads back with its hardening, a longer one is refused |
| CborLaws.EncodedOutputReadsBack | main/bcur.c:643-899 | for P2PKH, P2WPKH and P2WPKH in P2SH, any path up to 16 steps and either network, what the device encodes is read back with the same wrapping, fingerprint, path, key, chain code and network |

## Left out

- LzParser.Compressor.Compress: only the form with a caller's output buffer is modelled, not the output callback; null pointers are left out, and so are the zlib header and checksum around the stream.
- LzParser.Compressor.ChooseMatch: how good the match found is does not matter to correctness and is not stated.
- HuffmanEncoder.OptimizeTable: takes counts that total at most 65535, which is what 16-bit counts over one block are.
- HuffmanLengths.MinimumRedundancy: works on an array of counts whose symbols are kept apart, where the source sorts pairs; 16-bit wrap of inner weights is covered because the lengths' Kraft sum does not depend on them.
- HuffmanLimit.EnforceMaxCodeSize: takes counts of a complete code, which is what the length pass leaves; on other counts the source can drive a count negative.
- MatchCopy.RunOps: covers the one-shot, non-wrapping output buffer; resuming in the middle of a match and the wrapping window are left out.
- InflateLookup.HuffDecode: bits are given as one number; refilling the bit buffer from bytes is left out.
- BlockReader.InflateOps: reads one symbol at a time where the source may read two, and gathers the operations that `MatchCopy.RunOps` then carries out, where the source carries out each as it is read.
- BlockOutlet.Outlet.Flush: the source writes straight into the caller's buffer when a whole block has room there, and copies otherwise; here every block is copied.
- BlockReader.InflateStored: copies byte by byte where the source copies runs.
- BlockReader.InflateBlock: running out of input or output is a refusal; suspending there and resuming is left out, as are the zlib header and its checksum.
- BlockSymbols.LengthReadsBack: the encoder's tables are written by ranges, entry for entry the same.
- Adler32.Update: takes a checksum whose halves are reduced, which is what the start value and every call leave.
- BbqrFrames.ReadHeader: frames are strings of characters standing for bytes.
- BbqrCollector.Collector.Finalise: inflation is a function of the whole compressed message (`BbqrDelivery.InflateRaw` is the modelled one); its buffers and their wiping are left out.
- ScanSession.Session.Collect: the progress bar, and what `bcur_sequence_component_ok()` checks inside a part, are left out.
- SettingsDevice.Firmware.Commit: locking is left out; one step happens at a time.
- DescriptorText.ParseText: the record name made from the label or a hash is left out.
- DescriptorTemplateLaws.ExpansionIsText: text with a plain '@' is excluded, as the template's own notation would be ambiguous.
- JsonLaws.FinderIsRight: names with escapes are compared as written, as the source does.
- QrSet.Generator.Create: rendering a part as a QR code is left out; parts of the plain set are taken to fit, which the source asserts.
- CborTree.AdvanceOverValue: works on tokens; the byte encoding of CBOR and indefinite lengths are left out.
- CborLaws.EncodedOutputReadsBack: the rebuilt key text is taken to be at most 112 characters, as base58 of 82 bytes is.
- HuffmanEncoder.OptimizeTable: that lengths cost least is stated of those before limiting; of what limiting adds to the cost nothing is said.
- Multisig output encoding, the account wrapper around an output, and the other BC-UR message types are left out.
- The whole-store dump and load in `libjade/nvs_flash.c` and the record codec in `main/descriptor.c` are left out: length-prefixed codecs of the same shape as the settings blob but easier.
- Address and signer code, screens, camera, buttons, tasks and transports are left out: thin layers over libraries, or glue.
- Allocation failure (other than in the settings map), logging and memory wiping are left out.
