# Models of seven core algorithms

This project models the parts of the repository that decide something by an algorithm of their own, and
proves what they promise. `dafny verify dfyconfig.toml` checks everything.

* **Command lines** (`Getopt*.dfy`). `getopt` as the state machine it is, with argv permuted in place,
  against a left-to-right reading of the original command line.
* **Texture blocks** (`Bc7*.dfy`, `Bc6h*.dfy`, with `BitMath`, `BitPacking`, `BptcTables`, `BptcIndices` and
  `TexelGrid`). BC7 and BC6H decoding down to the bytes of the image, against a definition of each texel by
  slices of the 128-bit block. All tables of the source are in the model.
* **Profiler** (`Profile*.dfy`). The log entries, the ring buffer and its flips, the replay that turns a log
  into times and finds the start of a span by its place in the ring (`ProfileVisits`, and `ProfileThread` for a
  whole thread over one array), and the pool of thread logs.
* **Supervisor calls** (`Svc*.dfy`). The layout of arguments and results over registers, and the marshalling.
* **Demangler memory** (`BumpAllocator.dfy`), **profiler presets** (`Preset*.dfy`) and **decoder tables**
  (`DecoderTable.dfy`).

Imperative code is a class or a method with loops, proved equal to a function; the theorems are about that
function. Machine integers are written out where they can wrap: log entries and tick differences in 64 bits,
profiler times modulo 2^64 and counts modulo 2^32, the 8-bit group counters, 16-bit words in BC6H, the 32-bit
mask of the bump allocator. The ring of a thread's log has the size that src/common/microprofile.h:15 sets, 2^21
entries. What malloc returns, the image and its clipping, the registered names and the instruction tables are
parameters.

Some laws that one would expect fail for some inputs. They are stated with the exact condition:

* Reading the permuted argv again in strict order gives the same parse unless the last option lacks its
  argument and there are operands (`PermutedIsPosix`, `StarvedCommandLine`).
* A signed BC6H block decodes to finite halves unless it is of mode 15; there a channel of a texel is finite
  exactly if its endpoints, weighted by the texel's index, are at least half a unit above the lowest number
  (`TexelsAreFinite`, `SignedTexelIsFinite`, and `InfiniteBlock`, where one endpoint is the lowest number and the
  other the highest).
* A frame is read from the ring as it was logged exactly if it is empty or at most 2^21 entries have been logged
  from its first one on (`FrameIsIntact`, `LoseFrame`): four frames are in flight, but only one is kept from
  overflowing.
* Even if every frame is replayed in time, a span that stays open while 2^21 further entries are logged is timed
  from another entry. The flips of a thread read what they should, and amount to one replay of its entries,
  exactly if at each entry neither it nor the entry that opened the span it leaves has been overwritten
  (`ReadsAreMeant`, `LostSpan`, `LoseSpan`).
* The replay stack has room for 32 entries but the child counters only for the root and 31: entry 32 is counted
  one place past the array (externals/microprofile/microprofile.h:1709-1710). All places used are inside exactly
  if the log keeps less than 32 entries open (`PlacesAreInside`, `DeepLog`). The theorems about the replay are for
  such logs; `Replayer` has a flag, `outside`, for the others and promises nothing once it is set.
* The free list of thread logs stays a list exactly if the thread that ends had its log in use (`ReleaseEnds`,
  `ExitTwice`).
* The bump allocator rounds with a 32-bit mask, so it hands out enough exactly for requests below 2^32 - 15
  (`RoundCovers`, `RoundTruncates`).
* A preset comes back exactly if the selected names are not shared with others (`PresetComesBack`, `SaveAndLoad`):
  of two threads of one name, for instance, both are selected after saving one (`SelectTwin`).
* Loading a preset stays inside the file unless the file ends in the header, as far as that is looked at, or a
  string is compared with a registered name and what is left of the file is the beginning of that name
  (`LoadPreset`, `CompareIs`). A saved file that lost its end inside the name of a thread is read past its end
  (`CutInName`, `LoadCutFile`); a string without end that differs from all names at once is not
  (`StrangerIsRejected`).
* The pool of thread logs is left by the first thread that finds it full and no log free (`CreateThreadLog`,
  `FillPool`, `OverfillPool`).
* The Advanced SIMD table is arranged as its lists say exactly if no matcher is in both lists
  (`AsimdOrderIsArranged`), which holds of the source's lists.

## Model

| member | source | states |
|---|---|---|
| `GetoptTheory.ParseCommandLine` | externals/getopt/getopt.c:129-477 | For every argv, option string and long-option table, calling getopt until it ends reports exactly the events of the left-to-right parse of the original command line, and leaves argv as its unread front, the used-up arguments and the operands, with optind at the first operand. |
| `GetoptTheory.RunToEnd` | externals/getopt/getopt.c:129-477 | From any reachable state, the calls that remain give the events, used-up arguments and operands that the parse from that state still owes; the caller's loop ends. |
| `GetoptMachine.Getopt.constructor` | externals/getopt/getopt.c:56-70 | A fresh machine is valid and owes the whole parse. |
| `GetoptMachine.Getopt.Next` | externals/getopt/getopt.c:129-477 | One call reports the first event of what is left to parse and leaves the rest; when it ends, argv is settled. optarg and optopt are those of the event. Every call that reports something leaves strictly less unread: characters, plus one for each argument that is not an option. |
| `GetoptMachine.Getopt.Step` | externals/getopt/getopt.c:146-475 | The same for a call on an initialised machine. |
| `GetoptMachine.Getopt.Initialize` | externals/getopt/getopt.c:108-145 | Setting up chooses the ordering from the option string and the environment and changes nothing of the parse. |
| `GetoptMachine.Getopt.Advance` | externals/getopt/getopt.c:146-186 | Going to the next option argument keeps the parse of the whole command line, or yields an operand, or ends with argv settled, in all three orderings. |
| `GetoptMachine.Getopt.GatherOperands` | externals/getopt/getopt.c:150-161 | Skipping operands keeps the parse, and stops in front of an option argument. |
| `GetoptMachine.Getopt.Terminate` | externals/getopt/getopt.c:162-171 | "--" makes everything after it operands; the used-up arguments and "--" come first. |
| `GetoptMachine.Getopt.ReadLong` | externals/getopt/getopt.c:187-316 | A long option gives the event that the unique selection in the table defines, with its argument from "=", from the next argument or missing. |
| `GetoptMachine.Getopt.ReadShort` | externals/getopt/getopt.c:317-475 | One letter gives the event of its kind and leaves the other letters. |
| `GetoptMachine.OneLetter` | externals/getopt/getopt.c:317-475 | Reading an argument letter by letter adds up to reading it at once. |
| `GetoptMachine.FindLong` | externals/getopt/getopt.c:203-225 | The search of the long-option table finds what `Lookup` selects. |
| `GetoptSpec.Lookup` | externals/getopt/getopt.c:203-252 | An exact name wins; otherwise an abbreviation must be the only one, or all its matches must agree in argument, flag and value. |
| `GetoptSpec.SelectionIsUnique` | externals/getopt/getopt.c:203-252 | That rule leaves exactly one result. |
| `GetoptMachine.Exchange` | externals/getopt/getopt.c:72-104 | The block swaps rotate: the two adjacent blocks change places and nothing else moves. |
| `GetoptMachine.Round` | externals/getopt/getopt.c:78-103 | Each round leaves the same rotation to do on a strictly smaller range. |
| `GetoptMachine.Getopt.ExchangeNonopts` | externals/getopt/getopt.c:72-107 | After the rotation the bounds enclose the operands that were moved. |
| `GetoptMachine.RotatedParts` | externals/getopt/getopt.c:72-107 | The rotated argv begins with all used-up arguments, followed by the operands, in order. |
| `GetoptTheory.ParseIsStablePartition` | externals/getopt/getopt.c:129-477 | Used-up arguments and operands each keep their original order. |
| `GetoptTheory.NothingMovesUnlessPermuting` | externals/getopt/getopt.c:172-186 | In the two other orderings argv stays as it was. |
| `GetoptTheory.EventsAreBounded` | externals/getopt/getopt.c:146-475 | There are no more events than unread characters, plus one for each operand handed back. |
| `GetoptTheory.EmptyOperand` | externals/getopt/getopt.c:172-186 | Characters alone are not enough: an empty operand that is handed back is an event without any. |
| `GetoptTheory.PermutedIsPosix` | externals/getopt/getopt.c:146-186 | Reading the permuted argv in strict order gives the same parse if and only if no option at the end lacks its argument while there are operands. |
| `GetoptTheory.StarvedCommandLine` | externals/getopt/getopt.c:146-186 | `f -o` with `o:` reports a missing argument and leaves `-o f`, which reads differently. |
| `Bc7Layout.GetIsSlice` | externals/bc_decoder/bc_decoder.cpp:1218-1227 | A field is the slice of the 128-bit block at its offset, also across the two 64-bit halves. |
| `Bc7Layout.FieldsTile` | externals/bc_decoder/bc_decoder.cpp:927-1008 | In each of the eight modes every bit of the block is in exactly one field. |
| `Bc7Layout.FieldsFillTheBlock` | externals/bc_decoder/bc_decoder.cpp:954-1008 | The fields begin at bit 0 and end at bit 128. |
| `Bc7Layout.PackedFields` | externals/bc_decoder/bc_decoder.cpp:954-1008 | Any values that fit their fields are read back from the block that packs them. |
| `Bc7Layout.UnpackedFields` | externals/bc_decoder/bc_decoder.cpp:954-1008 | The fields of any block, packed again, are the block. |
| `Bc7Layout.PackedMode` | externals/bc_decoder/bc_decoder.cpp:1229-1255 | A block that begins with the unary numeral of a mode is read in that mode. |
| `Bc7Decoder.ModeIsInTheLowHalf` | externals/bc_decoder/bc_decoder.cpp:1229-1255 | The mode found in the low half is the mode of the block. |
| `Bc7Decoder.WidenIsReplicated` | externals/bc_decoder/bc_decoder.cpp:1329-1345 | A channel is widened to 8 bits by repeating its high bits, and can be narrowed again without loss. |
| `Bc7Decoder.EndpointIsRead` | externals/bc_decoder/bc_decoder.cpp:1292-1345 | Reading, adding the shared or own p-bit and widening in three passes gives the endpoint defined from the block. |
| `Bc7Decoder.ReadEndpoints` | externals/bc_decoder/bc_decoder.cpp:1289-1345 | The loops compute all endpoints of all subsets. |
| `Bc7Decoder.IndexFieldsAreUsedUp` | externals/bc_decoder/bc_decoder.cpp:1347-1361 | In every mode and partition the running offsets end exactly at the end of the primary and of the secondary index field. |
| `Bc7Decoder.TakeIndices` | externals/bc_decoder/bc_decoder.cpp:1424-1459 | The colour and the alpha index of a texel are the slices at its place, swapped by the selection bit, and the offsets move on to the next texel. |
| `Bc7Decoder.IndexIsInTheTable` | externals/bc_decoder/bc_decoder.cpp:1262-1272 | No index is outside its table of weights. |
| `Bc7Decoder.InterpolationIsBetween` | externals/bc_decoder/bc_decoder.cpp:1262-1273 | An interpolated channel lies between its endpoints. |
| `Bc7Decoder.TexelsAreBytes` | externals/bc_decoder/bc_decoder.cpp:1262-1395 | Every channel of every texel of every block is a byte; nothing is cut off. |
| `Bc7Decoder.Decode` | externals/bc_decoder/bc_decoder.cpp:1275-1395 | For every block, origin and image size the image becomes the old one with the visible texels of the reference painted in, black for an invalid mode. |
| `TexelGrid.PaintedExactly` | externals/bc_decoder/bc_decoder.cpp:1349-1394 | Painting changes exactly the bytes of visible texels, each to the byte of the unclipped decoding. |
| `TexelGrid.TexelsAreDisjoint` | externals/bc_decoder/bc_decoder.cpp:1349-1371 | No byte belongs to two visible texels. |
| `TexelGrid.ImageHasRoom` | externals/bc_decoder/bc_decoder.cpp:1349-1371 | In an image of packed rows every visible texel of a block lies inside the image. |
| `BptcTables.TablesAreSound` | externals/bc_decoder/bc_decoder.cpp:1013-1184 | In all 64 partitions of one, two or three subsets each anchor texel lies in its own subset. |
| `BptcIndices.AnchorTest` | externals/bc_decoder/bc_decoder.cpp:1354-1359 | Comparing a texel with the anchor of its subset tells whether it is any anchor. |
| `BptcIndices.IndicesFillTheirField` | externals/bc_decoder/bc_decoder.cpp:1347-1361 | Sixteen indices take 16 times their width less one bit for each subset. |
| `Bc6hLayout.LayoutsAreExact` | externals/bc_decoder/bc_decoder.cpp:630-794 | In each of the 14 modes the fields are in range, disjoint and together as wide as endpoints and partition. |
| `Bc6hLayout.PlacesDiffer` | externals/bc_decoder/bc_decoder.cpp:630-794 | Two header bits never go to the same place. |
| `Bc6hLayout.PlaceExists` | externals/bc_decoder/bc_decoder.cpp:630-794 | Every position of every endpoint channel, and of the partition, receives some header bit. |
| `Bc6hLayout.BitArrives` | externals/bc_decoder/bc_decoder.cpp:829-859 | A header bit is the bit at its place of the value that is read, reversed fields included. |
| `Bc6hLayout.ReadThenWrite` | externals/bc_decoder/bc_decoder.cpp:829-859 | Any header is restored from the values read from it. |
| `Bc6hLayout.WriteThenRead` | externals/bc_decoder/bc_decoder.cpp:829-859 | Any values that fit are read back from the header that stores them. |
| `Bc6hLayout.Consume` | externals/bc_decoder/bc_decoder.cpp:443-472 | Taking bits off the two 64-bit words gives the low bits of the 128-bit number, reversed if asked for, and shifts the number. |
| `Bc6hLayout.ReadHeader` | externals/bc_decoder/bc_decoder.cpp:829-859 | The loop over the descriptions leaves in every slot its bits of the header and the rest of the block in the words. |
| `Bc6hColor.ExtendSignIsSigned` | externals/bc_decoder/bc_decoder.cpp:306-326 | Sign extension gives the two's complement number of the low bits. |
| `Bc6hColor.ResolveIsWrap` | externals/bc_decoder/bc_decoder.cpp:357-369 | Adding a delta in 16-bit words and masking wraps the sum once into the range of the endpoint. |
| `Bc6hColor.PatternIsResolved` | externals/bc_decoder/bc_decoder.cpp:861-878 | After sign extension and deltas an endpoint is the number its bits and its base define. |
| `Bc6hColor.DecodeEndpoints` | externals/bc_decoder/bc_decoder.cpp:861-882 | The three passes over the endpoints compute the unquantised target of every channel. |
| `Bc6hColor.InterpolateWordIsHalf` | externals/bc_decoder/bc_decoder.cpp:481-524 | The fixed-width steps of the interpolation compute the blend of the endpoints scaled to a half. |
| `Bc6hColor.DecodedHalfIsFinite` | externals/bc_decoder/bc_decoder.cpp:379-422 | For all unsigned formats, and signed formats below 16 bits, the half is finite and not minus zero, and unsigned ones are at most 0x7BFF. |
| `Bc6hColor.WideSignedHalfIsFinite` | externals/bc_decoder/bc_decoder.cpp:394-422 | With 16-bit signed endpoints the half is never minus zero, and finite if and only if the weighted endpoints are at least half a unit above the lowest number; otherwise it is minus infinity. |
| `Bc6hDecoder.ModeIsItsOwn` | externals/bc_decoder/bc_decoder.cpp:594-628 | The description found for the mode bits is of that mode and has as many mode bits as were read. |
| `Bc6hDecoder.BlockIsUsedUp` | externals/bc_decoder/bc_decoder.cpp:630-905 | In every mode the mode, the header and the shortened indices are 128 bits. |
| `Bc6hDecoder.Decode` | externals/bc_decoder/bc_decoder.cpp:800-918 | For every block, origin and image size the image becomes the old one with the visible texels of the reference painted in. |
| `Bc6hRange.TexelsAreFinite` | externals/bc_decoder/bc_decoder.cpp:800-918 | In the decoded bytes of every block every channel of every texel is a finite half and not minus zero, unless the block is signed and of mode 15. |
| `Bc6hRange.SignedTexelIsFinite` | externals/bc_decoder/bc_decoder.cpp:800-918 | In any signed block a channel of a texel is finite if and only if the endpoints of its subset, weighted by the index of the texel, are above the lowest number; otherwise its bytes are those of minus infinity. |
| `Bc6hRange.SignedHalfOf` | externals/bc_decoder/bc_decoder.cpp:379-422 | The same from the endpoints stored in the header. |
| `Bc6hRange.InfiniteBlock` | externals/bc_decoder/bc_decoder.cpp:394-422 | A block of mode 15 with base 0x8000 and deltas of -1 decodes to minus infinity in every channel of every texel. |
| `Bc6hRange.LowestEndpoints` | externals/bc_decoder/bc_decoder.cpp:861-882 | The endpoints of that block are -32768 and 32767. |
| `Bc6hRange.OnlyMode15IsWide` | externals/bc_decoder/bc_decoder.cpp:630-794 | Only mode 15 has 16-bit endpoints. |
| `ProfileLog.EntryRoundTrip` | externals/microprofile/microprofile.h:826-867 | A packed entry gives back its type, 14 bits of its token and 48 bits of its tick. |
| `ProfileLog.EntryIsDecoded` | externals/microprofile/microprofile.h:826-867 | A word is read as the entry of its type that was put, with 14 bits of its token and 48 bits of its tick. |
| `ProfileLog.DifferenceIsExact` | externals/microprofile/microprofile.h:856-862 | The tick difference is the true one for ticks less than 2^47 apart, whatever has wrapped around. |
| `ProfileLog.WordDifferenceIsOfTicks` | externals/microprofile/microprofile.h:856-862 | The difference of two whole words in 64 bits depends on their 48-bit ticks only. |
| `ProfileReplay.WordsAreLog` | externals/microprofile/microprofile.h:832-867 | Words whose timers are registered are read as entries with 48-bit ticks, which is all that the replay asks of a log. |
| `ProfileReplay.PlacesAreInside` | externals/microprofile/microprofile.h:1696-1742 | A replay uses only child counters inside the array of 32 if and only if the log keeps less than 32 entries open. |
| `ProfileReplay.DeepLog` | externals/microprofile/microprofile.h:1696-1711 | 32 entries inside one another use a place outside the array. |
| `ProfileReplay.ReplayConserves` | externals/microprofile/microprofile.h:1688-1757 | A replay that finds all entries as they were logged and keeps less than 32 open, well nested or not, adds to the exclusive times exactly what it adds to the child times on the stack. |
| `ProfileVisits.VisitConserves` | externals/microprofile/microprofile.h:1688-1757 | The same holds of the replay through the ring, whatever has been overwritten, as long as it stays inside the child counters. |
| `ProfileReplay.ExclusiveIsOutermost` | externals/microprofile/microprofile.h:1688-1757 | A replay of such a log that begins and ends with an empty stack shares out exactly the time of the outermost spans. |
| `ProfileReplayer.CountersConserve` | externals/microprofile/microprofile.h:1724-1742 | Two states of the counters that stand for such totals differ, modulo 2^64, by as much in the exclusive counters as in the child counters of the open spans. |
| `ProfileReplayer.Replayer.LeaveTimer` | externals/microprofile/microprofile.h:1724-1755 | Leaving a timer times the innermost span from the entry that is now at the place where it was opened, and keeps every counter equal to the true total modulo its width, for the timer, its parent and its group. |
| `ProfileReplayer.Replayer.EnterTimer` | externals/microprofile/microprofile.h:1696-1711 | Entering a timer opens a span with no child time and counts it in its group; with 31 open entries, and only then, it uses a counter outside the array. |
| `ProfileReplayer.Replayer.ReplayEntry` | externals/microprofile/microprofile.h:1688-1757 | Replaying one place of the ring does what the replay by entry numbers does, and leaves the array exactly if that does. |
| `ProfileReplayer.Replayer.ReplayRange` | externals/microprofile/microprofile.h:1688-1757 | The loop over a range of the ring computes the replay of the entries that it holds. |
| `ProfileReplayer.Replayer.ClearFrame` | externals/microprofile/microprofile.h:1619-1633 | A flip begins with no times and no calls; the open spans and the group counters stay. |
| `ProfileReplayer.Replayer.ReplayRanges` | externals/microprofile/microprofile.h:1668-1760 | The two ranges of a frame, which may wrap around, amount to one replay from its first entry to its last; it changes the exclusive counters by what it changes the child counters of the open spans, modulo 2^64. |
| `ProfileSpans.ReplayAccounts` | externals/microprofile/microprofile.h:1688-1757 | Replaying the trace of any forest of spans nested less than 32 deep adds to every timer the inclusive, exclusive and call totals, and to every group the time of its outermost spans, that the forest defines. |
| `ProfileFrames.FramesAreOneReplay` | externals/microprofile/microprofile.h:1619-1762 | Any number of flips that find all entries as they were logged, wherever they cut the log, accumulate what one replay of the whole log accumulates. |
| `ProfileVisits.ReadsAreMeant` | externals/microprofile/microprofile.h:1688-1757 | Over all flips of a thread, the entries read from the ring are, by number, those that were logged and those that opened the spans, if and only if none of these had been overwritten by then; in that case the accounts are those of one replay of all entries. |
| `ProfileVisits.FlipIsVisit` | externals/microprofile/microprofile.h:1619-1762 | Clearing the totals of a frame, replaying it through the ring and adding the totals up gives what a replay without clearing gives, overwritten entries included. |
| `ProfileThread.ThreadProfile.Put` | externals/microprofile/microprofile.h:1387-1402 | An entry put between any two halves of flips leaves everything replayed so far as it is. |
| `ProfileThread.ThreadProfile.ReplayFrame` | externals/microprofile/microprofile.h:1558-1770 | A flip clears the totals, replays from the ring as it is now the entries up to those put three flips ago, and adds the totals up; the sums follow the replay by entry numbers, or the child counters have been left. |
| `ProfileThread.ThreadProfile.AddTimers` | externals/microprofile/microprofile.h:1763-1774 | Adding the totals of a frame keeps every sum equal to the true one, modulo 2^64 for times and 2^32 for calls. |
| `ProfileThread.ThreadProfile.Exact` | externals/microprofile/microprofile.h:1558-1770 | In any reachable state of a thread the sums over its flips are those of one replay of its entries so far if none was overwritten before it was read, which is exactly when all reads were the meant ones. |
| `ProfileLost.LostSpan` | externals/microprofile/microprofile.h:1724-1735 | A span of 100 ticks with 2^21 entries in it is counted with 93, although each entry is replayed before its place is taken. |
| `ProfileLost.LoseSpan` | externals/microprofile/microprofile.h:1387-1762 | A thread reaches this by putting and flipping. |
| `ProfileFrames.ReplayCounts` | externals/microprofile/microprofile.h:1709-1755 | In a well-nested log with less than 32 entries open the counter of a group is always the number of its open entries. |
| `ProfileFrames.GroupTicksAreUncovered` | externals/microprofile/microprofile.h:1743-1762 | In such a log a group is credited with exactly the spans that have no open ancestor in the group. |
| `ProfileRing.GetRange` | externals/microprofile/microprofile.h:1481-1498 | The two ranges, one after the other, are the circular interval from get to put. |
| `ProfileRing.Latest` | externals/microprofile/microprofile.h:1387-1402 | The entry found at a place is the latest one put there, the entry itself if and only if at most 2^21 entries came from it on. |
| `ProfileRing.ThreadLog.LogPut` | externals/microprofile/microprofile.h:1387-1402 | An entry is dropped if and only if the frame already has 2^21 - 1 entries; otherwise it is appended to the history. |
| `ProfileRing.ThreadLog.BeginFlip` | externals/microprofile/microprofile.h:1558-1616 | A flip notes how far the thread has come and frees the ring for the next frame. |
| `ProfileRing.ThreadLog.constructor` | externals/microprofile/microprofile.h:1171-1196 | A log created after any number of flips is valid, whatever the position in the frame table. |
| `ProfileRing.ThreadLog.NextFrame` | externals/microprofile/microprofile.h:1619-1661 | Puts may come in between: the two ranges hold what is now at the places of the frame noted three flips ago, which continues where the last one ended. |
| `ProfileRing.FrameIsIntact` | externals/microprofile/microprofile.h:1387-1402 | A frame is found as it was put if and only if it is empty or at most 2^21 entries were put from its first on. |
| `ProfileRing.LoseFrame` | externals/microprofile/microprofile.h:1387-1661 | A thread fills a frame and goes on; when the frame is replayed three flips later, its first entry is another one. |
| `ProfilePool.Pool.CreateThreadLog` | externals/microprofile/microprofile.h:1171-1195 | A new thread gets an emptied log that no live thread has and the others stay as they are, unless the pool is full and no log is free; then, and only then, the pool is left. |
| `ProfilePool.Pool.OnThreadExit` | externals/microprofile/microprofile.h:1209-1237 | The log at the address is emptied, with its group counters and its starts in the frame table, and becomes the first of the free list; if it was free already, no list ends any more. |
| `ProfilePool.Pool.Flip` | externals/microprofile/microprofile.h:1601-1616 | Catching up all logs keeps the free ones empty. |
| `ProfilePool.FillPool` | externals/microprofile/microprofile.h:1171-1195 | 31 threads fill the pool; no log is free. |
| `ProfilePool.OverfillPool` | externals/microprofile/microprofile.h:1171-1195 | The next thread writes past its end. |
| `ProfilePool.ReleaseEnds` | externals/microprofile/microprofile.h:1209-1237 | After a thread's end the links form a list that ends if and only if its log was in use. |
| `ProfilePool.NeverEnds` | externals/microprofile/microprofile.h:1209-1237 | Releasing a log that is on the list leads the links back to it. |
| `ProfilePool.ExitTwice` | externals/microprofile/microprofile.h:1171-1237 | Creating a log and ending its thread twice leaves a log that is its own successor. |
| `ProfilePool.TakeKeeps` | externals/microprofile/microprofile.h:1173-1180 | The first free log is never the GPU's and has put and get at 0; without it the list still has exactly the unused logs, each once. |
| `SvcLayout.NeedIsCeiling` | tools/svc_generator.py:306-320 | A value takes as many registers as its size needs, rounded up. |
| `SvcLayout.PlaceFinds` | tools/svc_generator.py:278-302 | A register is found if and only if one is free; a register of the convention is never taken out of turn. |
| `SvcLayout.InputsFit` | tools/svc_generator.py:347-355 | The inputs of any argument list find registers if and only if they need no more than there are, and then all are distinct. |
| `SvcLayout.OutputsFit` | tools/svc_generator.py:357-373 | The same for the return value and the outputs. |
| `SvcLayout.PairIsAligned` | tools/svc_generator.py:306-320 | A two-register input inside the convention gets an even register and the next one. |
| `SvcAllocator.RegisterAllocator.Add` | tools/svc_generator.py:306-320 | The allocator finds the registers that the layout defines and marks exactly them. |
| `SvcAllocator.RegisterAllocator.AllocateFirstFree` | tools/svc_generator.py:285-293 | The lowest free register, or none if all are taken. |
| `SvcAllocator.GetRegisters` | tools/svc_generator.py:334-375 | A call is laid out if and only if both demands are at most the number of registers; then no register carries two inputs or two results. |
| `SvcMarshal.ScatterThenGather` | tools/svc_generator.py:379-413 | A value comes back from the registers it was written to, as far as they have room. |
| `SvcMarshal.WriteAllThenGather` | tools/svc_generator.py:379-463 | Writing further values does not disturb it. |
| `SvcMarshal.CallRoundTrip` | tools/svc_generator.py:430-563 | For the layout of any call every input, return value and output comes back; a 64-bit address written to a 32-bit register loses its high half and nothing else. |
| `BumpAllocator.RoundCovers` | externals/demangle/ItaniumDemangle.cpp:321-322 | The rounded size has room for the request, and less than 16 bytes more, if and only if the request is below 2^32 - 15. |
| `BumpAllocator.RoundTruncates` | externals/demangle/ItaniumDemangle.cpp:321-322 | A request of 2^32 bytes is rounded to 0. |
| `BumpAllocator.Allocator.constructor` | externals/demangle/ItaniumDemangle.cpp:318-319 | The allocator begins with its own block, empty. |
| `BumpAllocator.Allocator.Allocate` | externals/demangle/ItaniumDemangle.cpp:321-331 | The range handed out has the rounded size, begins at a multiple of 16 in its block, lies inside that block and overlaps nothing handed out before. |
| `BumpAllocator.Allocator.AllocateMassive` | externals/demangle/ItaniumDemangle.cpp:308-315 | An oversized block is put behind the first and never becomes the first. |
| `BumpAllocator.Allocator.Grow` | externals/demangle/ItaniumDemangle.cpp:301-306 | A new block becomes the first; what was handed out stays where it is. |
| `BumpAllocator.Allocator.Reset` | externals/demangle/ItaniumDemangle.cpp:333-341 | Every block from malloc is freed exactly once, the inner block never, and the allocator is as new. |
| `Preset.Profiler.SavePreset` | externals/microprofile/microprofileui.h:3050-3124 | The bytes of the file are a header with the settings and, for exactly what is selected, the offsets of the names behind it, which are never 0. |
| `PresetFile.HeaderComesBack` | externals/microprofile/microprofileui.h:3020-3038 | The header is read again from its 404 bytes, whatever follows. |
| `Preset.Profiler.LoadPreset` | externals/microprofile/microprofileui.h:3128-3222 | For any bytes: a missing or empty file or another magic or version changes nothing; otherwise the settings are those of the file, and selected is what has its name in the file. Bytes past the end are read if and only if the file ends inside the header, as far as that is looked at, or some comparison that is made gets to the end of the file before it finds a difference. |
| `Preset.LoadGroups` | externals/microprofile/microprofileui.h:3168-3181 | The nested loops find exactly the groups named in the file, ignoring case; they read past the end if and only if some group has a string that is cut off as the beginning of its name. |
| `Preset.LoadThreads` | externals/microprofile/microprofileui.h:3182-3196 | The same for the threads that exist; strings are not looked at for the others. |
| `Preset.LoadGraph` | externals/microprofile/microprofileui.h:3197-3221 | A graph gets the first timer with its name in a group with its group's name. Nothing is read if one offset is 0, the group's string only for a timer of the right name, and nothing after the first such timer; past the end if and only if a comparison that is reached is. |
| `Preset.GraphIsDecided` | externals/microprofile/microprofileui.h:3197-3221 | The search of a graph has exactly one outcome. |
| `PresetFile.CompareIs` | externals/microprofile/microprofileui.h:3175-3209 | A comparison gets to the end of the file if and only if what is left of the file is, ignoring case, the beginning of the name; it finds the name if and only if the name and a NUL are there. |
| `PresetFile.NameMatches` | externals/microprofile/microprofileui.h:3076-3081 | A saved name is compared inside the file, and found as every name that is the same ignoring case. |
| `Preset.GroupsComeBack` | externals/microprofile/microprofileui.h:3070-3182 | The selected groups come back if and only if each shares its name with selected groups only. |
| `Preset.ThreadsComeBack` | externals/microprofile/microprofileui.h:3083-3197 | The selected threads come back if and only if they exist and share their names with selected ones only. |
| `Preset.GraphComesBack` | externals/microprofile/microprofileui.h:3095-3221 | A graph comes back if and only if no earlier timer has the same pair of names. |
| `Preset.PresetComesBack` | externals/microprofile/microprofileui.h:3050-3222 | Loading what was saved stays inside the file, and restores the selection if and only if all three conditions hold. |
| `Preset.SaveAndLoad` | externals/microprofile/microprofileui.h:3050-3222 | Saving and then loading restores the settings always, and the selection if and only if all three conditions hold. |
| `Preset.SelectTwin` | externals/microprofile/microprofileui.h:3083-3196 | Of two threads of one name only the first is selected; after saving and loading the second is, too. |
| `Preset.CutInName` | externals/microprofile/microprofileui.h:3182-3196 | Any saved file that is cut off inside the name of a selected thread, or before its NUL, is read past its end. |
| `Preset.LoadCutFile` | externals/microprofile/microprofileui.h:3128-3196 | Such a file, saved, cut and loaded. |
| `Preset.StrangerIsRejected` | externals/microprofile/microprofileui.h:3168-3221 | A string without end is not read past the end if every registered name differs in the first character. |
| `DecoderTable.GetMaskAndExpect` | tools/gendynarm.cpp:30-42 | The mask has a bit exactly where the pattern has 0 or 1, highest first, so its bit count is the number of these characters. |
| `DecoderTable.StrictlyMore` | tools/gendynarm.cpp:375-378 | A mask that strictly contains another has more bits. |
| `DecoderTable.SortIsStable` | tools/gendynarm.cpp:375-378 | The order is a permutation by falling bit count, with equal counts in the order of the source, told apart also by the lines that are printed for them. |
| `DecoderTable.StableSortIsUnique` | tools/gendynarm.cpp:375-378 | These properties determine the order. |
| `DecoderTable.SpecificComesFirst` | tools/gendynarm.cpp:375-378 | A matcher whose fixed bits strictly contain another's precedes it, in any table. |
| `DecoderTable.AsimdTable` | tools/gendynarm.cpp:576-585 | Two partitions and a sort in place give the listed first ones in order, the others sorted, and the listed last ones in order, if and only if no matcher is listed as both; if more are listed as both than as neither, the range to sort is reversed. |
| `DecoderTable.AsimdOrderIsArranged` | tools/gendynarm.cpp:576-585 | For any two lists the table is a permutation, and arranged in this way if and only if no matcher is listed as both. |
| `DecoderTable.A64Table` | tools/gendynarm.cpp:1623-1634 | The exceptions come first, and both parts are sorted. |
| `DecoderTable.KeepSorts` | tools/gendynarm.cpp:1623-1634 | Picking matchers out of the sorted table is sorting the matchers picked out. |

## Left out

- The wide-character half of getopt, which repeats the modelled half.
- getopt's `W;` form, `long_only` and the printed diagnostics.
- BC1 to BC5.
- Images with overlapping rows: the decoders' contracts are for images whose texels do not share bytes.
- ProfileReplayer.Replayer.EnterTimer: says when a child counter past the array is written, and nothing about what that overwrites.
- ProfilePool.Pool.CreateThreadLog: says when the pool's array is written past its end, and nothing about what that overwrites.
- ProfileThread.ThreadProfile.ReplayFrame: models one thread and flips while the profiler records; frames marked while it is paused are not replayed and not modelled, nor are the sums over several threads, the maxima and the sums of groups over frames.
- GPU logs, whose ticks come from queries; meta counters; the aggregation over frames, context switches, web server, HTML and all drawing.
- Registration of groups, timers and categories.
- Preset.Profiler.LoadPreset: says when a file is read past its end, and nothing about what is read then; the clearing of a graph's history and the flag of a timer shown in a graph are not modelled.
- Conversions to floating point; a reference time in a preset is carried as its 32 bits.
- DecoderTable.AsimdTable: says when the range to sort is reversed, where the library promises nothing and the model does not sort; the library's sort and partition are modelled by their results.
- Parsing of the supervisor calls' declarations, the emission of C++ text, and the concrete instruction and call tables.
- The demangler itself; its node types are not part of this model.
- Audio, settings, shims for dynamic libraries and the remaining tools, which are thin or do input and output.
