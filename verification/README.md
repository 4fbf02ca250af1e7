# Verified models of zlib, GMP, mkcramfs and mdadm code

This project models the parts of the repository whose correctness is hardest to see, and proves what they are
for. `dafny verify dfyconfig.toml` checks everything.

**Inflate** (`core0/pkg/zlib`). `huft_build` turns code lengths into linked lookup tables, with a bit-reversed code
counter, a table stack and a code stack. Each table is related to the interval of 15-bit strings that it serves, so
that the invariant of the whole loop is a statement about a partition of the strings; walking finished tables is proved
to find exactly the canonical code of section 3.2.2 of RFC 1951 that comes next. The decoder (`inflate_blocks`,
`inflate_codes`, `inflate_fast`, `inflate_flush`) is one object that can stop at any byte of input or output. It is
proved to follow, step by step, a deterministic machine over bit positions (`InflateSpec`) that knows nothing of bit
buffers, windows, table pointers or calls; the fast loop is proved to be a run of the same steps without the checks.
From this it follows that what is delivered does not depend on how the input is supplied or the room granted.
`DeflateFormat` then says what a stream stands for as section 3.2 of RFC 1951 does, by canonical codes, blocks and
tokens, without tables, states or lookups; what length and distance symbols stand for, the fixed code lengths, the
order in which code lengths are sent and the repeats are given by rules (`FormatNumbers`), which the decoder's tables
are proved to follow; code lengths are those of a complete code, by their Kraft sum, or of a single code of one bit
(`CodeLengths.Decodable`). Where the decoder reports the end, blocks were there, and what was delivered is what they
stand for (`Schedule.InflatedBlocks`); a stream has only one decoding (`InflateComplete.OneDecoding`). Conversely a
stream of blocks, once it is supplied with eight more bits, is decoded to the end, and no byte after it is taken, if
and only if its blocks are `Trimmed`; otherwise the answer is Z_DATA_ERROR (`Schedule.Inflates`), and it is the answer
for no other stream of blocks (`Schedule.ErrorIsReal`).

**Deflate** (`core0/pkg/zlib/deflate.c`). The window, the rolling key, the `head` and `prev` chains, `fill_window`,
`longest_match` and the three compression functions are methods of one object. The chain invariant speaks of absolute
positions of the input and survives insertion, skipped insertion, reuse of a ring slot, slides and a cleared table;
with it the third byte of a match, which is never compared, is equal because the keys are. It also says that every link
leads to the last string inserted before with the same key, so that the strings that `longest_match` looks at are known
from the input and the positions inserted, without the tables; none of them offers a longer match than the one found,
unless that is long enough to stop at (`MatchSearch.NoneMissed`). Each round of greedy and lazy matching is specified
by its token, its position and the strings that it inserts. Over any sequence of calls and flushes the tokens expand to
the input before `strstart`, less the byte that lazy matching holds back; from a full flush on they do so for a decoder
that knows nothing before it (`Restarts`). Exactly the final block of a finished stream is marked as the last.

**Others.** GMP's two-limb multiplication and the three two-by-one divisions for any even word size; the directory
layout, duplicate elimination and data placement of mkcramfs, and the image that they make together; the RAID10 loop of
mdadm; Adler-32 as two plain sums, and CRC-32 as the remainder of a polynomial over GF(2).

What the proofs brought to light:

- Inflate rejects two kinds of dynamic blocks that section 3.2.7 of RFC 1951 allows: with 31 or 32 distance code
  lengths (core0/pkg/zlib/infblock.c:222), and without any distance code but with more than 257 literal/length code
  lengths (core0/pkg/zlib/inftrees.c:362), even when no length symbol has a code; `FixedTrees.RejectLiterals` and
  `FixedTrees.ManyDistances` give such lengths. A stream of blocks is decoded exactly if it has neither
  (`DeflateFormat.Trimmed`). The table space never is a reason.
- `huft_build` does not always fill the tables that it allocates. When some prefix has no code of at most `l` more
  bits, a deeper table is asked for more than `l` bits and the next level starts before it ends. Of such a table the
  first 2^l slots are written, as of any other, each of them once, and the others never (`InfTrees.WrittenOnce`). This
  happens exactly when `NoJump` fails (`HuftDecode.RightIffNoJump`), and exactly then some bits lead a walk to an entry
  that was never written (`HuftWalk.WalksIffNoJump`); `HuftWalk.WalkStrays` says which bits do. `HuftJump` gives
  lengths for which it happens whenever 1088 entries of table space are left. Every length vector that the three
  callers accept satisfies `NoJump`, so that their tables are always right.
- The code-length tree of a dynamic block may have a single one-bit code. The unused pattern then decodes as the same
  symbol, because the base value of the entry before is left in place; the machine does the same, and in no other case
  (`SymbolRead.UnusedPattern`).
- If `inflate_fast` finds the end of a block and there is no room to deliver, `inflate_codes` returns Z_STREAM_END from
  WASH and `inflate_blocks` goes on as if END had been reached. This does no harm: the output stays in the window.
- A pending match at the largest distance can begin one byte before the half that a slide keeps. `match_start` then
  wraps below zero; the distance computed from it modulo 2^32 is still right.
- The table space of 1440 entries, of which inftrees.h only says that it is more than safe, is always enough for a
  dynamic block: at each level the tables take at most one entry a code and twice the largest of them
  (`HuftSpace.LevelTotal`), so that a literal/length code takes no more than 926 entries and a distance code no more
  than 268.
- `longest_match` reads bytes beyond the input that were never written or are left from before; neither the length that
  it returns nor the place of a match longer than the one before depends on them (`MatchSearch.LongestAlike`), which is
  what cutting `nice_match` to the lookahead is for. That every index read is inside the window relies on `prev` being
  zeroed by `calloc` (core0/pkg/zlib/zutil.c:233-240).
- At level 0 the blocks depend on how the input is split among the calls. All ways to split it give the same blocks if
  and only if the input is no longer than MAX_DIST or no block can be longer than that (`DeflateSplit.SplitMatters`).
- `adler32` called with no bytes returns its argument without reducing it.

## Model

| member | source | states |
|---|---|---|
| CodeSort.CountLengths | core0/pkg/zlib/inftrees.c:137-146 | the table of how many codes have each length |
| CodeSort.FindBounds | core0/pkg/zlib/inftrees.c:155-169 | shortest and longest length in use and the lookup width kept between them |
| CodeSort.PatternsLeft | core0/pkg/zlib/inftrees.c:172-178 | negative exactly when at some length there are more codes than patterns; else the unused patterns of the longest length |
| CodeLengths.OverIsKraft | core0/pkg/zlib/inftrees.c:172-178 | a set is over-subscribed exactly when its Kraft sum is above one |
| CodeSort.Offsets | core0/pkg/zlib/inftrees.c:181-186 | where the symbols of each length begin in the sorted list |
| CodeSort.SortValues | core0/pkg/zlib/inftrees.c:189-195 | the counting sort: symbols by length, then by value, the zero lengths left out |
| HuftSteps.BackIncrement | core0/pkg/zlib/inftrees.c:277-280 | reversed, the counter moves on by exactly one code of its length |
| HuftSteps.FillEntries | core0/pkg/zlib/inftrees.c:272-275 | exactly the slots whose index ends in the code's bits are written, each once and none that was written before |
| TableBuilder.SizeTable | core0/pkg/zlib/inftrees.c:220-235 | the table size is that of the specification |
| HuftInvariant.BitsCover | core0/pkg/zlib/inftrees.c:220-235 | a table of that size holds whole codes: none that starts in it ends outside |
| TableBuilder.OpenTable | core0/pkg/zlib/inftrees.c:217-254 | one new table keeps the invariant of stack, links and finished slots, or there is no room |
| TableBuilder.PlaceCode | core0/pkg/zlib/inftrees.c:257-275 | the entry of one code goes to all and only the slots that its strings reach, none of which was written before |
| TableBuilder.BackUp | core0/pkg/zlib/inftrees.c:282-289 | the tables popped are those whose strings are all assigned |
| InfTrees.GenerateCodes | core0/pkg/zlib/inftrees.c:198-291 | fails exactly when the space needed exceeds MANY, else leaves the tables built, using exactly that space, the first 2^l slots of each written once and all else as it was |
| InflateTrees.HuftBuild | core0/pkg/zlib/inftrees.c:99-296 | the outcome for every length vector: null result, over-subscribed, out of space, incomplete unless the longest length is 1, or built, each slot written at most once |
| HuftDecode.WalkRight | core0/pkg/zlib/inftrees.c:198-291 | walking the tables on any bits ends at the entry of the code that owns them and drops its length |
| HuftDecode.RightIffNoJump | core0/pkg/zlib/inftrees.c:213-275 | every slot of every table is written if and only if no prefix jumps, and then each of them is right, including the slots beyond the first 2^l |
| HuftDecode.NarrowIffNoJump | core0/pkg/zlib/inftrees.c:213-254 | no table is wider than l bits if and only if no prefix jumps, a condition on the counts of codes alone |
| HuftWalk.WalkStrays | core0/pkg/zlib/infcodes.c:121-148 | for any bits the walk either looks at written entries only and ends at the entry of the code that owns them, or looks at one never written; which of the two is told by the code alone |
| HuftWalk.StraysIffJump | core0/pkg/zlib/inftrees.c:213-254 | there are bits of the second kind if and only if some prefix jumps |
| HuftWalk.WalksIffNoJump | core0/pkg/zlib/inftrees.c:213-275 | no walk from the first table looks at an entry never written if and only if no table is asked for more than l bits |
| HuftDecode.FewCodes | core0/pkg/zlib/inftrees.c:213-275 | a complete set with fewer than 2^(l+1) codes asks for no such table |
| HuftJump.GappedLeavesGaps | core0/pkg/zlib/inftrees.c:213-295 | for a concrete length vector, with 1088 entries left, exactly these are claimed, one of them stays as it was and Z_BUF_ERROR is returned; with fewer left, Z_DATA_ERROR |
| HuftJump.BuildGapped | core0/pkg/zlib/inftrees.c:99-296 | the call itself, at any fill of the table space with 1088 entries left: some entry claimed is never written |
| TreeCallers.DecodesSymbol | core0/pkg/zlib/inftrees.c:257-280 | bits that start with a symbol's canonical code reach that symbol's entry and drop exactly its code |
| TreeCallers.DecodesNothing | core0/pkg/zlib/inftrees.c:259-260 | bits that start with no code reach an entry marked invalid |
| TreeCallers.PrefixFree | core0/pkg/zlib/inftrees.c:207-280 | no two symbols' codes start the same bits |
| FixedTrees.AcceptNoJump | core0/pkg/zlib/inftrees.c:299-387 | the trees that the callers accept never jump |
| FixedTrees.AcceptWidth | core0/pkg/zlib/inftrees.c:155-169 | nor is their first table wider than the caller wanted, although the width is raised to the shortest length |
| FixedTrees.AcceptIsDecodable | core0/pkg/zlib/inftrees.c:172-178 | accepted lengths are those whose Kraft sum is one, and a single code of one bit |
| HuftSpace.CodesBetween | core0/pkg/zlib/inftrees.c:198-291 | between the starts of two codes there are at least as many codes as strings of the first one's length |
| HuftSpace.GrownEnds | core0/pkg/zlib/inftrees.c:220-235 | a table larger than its first code needs ends in a code that needs all its bits |
| HuftSpace.LevelTotal | core0/pkg/zlib/inftrees.c:236-240 | the tables of one level take at most one entry a code and twice the largest size they can have |
| FixedTrees.SpaceEnough | core0/pkg/zlib/inftrees.h:28-33 | the tables of any pair of codes that a dynamic block may have take no more than 1194 of the 1440 entries |
| FixedTrees.InflateTreesBits | core0/pkg/zlib/inftrees.c:299-323 | success exactly for complete sets, by their Kraft sum, and a single one-bit code; then the tables decode the code |
| FixedTrees.InflateTreesDynamic | core0/pkg/zlib/inftrees.c:326-387 | success exactly for pairs of such sets, or without any distance code if there are at most 257 literal/length code lengths: the table space never runs out; both trees stand side by side |
| FixedTrees.RejectLiterals | core0/pkg/zlib/inftrees.c:361-371 | a complete literal/length code of 258 lengths without length symbols, and no distance code, is rejected although the format allows it |
| FixedTrees.ManyDistances | core0/pkg/zlib/infblock.c:219-228 | so are 31 distance code lengths of which one is used |
| FixedTrees.InflateTreesFixed | core0/pkg/zlib/inftrees.c:404-454 | the fixed trees of section 3.2.6 fill their 544 entries exactly |
| Stream.PeekSplit | core0/pkg/zlib/infutil.h:71-76 | taking m and then n bits is taking m + n |
| BitInput.BitIn.NextByte | core0/pkg/zlib/infutil.h:74-75 | or-ing in a byte, even one given back before, keeps the buffer equal to the stream |
| BitInput.BitIn.NeedBits | core0/pkg/zlib/infutil.h:73-75 | succeeds exactly when the bits are supplied, consumes none |
| BitInput.BitIn.GiveBack | core0/pkg/zlib/infcodes.c:217-224 | returned bytes leave the position in bits as it was |
| BitInput.BitIn.GrabBits | core0/pkg/zlib/inffast.c:22 | unchecked loading stays inside the supplied input when the bits are there |
| BitInput.BitIn.Ungrab | core0/pkg/zlib/inffast.c:23 | gives back whole bytes, never more than were taken |
| OutputWindow.Window.OutByte | core0/pkg/zlib/infutil.h:83 | the ring stays the last bytes of the output |
| OutputWindow.Window.Wrap | core0/pkg/zlib/infutil.h:80 | the write index wraps only when the beginning is free |
| OutputWindow.Window.Flush | core0/pkg/zlib/infutil.c:25-89 | delivers until the room or the output is used up; produced = delivered + pending |
| OutputWindow.Window.NeedOut | core0/pkg/zlib/infutil.h:82 | room for a byte, or the caller has none |
| OutputWindow.Window.CopyMatch | core0/pkg/zlib/infcodes.c:198-211 | the COPY loop is LZ77 expansion, also when interrupted, with the source index kept across flushes |
| OutputWindow.Window.FastCopy | core0/pkg/zlib/inffast.c:94-137 | the unchecked copy, split at the end of the ring, is the same expansion |
| InflateSpec.StepWF | core0/pkg/zlib/infblock.c:138-370 | every step keeps the machine's state well formed |
| InflateSpec.StepMore | core0/pkg/zlib/infutil.h:73-75 | more input never changes a step that was possible |
| InflateSpec.RunGrows | core0/pkg/zlib/infblock.c:138-370 | earlier states of a run have a prefix of the output of later ones |
| InflateSpec.StoppedIsLast | core0/pkg/zlib/infblock.c:361-366 | a run that stops with all input supplied is the longest |
| InflateState.LookEntry | core0/pkg/zlib/infcodes.c:121-125 | the entry that a table index finds is what the machine's lookup says |
| InflateFits.StoredFits | core0/pkg/zlib/infblock.c:201-217 | copying t bytes of a stored block is t steps |
| InflateFits.BTreeDone | core0/pkg/zlib/infblock.c:240-264 | the permuted lengths, zero-filled, are the lengths by symbol, and the tree is accepted or the state is BAD |
| LengthFits.DTreeRepeat | core0/pkg/zlib/infblock.c:281-306 | a repeat is rejected exactly when it overruns or has nothing to repeat, else stored as section 3.2.7 says |
| LengthFits.DTreeDone | core0/pkg/zlib/infblock.c:308-339 | the two trees of the block, or BAD |
| CodesFits.LenFits | core0/pkg/zlib/infcodes.c:121-158 | one literal/length lookup is one step |
| CodesFits.DistFits | core0/pkg/zlib/infcodes.c:168-190 | one distance lookup is one step |
| CodesFits.CopyFits | core0/pkg/zlib/infcodes.c:198-211 | copying n bytes of a match is n steps |
| InflateBlocks.Inflate.constructor | core0/pkg/zlib/infblock.c:94-119 | a new object stands for the machine's first state |
| InflateBlocks.Inflate.DoBits | core0/pkg/zlib/infblock.c:240-246 | one length of the code-length code, never outside the array |
| InflateBlocks.Inflate.DoLength | core0/pkg/zlib/infblock.c:265-306 | one code length or repeat, resumable at every byte |
| InflateBlocks.Inflate.DoWash | core0/pkg/zlib/infcodes.c:217-228 | fewer than sixteen bits are there when it begins, and after the byte given back fewer than eight, at the same position in bits |
| InflateBlocks.Inflate.FastOne | core0/pkg/zlib/inffast.c:67-179 | one round of the fast loop is a run of slow steps, inside both bounds |
| InflateBlocks.Inflate.InflateFast | core0/pkg/zlib/inffast.c:30-184 | the fast loop leads to a state that the slow machine reaches: same output, same bit position, same outcome |
| InflateBlocks.Inflate.InflateCodes | core0/pkg/zlib/infcodes.c:84-243 | goes on to the end of the block, an error, or until input or room is used up |
| InflateBlocks.Inflate.Blocks | core0/pkg/zlib/infblock.c:122-371 | on return room is used up, or all output is delivered and the machine can do nothing more; the return code tells the end and errors exactly; at the end no byte is taken beyond the one that holds the last bit used |
| Schedule.Drive | core0/pkg/zlib/infblock.c:122-371 | any schedule of calls keeps the object sound and conserves the room |
| Schedule.ScheduleIndependent | core0/pkg/zlib/infblock.c:122-371 | what is delivered is always a prefix of what a finished run delivers, and finished runs agree in bytes, state and return code and, at the end of the stream, in the place reached in the input |
| Schedule.NeverDisagree | core0/pkg/zlib/infblock.c:122-371 | of two runs on one stream one has delivered a prefix of the other |
| SymbolRead.ReadsSymbol | core0/pkg/zlib/infcodes.c:121-158 | when a symbol's code comes next, the chain of lookups finds that symbol and consumes its code |
| SymbolRead.ReadIsCode | core0/pkg/zlib/infcodes.c:121-158 | conversely, the symbol found is one whose code comes next |
| SymbolRead.RunReadsSymbol | core0/pkg/zlib/infcodes.c:104-158 | in a run, the machine comes to what the next symbol means, consuming exactly its code; to an error if no code comes next; or it starves among the bits to be looked at |
| SymbolRead.RunReadsDistance | core0/pkg/zlib/infcodes.c:168-190 | the same for a distance symbol |
| SymbolRead.ReadSymIs | core0/pkg/zlib/infblock.c:265-279 | under any accepted code-length code, the symbol read is the one whose canonical code comes next, or the only one there is |
| SymbolRead.ReadsLength | core0/pkg/zlib/infblock.c:265-279 | bits that start with the canonical code of y are read as y |
| SymbolRead.UnusedPattern | core0/pkg/zlib/inftrees.c:299-323 | bits that start with no code occur only for a single code of one bit |
| InflateNarrow.RunNarrow | core0/pkg/zlib/infcodes.c:121-190 | all along a run the trees never jump and each lookup is into a table of theirs, of at most nine bits |
| FormatNumbers.LengthBase | core0/pkg/zlib/inftrees.c:47-53 | the least length that a symbol stands for, by the rule that each symbol begins where the one before ends and the last is 258 itself, is the table's entry |
| FormatNumbers.DistBase | core0/pkg/zlib/inftrees.c:54-57 | the same for distances, from 1 on |
| FormatNumbers.LengthShared | core0/pkg/zlib/inftrees.c:47-53 | in the tables each length symbol begins where the one before ends, the first at 3, and the one before the last ends at 258 |
| FormatNumbers.DistShared | core0/pkg/zlib/inftrees.c:54-61 | the same for distances, which end at 32768 |
| FormatNumbers.EveryLength | core0/pkg/zlib/inftrees.c:47-53 | exactly the lengths 3 to 258 have a symbol with extra bits |
| FormatNumbers.OneLength | core0/pkg/zlib/inftrees.c:47-53 | and only one, but 258 has its own symbol besides |
| FormatNumbers.EveryDistance | core0/pkg/zlib/inftrees.c:54-61 | exactly the distances 1 to 32768 have a symbol with extra bits, and only one |
| FormatNumbers.FixedLengths | core0/pkg/zlib/inftrees.c:429-437 | the fixed code lengths, by symbol, are those of section 3.2.6 of RFC 1951 |
| FormatNumbers.SentPlace | core0/pkg/zlib/infblock.c:21-22 | where each length of the code-length code is sent, by a rule |
| FormatNumbers.TimesBase | core0/pkg/zlib/infblock.c:281-291 | symbols 16 and 17 repeat three times at least, 18 eleven times |
| DeflateFormat.PutAllIsExpand | core0/pkg/zlib/infcodes.c:198-211 | when no distance reaches back too far, the tokens of a block mean their LZ77 expansion |
| InflateRight.DoneIsDecoded | core0/pkg/zlib/infblock.c:138-370 | a run that comes to the end has read blocks as RFC 1951 defines them, none of them such a one, delivered what they stand for and stands where they end |
| InflateComplete.NeverFails | core0/pkg/zlib/infblock.c:138-370 | a run on a stream of blocks finds an error only if some block has more than 30 distance code lengths, or no distance code and more than 257 others |
| InflateComplete.DecodesBlocks | core0/pkg/zlib/infblock.c:138-370 | where a run on a stream of blocks can do nothing more, and eight bits follow, it has decoded them all if there is no such block, and found an error otherwise |
| InflateComplete.OneDecoding | core0/pkg/zlib/infblock.c:138-370 | a stream is a stream of blocks in only one way |
| InflateComplete.StoredIsBlocks | core0/pkg/zlib/infblock.c:180-217 | a final stored block of up to 65535 bytes stands for these bytes |
| Schedule.Inflates | core0/pkg/zlib/infblock.c:122-371 | for any schedule of calls on a stream of blocks: when all is supplied, with eight bits after it, and taken, the end is reported exactly if there is no such block, and then what was delivered is what the blocks stand for and no byte after them is taken; otherwise the answer is Z_DATA_ERROR |
| Schedule.InflatedBlocks | core0/pkg/zlib/infblock.c:122-371 | conversely, a reported end means that blocks were there and what was delivered is what they stand for |
| Schedule.ErrorIsReal | core0/pkg/zlib/infblock.c:122-371 | Z_DATA_ERROR is returned only for input that is not a stream of blocks without such a one |
| Lz77.CopyIsMatch | core0/pkg/zlib/deflate.c:926-941 | a match whose strings agree expands to the bytes that it stands for |
| Lz77.CopyIsExtend | core0/pkg/zlib/infcodes.c:198-211 | the expansion of deflate's matches is what inflate's window does |
| HashChains.PrimedNext | core0/pkg/zlib/deflate.c:155 | the rolling key after the third byte is the key of the three bytes, and is ready for the next string |
| HashChains.SameKey | core0/pkg/zlib/deflate.c:816-819 | with equal keys two equal bytes are followed by a third |
| HashChains.ChainsInsert | core0/pkg/zlib/deflate.c:174-177 | insertion keeps the chains, each link leading to the last string inserted before with the same key, although it reuses a slot of the ring |
| HashChains.ChainsSkip | core0/pkg/zlib/deflate.c:1206-1213 | strings may be left out |
| HashChains.ChainsSlide | core0/pkg/zlib/deflate.c:991-1014 | sliding keeps the chains |
| HashChains.ChainsCleared | core0/pkg/zlib/deflate.c:184-186 | clearing the heads leaves chains that nothing is in |
| HashChains.FollowLink | core0/pkg/zlib/deflate.c:856 | the link of a near string leads to the last one before it with the same key |
| HashChains.HeadIsNewest | core0/pkg/zlib/deflate.c:174-177 | the head of a chain is the last string inserted with its key |
| HashChains.ShiftIs | core0/pkg/zlib/deflate.c:155 | the key shifts by the least amount that makes a byte leave it after three updates |
| DeflateCore.Compared | core0/pkg/zlib/deflate.c:807-833 | the bytes compared and the third make the strings agree |
| DeflateCore.GenuineMatch | core0/pkg/zlib/deflate.c:859-860 | cut to the lookahead, the match is one in the input |
| DeflateMatcher.Deflate.constructor | core0/pkg/zlib/deflate.c:686-709 | a new stream, at any level |
| DeflateMatcher.Deflate.InsertString | core0/pkg/zlib/deflate.c:174-177 | the chains as `HashChains.Inserted` says; the head returned is that of the string's chain so far, a candidate unless NIL or too far |
| DeflateMatcher.Deflate.Compare | core0/pkg/zlib/deflate.c:824-835 | the length reported is one for which the bytes from the fourth on agree |
| DeflateMatcher.Deflate.LongestMatch | core0/pkg/zlib/deflate.c:725-861 | a result above prev_length is a genuine match within MAX_DIST and the lookahead that does not reach back beyond a full flush, and none of the last max_chain_length strings inserted with the same key offers a longer one unless the result is long enough to stop at; with a stale head the result is at most the lookahead; in any case it is a function of the window, the links and the lookahead |
| MatchSearch.SearchFinds | core0/pkg/zlib/deflate.c:797-857 | a search finds no less than any candidate that it comes to agrees for, or else a longer match than the one before that is long enough to stop at |
| MatchSearch.SearchFound | core0/pkg/zlib/deflate.c:797-857 | what it finds is the match before, or a longer one of a candidate that it comes to |
| MatchSearch.VisitsAll | core0/pkg/zlib/deflate.c:856-857 | the candidates that it comes to are the last ones inserted with the same key, as far back as MAX_DIST |
| MatchSearch.LongestFinds | core0/pkg/zlib/deflate.c:725-861 | so that it misses none of the strings of the input that it is meant to look at |
| MatchSearch.LongestAlike | core0/pkg/zlib/deflate.c:767-770 | that function does not depend on bytes of the window beyond the input |
| DeflateMatcher.SameMatch | core0/pkg/zlib/deflate.c:767-770 | so two objects at the same place of one input with the same chains find the same match |
| DeflateMatcher.Deflate.Slide | core0/pkg/zlib/deflate.c:984-1014 | the absolute position of everything is unchanged |
| DeflateMatcher.Deflate.FillWindow | core0/pkg/zlib/deflate.c:960-1042 | ends with lookahead or without input, with the window full or all input taken, strstart low enough, and always at least two bytes of room |
| DeflateMatcher.Deflate.FlushOnly | core0/pkg/zlib/deflate.c:1054-1063 | the bytes handed over are those from block_start to strstart |
| DeflateMatcher.Deflate.TallyDist | core0/pkg/zlib/deflate.h:301-310 | a match that the configuration allows extends what the tokens stand for; the buffers never overrun |
| DeflateMatcher.Deflate.FastFind | core0/pkg/zlib/deflate.c:1159-1177 | what greedy matching finds is what `MatchSearch.FastBest` says, and it misses none of the strings that it is meant to look at |
| DeflateMatcher.Deflate.FastStep | core0/pkg/zlib/deflate.c:1157-1225 | one round of greedy matching: the token is the match found, at its distance and with its length cut to the lookahead, or a literal if that is below three; a match whenever a string looked at agrees for three bytes, and never with Z_HUFFMAN_ONLY; exactly the strings that are to be inserted are |
| DeflateMatcher.Deflate.DeflateFast | core0/pkg/zlib/deflate.c:1138-1226 | keeps the tokens equal to the input; each block added is full, except for the one that ends a flush, which has everything supplied in it and is marked as the last exactly with Z_FINISH; the answer tells these cases and the room for output apart |
| DeflateMatcher.Deflate.SlowFind | core0/pkg/zlib/deflate.c:1253-1278 | what lazy matching finds is what `MatchSearch.SlowBest` says: nothing if the match before is long enough, and no match that is too short for its distance or the strategy |
| DeflateMatcher.Deflate.SlowStep | core0/pkg/zlib/deflate.c:1253-1336 | one round of lazy matching: the match before becomes a token exactly if it is one and none longer is found, else the byte before a literal if one waits; the new match waits in turn; every string passed that has its three bytes is inserted |
| DeflateMatcher.Deflate.SlowFill | core0/pkg/zlib/deflate.c:984-1014 | a pending match survives a slide, even when match_start wraps |
| DeflateMatcher.Deflate.DeflateSlow | core0/pkg/zlib/deflate.c:1234-1347 | keeps the tokens equal to the input less the byte held back; blocks and answer as for greedy matching, and after a flush nothing is held back |
| DeflateMatcher.Deflate.StoredStep | core0/pkg/zlib/deflate.c:1107-1126 | blocks no larger than 0xffff and pending_buf_size - 5, block_start never negative, and the place reached is that of `StoredRounds` |
| DeflateMatcher.Deflate.DeflateStored | core0/pkg/zlib/deflate.c:1080-1130 | partitions the input into such blocks, a flush ending one more; answer as for the other levels |
| StoredRounds.MaxBlockIsMost | core0/pkg/zlib/deflate.c:1086-1091 | the largest block is the most that its 16-bit length and the buffer have room for |
| DeflateMatcher.Deflate.ClearHash | core0/pkg/zlib/deflate.c:184-186 | every head is empty and no string counts as inserted |
| DeflateSplit.FeedStored | core0/pkg/zlib/deflate.c:1080-1130 | for input arriving in any pieces, and any room for output, the blocks end where the arithmetic of `StoredRounds` says |
| DeflateSplit.SplitMatters | core0/pkg/zlib/deflate.c:1080-1130 | all ways to split an input of n bytes give the same block ends if and only if n is at most MAX_DIST or the largest block is |
| DeflateMatcher.Deflate.Call | core0/pkg/zlib/deflate.c:452-548 | any call with any flush keeps the invariant; after the last block a call is refused unless it only goes on finishing; Z_FINISH, and nothing else, marks the last block; a completed full flush, and nothing else, empties the heads and makes a place to restart from |
| DeflateMatcher.Deflate.Finished | core0/pkg/zlib/deflate.c:497-516 | when the stream is finished everything supplied is in blocks, of which exactly the final one is marked as the last; before that none is |
| DeflateMatcher.Deflate.Restarts | core0/pkg/zlib/deflate.c:537-544 | after a full flush the tokens from there on expand to the input from there on, for a decoder that knows nothing before |
| DeflateMatcher.Deflate.Compressed | core0/pkg/zlib/deflate.c:1138-1347 | at any time all tokens expand to the input before strstart, less the byte held back |
| DeflateMatcher.Deflate.Flushed | core0/pkg/zlib/deflate.c:1080-1347 | after a completed flush the blocks alone expand to all the input supplied |
| DeflateMatcher.Deflate.BlocksStand | core0/pkg/zlib/deflate.c:1054-1063 | each block's tokens stand for exactly the bytes between its ends; no matches with Z_HUFFMAN_ONLY, and with lazy matching none of length 3 from beyond 4096, nor below 6 for filtered data |
| DeflateBlocks.TalliedExpand | core0/pkg/zlib/deflate.h:294-310 | blocks and pending tokens together expand to the input |
| DeflateBlocks.TalliedFrom | core0/pkg/zlib/deflate.h:294-310 | from any place where the history was forgotten they expand to the input from there on, nothing before being known |
| DeflateBlocks.StoredExpand | core0/pkg/zlib/deflate.c:1080-1130 | stored blocks together are the input |
| GmpDivision.AddSsaaaa | core0/pkg/gmp/longlong.h:1318-1324 | the two-word sum, less the carry out |
| GmpDivision.SubDdmmss | core0/pkg/gmp/longlong.h:1328-1334 | the two-word difference, plus the borrow |
| GmpDivision.UmulPpmm | core0/pkg/gmp/longlong.h:1338-1361 | the exact product, no partial sum overflowing but the one whose carry is seen |
| GmpDivision.Correct | core0/pkg/gmp/longlong.h:1386-1393 | at most two corrections, the comparison with d detecting the carry exactly |
| GmpDivision.UdivQrnndC | core0/pkg/gmp/longlong.h:1376-1410 | quotient and remainder of two words by one with its top bit set |
| GmpDivision.InverseGap | core0/pkg/gmp/gmp-impl.h:209-213 | what the documented inverse misses |
| GmpDivision.UdivQrnndPreinv | core0/pkg/gmp/gmp-impl.h:214-238 | the same division by multiplying: the estimate, the high word of nh * di plus nh, is at most three below the quotient and never above it |
| GmpDivision.UdivQrnndPreinv2norm | core0/pkg/gmp/gmp-impl.h:260-278 | the same, without a branch |
| GmpDivision.DivisionUnique | core0/pkg/gmp/gmp-impl.h:209-278 | so that all three return the same pair |
| CramfsTree.EmitAll | core0/pkg/cramfs/mkcramfs.c:471-562 | the layout order has every entry once |
| CramfsTree.Together | core0/pkg/cramfs/mkcramfs.c:324-379 | the entries of a directory lie together and take the bytes that parse_directory added up |
| CramfsLayout.PendingReversed | core0/pkg/cramfs/mkcramfs.c:531-547 | reversing what one directory pushed makes the stack hand it out in order |
| CramfsLayout.ReverseSegment | core0/pkg/cramfs/mkcramfs.c:537-546 | the in-place reversal |
| CramfsLayout.WriteSiblings | core0/pkg/cramfs/mkcramfs.c:486-529 | one directory |
| CramfsLayout.WriteName | core0/pkg/cramfs/mkcramfs.c:503-511 | the name's bytes, zeros up to a multiple of four, and no other byte of the image |
| CramfsLayout.SetDataOffset | core0/pkg/cramfs/mkcramfs.c:422-433 | the place is recorded in words, in 26 bits, exactly if it is a multiple of four and not too far |
| CramfsLayout.WriteDirectoryStructure | core0/pkg/cramfs/mkcramfs.c:471-562 | lays out the recursive order, each inode with the entry's mode, owner and size and as many words for the name as it needs, and the padded name after it, every non-empty directory pointing to its first entry; fails only when the image is too large |
| CramfsDoubles.FindIdentical | core0/pkg/cramfs/mkcramfs.c:190-212 | finds the first entry that is the file or has the same data |
| CramfsDoubles.EliminateDoubles | core0/pkg/cramfs/mkcramfs.c:214-221 | every entry points to the first with the same data, if that is another |
| CramfsDoubles.TwinIsFirst | core0/pkg/cramfs/mkcramfs.c:190-221 | that entry comes earlier and points to none |
| CramfsDoubles.WriteData | core0/pkg/cramfs/mkcramfs.c:666-687 | every place is set or shared with an earlier entry whose place is set, no two others meet, and only too large an image fails |
| CramfsDoubles.SharedIffIdentical | core0/pkg/cramfs/mkcramfs.c:666-687 | two entries have the same place exactly if they hold the same data |
| CramfsDoubles.MakeImage | core0/pkg/cramfs/mkcramfs.c:862-895 | the three passes on one tree: afterwards every inode and name is in its place, every offset field says where to go on, and files share a place exactly if they hold the same data |
| RaidEnough.EnoughTen | core0/pkg/mdadm/util.c:126-145 | terminates within raid_disks rounds, with the first block that has no device or back at slot 0 |
| RaidEnough.RoundsBound | core0/pkg/mdadm/util.c:129-144 | within raid_disks over any common divisor with the copies |
| RaidEnough.Enough | core0/pkg/mdadm/util.c:118-162 | for RAID10 the array is usable exactly when every block of near times far copies around it has a device, whatever the two bytes of the layout say |
| Checksums.NoOverflow | core0/pkg/zlib/adler32.c:10-12 | NMAX is the largest number of bytes that never takes any two 16-bit halves to 2^32 |
| Checksums.Adler32 | core0/pkg/zlib/adler32.c:21-47 | the low half is the low half before plus the bytes, the high half the high half before plus the low half before for each byte and the weighted bytes, both modulo 65521; no bytes change nothing |
| Checksums.AdlerIs | core0/pkg/zlib/adler32.c:21-47 | the same of the sums reduced after every byte |
| Checksums.AdlerCompose | core0/pkg/zlib/adler32.c:13-47 | the 32-bit checksum of a whole is that of the second part continued from the first, whatever the value started from and whichever part is empty |
| Checksums.TableStep | core0/pkg/zlib/crc32.c:41-62 | eight steps of the register are one table lookup |
| Checksums.MakeCrcTable | core0/pkg/zlib/crc32.c:41-62 | the pattern put together from the terms of the polynomial, and the table of the register after each byte |
| Checksums.PolyIs | core0/pkg/zlib/crc32.c:46-53 | that pattern is 0xedb88320 |
| Checksums.Crc32 | core0/pkg/zlib/crc32.c:141-161 | the unrolled table form is the bit-at-a-time register |
| CrcPolynomial.CrcIsRemainder | core0/pkg/zlib/crc32.c:15-38 | the register, its bits reversed, is congruent modulo x^32 + x^26 + ... + 1 to the bytes times x^32 added to the register before times x^8 for each byte |
| CrcPolynomial.OneRemainder | core0/pkg/zlib/crc32.c:24-26 | and no other polynomial below x^32 is |
| Checksums.CrcCompose | core0/pkg/zlib/crc32.c:141-161 | the checksum of a whole is that of the second part continued from the first |

## Left out

- Bit-level output of deflate and a compress/decompress round trip: trees.c is not part of this model. `_tr_tally_*`
  appends to the list of tokens, `_tr_flush_block` empties it and may or may not leave room for output; the empty block
  that marks the end of a flush is not recorded.
- `deflateParams`, `deflateCopy`, `deflateSetDictionary`, preset dictionaries and allocation failure.
- The branches of `fill_window` and `deflate_stored` for 16-bit machines (more == 0 or -1, strstart == 0), and the
  `UNALIGNED_OK`, `FASTEST`, `ASMV` and `PKZIP_BUG_WORKAROUND` variants.
- The input of a stream is one sequence with a growing limit; a byte given back may lie before what the current call supplied.
- The fixed tables are built when an inflate object is made rather than on first use, and the check function on the
  output is not called.
- In the source an object keeps the code lengths of a block in an array of its own; here they are a sequence in the mode.
- `inflate_set_dictionary`, `inflate_blocks_reset`, `inflate_blocks_sync_point`, and header and trailer of `inflate.c`.
- Whether the tokens of `deflate_fast` and `deflate_slow` depend on how the input is split among the calls.
- The early returns of `deflate` on no room or a flush repeated without need, and its header and trailer.
- `udiv_qrnnd_preinv2gen`, whose body names an undeclared variable, and all inline assembly.
- The entry tree of mkcramfs is given; directories are not read, an inode's fields are values, not bit fields of
  the widths that the header gives (the header is not part of this model), and the
  compressor is any that takes whole words. A symbolic link without data is assumed not to occur.
- mdadm beyond `enough`; a negative layout word, which the superblock cannot hold.
- The literal tables of `inffixed.h` and `crc32.c`.
