# Verified models of SQLBULL's algorithms

SQLBULL tests database systems with a grammar-aware generator and an adapted copy of AFL. This project
holds Dafny models of the algorithms in it that are hard to get right, written in the form the source has
(classes over arrays and linked nodes, loops that update variables, recursion over trees), and proofs of what
those algorithms are for. Process control, files, shared memory and the database servers are oracles: an
execution is a function of the bytes executed, and every random choice is any value in its range.

| file | models | main results |
|---|---|---|
| `TestCaseMinimizer.dfy`, `MinimizerStages.dfy`, `Chunks.dfy`, `Bytes.dfy`, `Limits.dfy` | afl-tmin | what remains is accepted, arises by deleting bytes and writing '0', cannot lose a byte or an aligned block; every stage settles every block; skipped candidates were tried; it stops |
| `Similarity.dfy`, `Subsequences.dfy` | the LCS distance | the matrix holds the maximum over all common subsequences; the distance is the least number of deletions, and a metric |
| `GrammarTranslator.dfy`, `ProductionTexts.dfy` | the compiler from productions to IR-building actions | running the emitted code rebuilds the production, exactly unless the production is of a named kind; what is printed for each keyword |
| `FuzzQueue.dfy`, `QueueRuns.dfy`, `FavoredCover.dfy`, `QueueList.dfy`, `Bitmaps.dfy` | queue, slot winners, culling | reference counts, ranking, counters and the cover of favored entries, over any run of operations |
| `Coverage.dfy`, `MapCounts.dfy`, `Words.dfy` | virgin maps, crash maps, whole-map counts | word-at-a-time code equals its byte-wise meaning; novelty and unique crashes characterised over runs |
| `DetStages.dfy`, `DetPhase.dfy`, `DetRuns.dfy`, `DetCoverage.dfy`, `DetTests.dfy`, `Redundancy.dfy`, `TokenLists.dfy` | the deterministic mutation stages | each flip, sum, difference, interesting value and token was executed unless its own test rules it out; no byte value is lost by the tests; every stage gives the buffer back and its counter is exact |
| `AutoExtras.dfy` | the automatic dictionary | the tokens found, and what every insertion keeps |
| `Trimmer.dfy` | trimming | what is kept was executed as it is, is a subsequence, and keeps its head; every chunk of every size went exactly if its removal kept the checksum |
| `HavocStage.dfy`, `Tweaks.dfy` | score, havoc, splicing | what each tweak leaves; sizes; every execution is a stack of tweaks of the entry or of a splice of it; bounds on rounds and executions |
| `ForkServer.dfy` | the fork-server handshake | safety and progress in every interleaving |
| `RandomGenerator.dfy`, `GrammarTrees.dfy`, `GrammarRuns.dfy` | the random statement generator | saved derivation trees stay derivations, replay never fails and gives up exactly one node, copies change no saved tree |

Where the code does not do what its documentation or comments say, the model follows the code:

- A comment that is not in the keyword table (`UnlistedComment`), and a production of keywords only whose last word
  is quoted but not listed (`UnlistedComma`), get a reference to a symbol that is not there, or that is only a
  character; a listed comment whose mapped text is no comment is printed; keywords that together look like a comment
  are dropped (`QuotedCommentIsLost`); a production with nothing before `%prec` gets no action.
  `TranslationIsExact` proves that these are all: every other production is translated exactly.
- With arithmetic disabled the stage for interesting bytes still skips what arithmetic would have covered, so some
  values are never executed (`LostExample`); `LostWithoutArith` says exactly which.
- A culling pass can count one entry twice when a kept trace does not contain the slots its entry won: `CountedTwice`
  is such a run, `CullCounts` and `CullPending` say exactly when it happens, and `FaithfulOnce` that it never does for
  faithful traces.
- An abort in the middle of trimming leaves the file on disk behind the buffer in memory, exactly if something
  had been removed (`TrimCase`); `AbortAfterRemoval` is such a run.
- A process that something else kills just before the timer goes off is reported as a timeout (`FalseTimeout`);
  `TimeoutMeansTimer` proves that this is the only way to a wrong timeout.
- Replaying a saved derivation with the depth already used up can run out of children (`DoomedExample`);
  `DoomedExactly` says when. The depths the generator is called with are never negative, and there replay always works.
- The two-byte check of the automatic dictionary would miss negative values in the byte order of the machine
  (`TwoByteMiss`), but no token of two bytes is ever handed over; for all others it is exact (`BuiltinIsInteresting`).

## Model

| member | source | states |
|---|---|---|
| Similarity.Length | PostgreSQL/scripts/similarity.py:134-150 | the matrix filled row by row gives the LCS length, and each missing list is its own type error |
| Similarity.Distance | PostgreSQL/scripts/similarity.py:123-131 | the distance by the shortcut for equal lists or from the LCS length, with the same errors |
| Similarity.LcsIsUpperBound | PostgreSQL/scripts/similarity.py:144-150 | no common subsequence of the two lists is longer than the result |
| Similarity.LcsIsAttained | PostgreSQL/scripts/similarity.py:144-150 | some common subsequence is exactly that long |
| Similarity.LcsSymmetric | PostgreSQL/scripts/similarity.py:134-150 | swapping the two lists changes nothing |
| Similarity.LcsFullMeansEqual | PostgreSQL/scripts/similarity.py:129-131 | an LCS as long as both lists only exists for equal lists |
| Similarity.LcsOverlap | PostgreSQL/scripts/similarity.py:134-150 | two long common subsequences with the same middle list overlap in a common subsequence of the outer two |
| Similarity.DistanceIsMetric | PostgreSQL/scripts/similarity.py:123-131 | zero exactly on equal lists, symmetric, triangle inequality |
| Similarity.DistanceCountsDeletions | PostgreSQL/scripts/similarity.py:123-131 | the distance is the least number of deletions that make the two lists equal |
| GrammarTranslator.Tokenize | PostgreSQL/scripts/translate.py:116-132 | a line that is a comment is one token; else the tokens are the words before `%prec`, numbered from 0 |
| GrammarTranslator.Split | PostgreSQL/scripts/translate.py:122-123 | the words are not empty, hold no blank, and together are the line without its blanks |
| GrammarTranslator.SplitOfJoined | PostgreSQL/scripts/translate.py:122-148 | words joined by blanks are split at exactly these blanks, so a production that was put together again has the same words |
| GrammarTranslator.SearchNextKeyword | PostgreSQL/scripts/translate.py:160-176 | the run of keywords from a position, and the token that ended it or the last keyword |
| GrammarTranslator.SearchRound | PostgreSQL/scripts/translate.py:208-218 | the three searches of one round find the next two symbols and the keyword runs around them |
| GrammarTranslator.RoundSeen | PostgreSQL/scripts/translate.py:288-295 | the largest index seen in a round is its last token, so the loop index strictly increases and skips nothing |
| GrammarTranslator.TranslateSingleLine | PostgreSQL/scripts/translate.py:200-303 | the emitted code runs, types the root with the rule and all else with the default, nests to the left, and rebuilds the production if and only if it is not one of the named kinds |
| GrammarTranslator.TranslationIsExact | PostgreSQL/scripts/translate.py:200-303 | the IR prints exactly as the production, a comment standing for nothing, if and only if the line is no comment missing from the table or printed otherwise, is not empty before `%prec`, and is not keywords only with an unlisted last one or with a comment for text |
| GrammarTranslator.UnlistedComment | PostgreSQL/scripts/translate.py:79-120 | a comment missing from the table is printed as a symbol, which the empty production does not have |
| GrammarTranslator.UnlistedComma | PostgreSQL/scripts/translate.py:79-84 | a quoted comma alone is printed and then taken for a symbol as well |
| GrammarTranslator.QuotedCommentIsLost | PostgreSQL/scripts/translate.py:266-272 | a listed quoted word that looks like a comment is not printed |
| GrammarTranslator.SymbolsOnceInOrder | PostgreSQL/scripts/translate.py:200-295 | every symbol of the production occurs once, in order, and no keyword does |
| ProductionTexts.CorrectlyPrinted | PostgreSQL/scripts/translate.py:79-303 | a correctly translated production prints, for each word before `%prec`: a symbol for a symbol, and for a keyword the upper-cased mapped text, nothing if that is empty, the upper-cased word if it is not mapped, or what stands between the quotes |
| ProductionTexts.TextIs | PostgreSQL/scripts/translate.py:86-93 | the text of a word, said of the mapping and the quotes alone |
| ProductionTexts.LineIs | PostgreSQL/scripts/translate.py:116-123 | a line is the text without the blanks around it, and when it is a comment |
| TestCaseMinimizer.DryRun | MariaDB/docker/AFL/afl-tmin.c:1140-1157 | which dry runs are fatal, and which behaviour the others fix as the goal |
| TestCaseMinimizer.GoalIsBehaviour | MariaDB/docker/AFL/afl-tmin.c:359-407 | data is accepted exactly if it ends in time and as the input does, with the same trace unless both crash and the trace need not be the same |
| TestCaseMinimizer.Minimizer.RunTarget | MariaDB/docker/AFL/afl-tmin.c:359-407 | a candidate is kept exactly if it shows the fixed behaviour, and every execution is kept or one kind of miss |
| TestCaseMinimizer.Minimizer.NormalizeBlocks | MariaDB/docker/AFL/afl-tmin.c:438-472 | skipping blocks of zeros gives what trying every block gives |
| TestCaseMinimizer.Minimizer.SameAsPrevious | MariaDB/docker/AFL/afl-tmin.c:515-516 | whether a block equals the one before it, and that then both deletions give the same candidate |
| TestCaseMinimizer.Minimizer.DeleteRound | MariaDB/docker/AFL/afl-tmin.c:495-543 | a skip because the block equals the previous one loses nothing: the result is that of trying every block |
| TestCaseMinimizer.Minimizer.DeleteStage | MariaDB/docker/AFL/afl-tmin.c:488-550 | all block sizes in turn, with a change reported exactly if bytes went |
| TestCaseMinimizer.Minimizer.CountSymbols | MariaDB/docker/AFL/afl-tmin.c:567-572 | how often each byte occurs |
| TestCaseMinimizer.Minimizer.MinimizeSymbol | MariaDB/docker/AFL/afl-tmin.c:582-598 | all occurrences of one byte replaced if accepted, absent bytes skipped without loss |
| TestCaseMinimizer.Minimizer.MinimizeAlphabet | MariaDB/docker/AFL/afl-tmin.c:577-600 | every byte value in turn |
| TestCaseMinimizer.Minimizer.MinimizeCharacters | MariaDB/docker/AFL/afl-tmin.c:612-635 | every single byte in turn, with the buffer and the data in step |
| TestCaseMinimizer.Minimizer.OnePass | MariaDB/docker/AFL/afl-tmin.c:479-642 | one pass, its early exit, and an exact report of change |
| TestCaseMinimizer.Minimizer.Minimize | MariaDB/docker/AFL/afl-tmin.c:423-644 | all passes compute the plain specification without shortcuts, and terminate; `MinimizedInStages` says what that is |
| TestCaseMinimizer.Tmin | MariaDB/docker/AFL/afl-tmin.c:1135-1159 | the program as a whole: its errors, or the minimized data for the goal of the dry run |
| TestCaseMinimizer.MinimizedIsMinimal | MariaDB/docker/AFL/afl-tmin.c:423-644 | accepted, only deletions and zeroings, no single byte and no aligned block can go, bounded number of passes |
| MinimizerStages.MinimizedInStages | MariaDB/docker/AFL/afl-tmin.c:423-644 | what is minimized first has exactly those blocks of L bytes set to '0' whose zeroing is accepted with the earlier blocks settled, L being the larger of 4 and the least power of two from a 128th of the length up; then come passes until one changes nothing or leaves early, each with its three stages |
| MinimizerStages.PassesAreMade | MariaDB/docker/AFL/afl-tmin.c:479-642 | a run of passes is a chain of single passes, each changing something but the last |
| MinimizerStages.PassIsMade | MariaDB/docker/AFL/afl-tmin.c:479-642 | in every pass, not only the first, each stage that runs settles every block, symbol and byte |
| MinimizerStages.StageDeletedIs | MariaDB/docker/AFL/afl-tmin.c:488-550 | the deletion stage settles the blocks of every halved size, from the least power of two from a sixteenth of the length up down to 1; only its result is such |
| MinimizerStages.ZeroingSettles | MariaDB/docker/AFL/afl-tmin.c:453-472 | each block is zeroed exactly if the data with it zeroed, the blocks before it settled and those after it as they were, is accepted |
| MinimizerStages.DeletingSettles | MariaDB/docker/AFL/afl-tmin.c:495-543 | the same for deleting blocks |
| MinimizerStages.SymbolsSettle | MariaDB/docker/AFL/afl-tmin.c:577-600 | the same for replacing all occurrences of a byte |
| MinimizerStages.SetLengthIsLeast | MariaDB/docker/AFL/afl-tmin.c:438-440 | the block length of the first stage |
| Chunks.SettledOnce | MariaDB/docker/AFL/afl-tmin.c:453-635 | only one result settles all blocks in this way |
| TestCaseMinimizer.PassesResult | MariaDB/docker/AFL/afl-tmin.c:479-642 | what every run of passes keeps, from any pass on |
| TestCaseMinimizer.PassLowersMeasure | MariaDB/docker/AFL/afl-tmin.c:479-642 | a pass that changes anything lowers length plus non-zero bytes |
| TestCaseMinimizer.StagesChange | MariaDB/docker/AFL/afl-tmin.c:539-642 | the stages report a change exactly if the pass ends with different data |
| TestCaseMinimizer.FirstPassIsCharacterMinimal | MariaDB/docker/AFL/afl-tmin.c:557-642 | leaving after the first pass, no character and no symbol can be zeroed either |
| TestCaseMinimizer.DeleteRoundsFixed | MariaDB/docker/AFL/afl-tmin.c:493-550 | a deletion stage that changes nothing proves every aligned block of every size needed |
| TestCaseMinimizer.ReducesTrans | MariaDB/docker/AFL/afl-tmin.c:453-635 | deletions and zeroings compose |
| Subsequences.EqualBlocks | MariaDB/docker/AFL/afl-tmin.c:510-521 | deleting either of two equal adjacent blocks gives the same string |
| Bytes.NextPow2 | MariaDB/docker/AFL/afl-tmin.c:412-418 | the first power of two that is large enough |
| Bytes.Pow2FromIsLeast | MariaDB/docker/AFL/afl-tmin.c:412-418 | no smaller power of two is large enough |
| Bytes.Pow2Gap | MariaDB/docker/AFL/afl-tmin.c:545-548 | halving visits every smaller power of two |
| QueueList.Queue.Append | MariaDB/docker/AFL/afl-fuzz.c:804-837 | the list and its skip pointers stay those of the plain list with one entry more |
| QueueList.Queue.Seek | MariaDB/docker/AFL/afl-fuzz.c:6605-6611 | skipping a hundred at a time and then one by one reaches exactly the entry with that index |
| Bitmaps.MinimizeBits | MariaDB/docker/AFL/afl-fuzz.c:1241-1252 | the compacted map has exactly the bits of the slots hit |
| Bitmaps.ClearBits | MariaDB/docker/AFL/afl-fuzz.c:1348-1350 | clearing non-zero bytes only removes exactly the slots of the map |
| FuzzQueue.Fuzzer.AddToQueue | MariaDB/docker/AFL/afl-fuzz.c:804-837 | a new entry keeps ownership, ranking, the last selection and all counters |
| FuzzQueue.Fuzzer.SpliceTarget | MariaDB/docker/AFL/afl-fuzz.c:6605-6618 | the first long enough other entry from the index on, or none |
| FuzzQueue.Fuzzer.FinishEntry | MariaDB/docker/AFL/afl-fuzz.c:6671-6678 | the first complete visit leaves both pending counts exact |
| FuzzQueue.Fuzzer.WinSlot | MariaDB/docker/AFL/afl-fuzz.c:1286-1303 | the counts move with the slot, the loser's trace goes with its last slot, the winner gets one |
| FuzzQueue.Fuzzer.UpdateBitmapScore | MariaDB/docker/AFL/afl-fuzz.c:1265-1307 | each hit slot goes to the entry exactly if it has no owner or one whose time times size is not smaller, so also in a tie; ownership and ranking are kept |
| FuzzQueue.Fuzzer.Calibrate | MariaDB/docker/AFL/afl-fuzz.c:2593-2685 | speed and score of an entry that was never scored, or one more failure |
| FuzzQueue.Fuzzer.Trimmed | MariaDB/docker/AFL/afl-fuzz.c:4584-4634 | a shorter entry keeps its slots; it is stale from then on exactly if it had been scored with slots that the new trace misses, and everything else goes on |
| FuzzQueue.Fuzzer.GrabWinners | MariaDB/docker/AFL/afl-fuzz.c:1341-1357 | the bitmap loop picks exactly the entries of the greedy cover, and counts them |
| FuzzQueue.Fuzzer.CullQueue | MariaDB/docker/AFL/afl-fuzz.c:1316-1366 | after every call, with changed scores or without: each won slot is covered by a favored entry for faithful traces, and for any traces covered or won by one; both counters are exact if and only if no entry (not fuzzed yet) owns two slots that are uncovered when reached; the flags of every entry are exact |
| FuzzQueue.ProductMonotone | MariaDB/docker/AFL/afl-fuzz.c:1268 | the 64-bit product does not wrap, so a shorter entry never scores worse |
| FuzzQueue.FactorIsProduct | MariaDB/docker/AFL/afl-fuzz.c:1268-1281 | for entries of possible sizes and speeds the 64-bit comparison is that of time times size |
| FuzzQueue.ScoringWinners | MariaDB/docker/AFL/afl-fuzz.c:1273-1305 | who owns each slot after a scoring, said of the times and sizes |
| FuzzQueue.RankingIsByProduct | MariaDB/docker/AFL/afl-fuzz.c:1273-1305 | the owner of a slot has time times size at most that of every entry ever scored with it that is not stale |
| FuzzQueue.ScoringRanks | MariaDB/docker/AFL/afl-fuzz.c:1273-1305 | after any scoring each slot's owner is the best of all entries ever scored with it that are not stale, and when an entry stops being stale |
| FuzzQueue.ShrinkRanks | MariaDB/docker/AFL/afl-fuzz.c:4588-4634 | trimming puts only the slots of the trimmed entry in doubt |
| FuzzQueue.NothingWon | MariaDB/docker/AFL/afl-fuzz.c:1273-1305 | a scoring that wins no slot changes no owner and no trace, so the last selection still stands |
| FuzzQueue.WinningSlot | MariaDB/docker/AFL/afl-fuzz.c:1286-1301 | reference counts equal the slots owned, and a trace is kept exactly while there are any |
| FuzzQueue.TraceStateFaithful | MariaDB/docker/AFL/afl-fuzz.c:1298-1301 | scoring keeps every kept trace containing the slots its entry owns |
| FuzzQueue.CullCounts | MariaDB/docker/AFL/afl-fuzz.c:1328-1357 | the number of favored entries is never counted too small, and exactly right if and only if no entry owns two slots that are uncovered when reached |
| FuzzQueue.CullPending | MariaDB/docker/AFL/afl-fuzz.c:1328-1357 | the same for the favored entries not fuzzed yet |
| FuzzQueue.FaithfulOnce | MariaDB/docker/AFL/afl-fuzz.c:1341-1357 | with faithful traces no entry owns two such slots |
| FuzzQueue.CountedTwice | MariaDB/docker/AFL/afl-fuzz.c:1286-1301 | a run from an empty queue after which one favored entry is counted more than once |
| FuzzQueue.CullCovers | MariaDB/docker/AFL/afl-fuzz.c:1341-1357 | every slot with a winner is set in the trace of a favored entry |
| FuzzQueue.CullReaches | MariaDB/docker/AFL/afl-fuzz.c:1341-1357 | for any traces, such a slot is covered or its winner is favored |
| QueueRuns.SteadyRun | MariaDB/docker/AFL/afl-fuzz.c:804-1366 | any run of operations from an empty queue in which every entry is scored with one trace, ended by a culling pass: the entries and scores are those that the operations give; each won slot is covered by a favored entry, each winner has the least time times size of all ever scored with its slot, references, kept traces and all counters are exact |
| QueueRuns.Perform | MariaDB/docker/AFL/afl-fuzz.c:804-1366 | each single operation keeps this |
| QueueRuns.SteadyScoring | MariaDB/docker/AFL/afl-fuzz.c:1265-1307 | scoring an entry with its own trace keeps every kept trace that of its entry, and leaves no entry stale |
| QueueRuns.SteadyIsFaithful | MariaDB/docker/AFL/afl-fuzz.c:1298-1301 | such traces contain all slots that their entries won |
| FavoredCover.PicksExact | MariaDB/docker/AFL/afl-fuzz.c:1341-1357 | the greedy selection covers every won slot and picks no entry twice |
| FavoredCover.PicksReach | MariaDB/docker/AFL/afl-fuzz.c:1341-1357 | what the selection guarantees whatever the traces are |
| FavoredCover.PicksOf | MariaDB/docker/AFL/afl-fuzz.c:1341-1357 | an entry is picked at all, and is picked again, exactly if it owns one, and two, slots uncovered when reached |
| FavoredCover.PicksDistinct | MariaDB/docker/AFL/afl-fuzz.c:1341-1357 | no entry is picked twice if and only if none owns two such slots |
| Coverage.CoverageMaps.HasNewBits | MariaDB/docker/AFL/afl-fuzz.c:907-974 | the word loop returns the byte-wise novelty, clears exactly what was seen, and reports a changed map |
| Coverage.CoverageMaps.CompareWord | MariaDB/docker/AFL/afl-fuzz.c:933-963 | one word of it, with its two shortcuts |
| Coverage.CoverageMaps.SimplifyTrace | MariaDB/docker/AFL/afl-fuzz.c:1081-1108 | every byte becomes 1 or 128 |
| Coverage.CoverageMaps.SaveCrash | MariaDB/docker/AFL/afl-fuzz.c:3282-3323 | below the cap a crash is kept exactly if some tuple's status differs from all earlier processed ones; never more than the map size plus one |
| Coverage.CoverageMaps.ClassifyCounts | MariaDB/docker/AFL/afl-fuzz.c:1175-1198 | two slots per lookup give the class of every byte |
| Coverage.InitCountClass16 | MariaDB/docker/AFL/afl-fuzz.c:1143-1170 | the two-slot table pairs the classes of its two bytes |
| Coverage.ClassSteps | MariaDB/docker/AFL/afl-fuzz.c:1143-1155 | a class is one bit, which moves up by one at 2, 3, 4, 8, 16, 32 and 128 hits and nowhere else |
| Coverage.NoveltyOverRun | MariaDB/docker/AFL/afl-fuzz.c:907-974 | over any run: 2 exactly for a tuple never hit before, non-zero exactly for a bit never set before |
| Coverage.VirginIsComplement | MariaDB/docker/AFL/afl-fuzz.c:961 | the map is the complement of the union of all traces |
| Coverage.RepeatIsOld | MariaDB/docker/AFL/afl-fuzz.c:907-974 | repeating a trace shows nothing new |
| Coverage.FindsAreBounded | MariaDB/docker/AFL/afl-fuzz.c:907-974 | at most eight finds per slot in any run |
| Coverage.CrashIsUnique | MariaDB/docker/AFL/afl-fuzz.c:3294-3302 | novelty of simplified traces means a status that differs from all earlier ones |
| Coverage.UniqueCrashesAreBounded | MariaDB/docker/AFL/afl-fuzz.c:3290-3320 | at most one kept crash more than there are slots |
| Coverage.WordIsNew | MariaDB/docker/AFL/afl-fuzz.c:933 | two words share a bit exactly if some byte is new |
| MapCounts.CountBits | MariaDB/docker/AFL/afl-fuzz.c:980-1006 | the word trick counts the bits of the map |
| MapCounts.CountBytes | MariaDB/docker/AFL/afl-fuzz.c:1015-1035 | the number of slots hit |
| MapCounts.CountNon255Bytes | MariaDB/docker/AFL/afl-fuzz.c:1041-1064 | the number of slots no longer pristine |
| Words.ParallelCountSum | MariaDB/docker/AFL/afl-fuzz.c:998-1000 | the multiply-and-shift count is the sum of the bits of the four bytes |
| Words.SharedBits | MariaDB/docker/AFL/afl-fuzz.c:933 | two words share a bit exactly if two of their bytes do |
| Redundancy.TestBitflip | MariaDB/docker/AFL/afl-fuzz.c:4820-4845 | the shifting loop decides the bit-flip predicate |
| Redundancy.TestArith | MariaDB/docker/AFL/afl-fuzz.c:4850-4922 | the loops over bytes and words decide the arithmetic predicate |
| Redundancy.TestInterest | MariaDB/docker/AFL/afl-fuzz.c:4931-4996 | the loops over the tables decide whether a shorter value gives this one |
| DetTests.BitflipMeans | MariaDB/docker/AFL/afl-fuzz.c:4820-4845 | the bit-flip test holds exactly of no change, of one, two or four adjacent bits, and of one, two or four whole bytes |
| DetTests.ArithMeans | MariaDB/docker/AFL/afl-fuzz.c:4850-4922 | the arithmetic test holds exactly if one byte, or one half in either byte order, or the whole in either byte order moved by at most 35, around the end of the range |
| DetTests.InterestMeans | MariaDB/docker/AFL/afl-fuzz.c:4931-4996 | the interesting-value test holds exactly if an interesting byte over one byte, or an interesting word over two, gives the value, or it is an interesting double word; which of these count for which widths |
| Redundancy.BitflipIsFlipInByte | MariaDB/docker/AFL/afl-fuzz.c:4820-4845 | on a byte the predicate holds exactly of what walking flips inside the byte produce |
| Redundancy.ArithIsNear | MariaDB/docker/AFL/afl-fuzz.c:4854-4876 | on a byte the predicate holds exactly within the arithmetic range, around the byte |
| Redundancy.NearIsReached | MariaDB/docker/AFL/afl-fuzz.c:5521-5552 | every value in that range is a sum or a difference of the stage |
| Redundancy.ReachedIsNear | MariaDB/docker/AFL/afl-fuzz.c:5521-5552 | and the stage forms no other |
| DetRuns.FlipBitsTwice | MariaDB/docker/AFL/afl-fuzz.c:5164-5168 | flipping the same bits twice restores the buffer |
| DetRuns.FlipInsideByte | MariaDB/docker/AFL/afl-fuzz.c:5164-5168 | what a walking flip inside a byte does to the buffer |
| DetCoverage.NothingLost | MariaDB/docker/AFL/afl-fuzz.c:5161-5797 | with arithmetic, each sum, difference and interesting byte at an effective byte was executed by some stage |
| DetCoverage.ArithCovered | MariaDB/docker/AFL/afl-fuzz.c:5508-5554 | a sum or difference skipped as a bit flip was executed by a flip |
| DetCoverage.InterestCovered | MariaDB/docker/AFL/afl-fuzz.c:5764-5797 | an interesting byte that was skipped was executed by a flip or by arithmetic |
| DetCoverage.FlipIsRun | MariaDB/docker/AFL/afl-fuzz.c:4820-4845 | what the predicate calls a bit flip was executed by a walking flip |
| DetCoverage.LostWithoutArith | MariaDB/docker/AFL/afl-fuzz.c:5764-5797 | without arithmetic, an interesting byte is lost exactly if it is near the old byte and no flip gives it |
| DetCoverage.LostExample | MariaDB/docker/AFL/afl-fuzz.c:5777-5783 | a file of one byte 5 is then never executed with the byte 16 |
| DetCoverage.CrossingFlip | MariaDB/docker/AFL/afl-fuzz.c:5266-5320 | a flip across a byte boundary changes two bytes |
| DetStages.DetFuzzer.WalkingBits | MariaDB/docker/AFL/afl-fuzz.c:5262-5322 | every run of two or four bits is flipped, executed and flipped back, in order |
| DetStages.DetFuzzer.WalkingBit | MariaDB/docker/AFL/afl-fuzz.c:5170-5259 | every bit is flipped, executed and flipped back, and exactly the tokens that the checksums of these executions show are handed over |
| DetStages.DetFuzzer.WalkingBytes | MariaDB/docker/AFL/afl-fuzz.c:5324-5414 | every byte is inverted and restored, and the effector map is exactly that of the checksums seen |
| DetStages.DetFuzzer.WalkingWords | MariaDB/docker/AFL/afl-fuzz.c:5416-5487 | words where the map allows, with an exact counter |
| DetStages.RuledOutIsInert | MariaDB/docker/AFL/afl-fuzz.c:5366-5384 | a byte that the map rules out kept the checksum, in a file that is not short |
| DetStages.ChangingIsEffective | MariaDB/docker/AFL/afl-fuzz.c:5336-5398 | a byte that changed the checksum, the first, the last and any byte of a short file are effective |
| DetPhase.EffectiveMeans | MariaDB/docker/AFL/afl-fuzz.c:5332-5335 | a stretch is effective exactly if one of its bytes is, and a byte exactly if its block of eight is |
| DetStages.DetFuzzer.ValueStage | MariaDB/docker/AFL/afl-fuzz.c:5501-5939 | each arithmetic or interesting-value stage executes exactly its candidates, gives the buffer back, and its counter is exact |
| DetStages.DetFuzzer.Arith8At | MariaDB/docker/AFL/afl-fuzz.c:5521-5554 | the 8-bit sums and differences at one position |
| DetStages.DetFuzzer.Arith16At | MariaDB/docker/AFL/afl-fuzz.c:5574-5648 | the 16-bit ones in both byte orders |
| DetStages.DetFuzzer.Arith32At | MariaDB/docker/AFL/afl-fuzz.c:5668-5740 | the 32-bit ones in both byte orders |
| DetStages.DetFuzzer.Int8At | MariaDB/docker/AFL/afl-fuzz.c:5764-5797 | the interesting bytes at one position |
| DetStages.DetFuzzer.Int16At | MariaDB/docker/AFL/afl-fuzz.c:5817-5865 | the interesting words in both byte orders, restored after the last one |
| DetStages.DetFuzzer.Int32At | MariaDB/docker/AFL/afl-fuzz.c:5885-5934 | the interesting double words in both byte orders |
| DetStages.DetFuzzer.OverwriteAt | MariaDB/docker/AFL/afl-fuzz.c:5960-6000 | tokens over one position without restoring in between: sortedness makes each the token over the input |
| DetStages.DetFuzzer.OverwriteStage | MariaDB/docker/AFL/afl-fuzz.c:5944-6005 | every fitting token over every position was executed or is what the input holds; buffer back, counter exact |
| DetStages.DetFuzzer.InsertStage | MariaDB/docker/AFL/afl-fuzz.c:6007-6054 | every token at every position where the result fits was executed, behind a head copied byte by byte |
| DetStages.LongerOverwrites | MariaDB/docker/AFL/afl-fuzz.c:5966-5970 | over a shorter token a longer one gives what it gives over the input |
| DetStages.DetFuzzer.Deterministic | MariaDB/docker/AFL/afl-fuzz.c:5161-6112 | the whole phase: buffer restored, effector map as specified; every flip, sum, difference, interesting value and inserted token executed at each effective place unless its own test rules it out, no byte value and no token missing, also none of those that the phase itself found and the dictionary kept |
| DetPhase.ChangesAreTried | MariaDB/docker/AFL/afl-fuzz.c:5161-5939 | the stages together execute each flip of bits and bytes, and each 16-bit and 32-bit sum, difference and interesting value in either byte order at each effective place, unless its own test rules it out |
| DetPhase.Candidates16 | MariaDB/docker/AFL/afl-fuzz.c:5574-5648 | the four 16-bit candidates are the value plus or minus the step, as it is or read in the other byte order |
| DetPhase.Candidates32 | MariaDB/docker/AFL/afl-fuzz.c:5668-5740 | the same for 32 bits |
| DetPhase.Skips16 | MariaDB/docker/AFL/afl-fuzz.c:5588-5640 | a sum is left out exactly if it does not carry, a difference if it does not borrow, or if it is taken for a bit flip |
| DetPhase.Skips32 | MariaDB/docker/AFL/afl-fuzz.c:5682-5732 | the same for 32 bits, where the lower half carries or borrows |
| DetStages.InsertsAreTried | MariaDB/docker/AFL/afl-fuzz.c:6007-6054 | every token is inserted at every position where the result fits |
| AutoExtras.AutoDictionary.MaybeAddAuto | MariaDB/docker/AFL/afl-fuzz.c:1803-1904 | rejected, counted, appended or put for an entry of the lower half; no token in use is dropped; the list stays bounded, of token sizes, distinct and sorted |
| AutoExtras.AutoDictionary.CollectByte | MariaDB/docker/AFL/afl-fuzz.c:5219-5257 | what is handed over up to this byte are the tokens of the suitable stretches so far, in order |
| AutoExtras.UsedStay | MariaDB/docker/AFL/afl-fuzz.c:1864-1902 | whatever is counted, appended or evicted, a used token stays in the list |
| AutoExtras.AddedMeans | MariaDB/docker/AFL/afl-fuzz.c:1855-1890 | afterwards the token is in the list, whatever its case, and the list is one longer exactly if it was not and there was room |
| AutoExtras.TokensAreStretches | MariaDB/docker/AFL/afl-fuzz.c:5219-5257 | a token is a longest stretch of bytes whose flips give one unusual checksum, of 3 to 32 bytes |
| AutoExtras.SortAuto | MariaDB/docker/AFL/afl-fuzz.c:1896-1902 | a permutation whose used part is sorted by size and holds the most used entries |
| AutoExtras.QSort | MariaDB/docker/AFL/afl-fuzz.c:1537-1549 | some sorted permutation under either comparison |
| AutoExtras.TestBuiltin | MariaDB/docker/AFL/afl-fuzz.c:1818-1838 | whether the token is an interesting value as the code compares it |
| AutoExtras.BuiltinIsInteresting | MariaDB/docker/AFL/afl-fuzz.c:1818-1838 | for tokens of 3 to 32 bytes the check finds exactly the interesting values in either byte order |
| AutoExtras.TwoByteMiss | MariaDB/docker/AFL/afl-fuzz.c:1818-1826 | for two bytes it would miss one |
| AutoExtras.TestExtras | MariaDB/docker/AFL/afl-fuzz.c:1844-1848 | looking at one stretch of the sorted list finds any match |
| AutoExtras.MemCmpNoCase | MariaDB/docker/AFL/afl-fuzz.c:1793-1798 | comparison without regard to case |
| AutoExtras.LowerMeans | MariaDB/docker/AFL/afl-fuzz.c:1793-1798 | two bytes are taken for the same exactly if they are, or are one letter as a capital and a small one |
| AutoExtras.Count | MariaDB/docker/AFL/afl-fuzz.c:1855-1890 | counted, appended, or put for an entry of the lower half; the list stays bounded, distinct and free of rejected tokens |
| AutoExtras.DistinctByPosition | MariaDB/docker/AFL/afl-fuzz.c:1855-1862 | no two positions of the list hold the same token, whatever the case |
| AutoExtras.DistinctCounted | MariaDB/docker/AFL/afl-fuzz.c:1859 | counting an entry keeps the list distinct |
| AutoExtras.DistinctAdded | MariaDB/docker/AFL/afl-fuzz.c:1866-1888 | so does adding a token that was not found |
| AutoExtras.FrontStaysAbove | MariaDB/docker/AFL/afl-fuzz.c:1896-1902 | sorting the used part by size leaves it the most used part |
| Trimmer.EntryTrimmer.WriteWithGap | MariaDB/docker/AFL/afl-fuzz.c:2536-2562 | the file written is the buffer without the gap |
| Trimmer.EntryTrimmer.Remove | MariaDB/docker/AFL/afl-fuzz.c:4584-4592 | the buffer becomes the file that was written |
| Trimmer.EntryTrimmer.TryRemove | MariaDB/docker/AFL/afl-fuzz.c:4563-4604 | a chunk goes exactly if the run was not aborted and kept the checksum; what is kept was executed |
| Trimmer.EntryTrimmer.Pass | MariaDB/docker/AFL/afl-fuzz.c:4556-4611 | one chunk size over the file ends and keeps this; without an abort each chunk went exactly if its removal, with the earlier chunks settled, kept the checksum |
| Trimmer.EntryTrimmer.Passes | MariaDB/docker/AFL/afl-fuzz.c:4540-4615 | all passes keep this and end; without an abort there is one for every chunk size from the first down to the last, each settling all its chunks |
| Trimmer.EntryTrimmer.TrimCase | MariaDB/docker/AFL/afl-fuzz.c:4526-4643 | a subsequence with its first four bytes, every accepted buffer executed with the recorded checksum, every chunk of every size settled, and when the disk is behind |
| Trimmer.FirstChunkMeans | MariaDB/docker/AFL/afl-fuzz.c:4547-4549 | the first chunk size is a sixteenth of the least power of two from the length up, but at least 4 |
| Trimmer.AbortAfterRemoval | MariaDB/docker/AFL/afl-fuzz.c:4563-4643 | a run after which the file on disk is behind |
| Trimmer.CutSubsequence | MariaDB/docker/AFL/afl-fuzz.c:4586-4592 | cutting a chunk out of a subsequence leaves a subsequence |
| HavocStage.HavocFuzzer.ChooseBlockLen | MariaDB/docker/AFL/afl-fuzz.c:4702-4739 | between 1 and the limit, and small in the first cycles |
| HavocStage.HavocFuzzer.CalculateScore | MariaDB/docker/AFL/afl-fuzz.c:4746-4810 | between 2 and 1600, by speed, coverage, handicap and depth; the handicap is used up |
| HavocStage.BitmapScoreRange | MariaDB/docker/AFL/afl-fuzz.c:4766-4774 | truncating the product by coverage never gives zero |
| HavocStage.SpeedBands | MariaDB/docker/AFL/afl-fuzz.c:4752-4762 | which multiple of the average time gives which score |
| HavocStage.CoverageBands | MariaDB/docker/AFL/afl-fuzz.c:4764-4772 | which multiple of the average coverage gives which share of it, fractions cut off |
| HavocStage.ScoreIsMonotone | MariaDB/docker/AFL/afl-fuzz.c:4752-4772 | a faster execution never scores less, nor does one that covers more |
| HavocStage.FirstCyclesMeans | MariaDB/docker/AFL/afl-fuzz.c:6128-6147 | the first plan is the share that the score pays for, rounded down, but at least 16 |
| HavocStage.StackSizes | MariaDB/docker/AFL/afl-fuzz.c:6159 | the height of a stack is a power of two from 2 to 128 |
| HavocStage.HavocFuzzer.RandomTweak | MariaDB/docker/AFL/afl-fuzz.c:6157-6533 | each roll does in place what its tweak does to the file, and nothing only if the file is too short or too long for it or the token does not fit |
| Tweaks.TweakMeans | MariaDB/docker/AFL/afl-fuzz.c:6157-6533 | what each tweak leaves, said of the bytes and words it concerns: moved by the number in either byte order, set, flipped, cut out, put in; all else as it was |
| HavocStage.HavocFuzzer.DeleteBytes | MariaDB/docker/AFL/afl-fuzz.c:6340-6363 | deletion leaves at least one byte |
| HavocStage.HavocFuzzer.CloneBytes | MariaDB/docker/AFL/afl-fuzz.c:6365-6413 | insertion builds head, block and tail in a new buffer within the size limit |
| HavocStage.HavocFuzzer.CopyBytes | MariaDB/docker/AFL/afl-fuzz.c:6415-6440 | overwriting with a chunk of the file or one byte |
| HavocStage.HavocFuzzer.InsertExtra | MariaDB/docker/AFL/afl-fuzz.c:6481-6531 | inserting a token within the size limit |
| HavocStage.HavocFuzzer.Mutate | MariaDB/docker/AFL/afl-fuzz.c:6153-6535 | a whole stack, whatever the dice say, each tweak one that some roll makes: never empty, never above the limit, never outside the buffer |
| Tweaks.StackKeepsSize | MariaDB/docker/AFL/afl-fuzz.c:6157-6535 | the same on files, for stacks of any height |
| Tweaks.XorByteChanges | MariaDB/docker/AFL/afl-fuzz.c:6331-6338 | the random byte change is never a no-op |
| HavocStage.HavocFuzzer.RestoreInput | MariaDB/docker/AFL/afl-fuzz.c:6540-6545 | the input again, with room for it |
| HavocStage.HavocFuzzer.Havoc | MariaDB/docker/AFL/afl-fuzz.c:6126-6561 | every execution is of a stack of tweaks of the input; plan and score double with every find until the score is above its limit, so that it stops: at least 16 and at most 32768 executions a round, counted exactly |
| HavocStage.ZeroNeverStops | MariaDB/docker/AFL/afl-fuzz.c:6550-6557 | a score of zero would never reach the limit, while two does after ten doublings |
| HavocStage.LocateDiffs | MariaDB/docker/AFL/afl-fuzz.c:541-562 | the first and the last position where two files differ |
| HavocStage.SpliceIsNew | MariaDB/docker/AFL/afl-fuzz.c:6638-6655 | a splice is never the current file, and the target only if cut at the first difference |
| HavocStage.HavocFuzzer.RetrySplicing | MariaDB/docker/AFL/afl-fuzz.c:6584-6659 | at most 15 attempts; a splice, cut between two differences, with another entry that is long enough and differs enough; every failed attempt found no such entry where it looked, and it only gives up after 15 or if there is nothing to splice |
| HavocStage.HavocFuzzer.FuzzRandomly | MariaDB/docker/AFL/afl-fuzz.c:6119-6663 | at most 16 rounds and 16 times 32768 executions, all of stacks of tweaks of the entry or of a splice of it; at least the planned ones on the entry first; it ends early only if there is nothing to splice |
| ForkServer.OneProcessAtMost | MariaDB/docker/AFL/afl-as.h:536-601 | in every interleaving at most one process exists, and none while the map is cleared or classified |
| ForkServer.WordsAreUnderstood | MariaDB/docker/AFL/afl-fuzz.c:2397-2441 | the word read as pid is the pid of this request, the word read as status that of the process with this pid |
| ForkServer.KillHitsCurrent | MariaDB/docker/AFL/afl-fuzz.c:6853-6867 | the timeout signal only hits the process of the current request, and the server only during startup |
| ForkServer.VerdictIsAboutRequest | MariaDB/docker/AFL/afl-fuzz.c:2432-2480 | the map classified holds what this request's process hit, and the verdict tells how it ended |
| ForkServer.TimeoutMeansTimer | MariaDB/docker/AFL/afl-fuzz.c:2472-2480 | a process that the timer killed is reported as a timeout; and only such a process is, as long as nothing else sends the kill signal |
| ForkServer.TimeoutNeedsTimer | MariaDB/docker/AFL/afl-fuzz.c:2290-2480 | a timeout is only reported if the timer went off within the request |
| ForkServer.FalseTimeout | MariaDB/docker/AFL/afl-fuzz.c:2472-2480 | a run in which a process killed by something else is reported as a timeout |
| ForkServer.StatusTellsEnding | MariaDB/docker/AFL/afl-fuzz.c:2472-2480 | the wait status tells exits from signals |
| ForkServer.NeverStuck | MariaDB/docker/AFL/afl-as.h:536-601 | the fuzzer or the server can always move whatever the process does, or the timer is set and ends the process waited for |
| ForkServer.HangingEnds | MariaDB/docker/AFL/afl-fuzz.c:2397-2480 | even if its process never ends by itself, every request can be brought to its end |
| ForkServer.RequestsEnd | MariaDB/docker/AFL/afl-fuzz.c:2290-2480 | every move but a new request and a hit brings the end of the request nearer |
| ForkServer.MoveKeepsInv | MariaDB/docker/AFL/afl-as.h:536-601 | every move of fuzzer, server, process and timer keeps the invariant that ties pipes, phases and process together |
| RandomGenerator.DeepCopy | MariaDB/docker/rsg/rsg.go:284-308 | new nodes only, holding the same tree, each with its new parent |
| RandomGenerator.GatherAllPathNodes | MariaDB/docker/rsg/rsg.go:267-282 | the nodes of the tree, parents first |
| RandomGenerator.FlatIsNodes | MariaDB/docker/rsg/rsg.go:267-282 | the list holds exactly the nodes of the tree |
| RandomGenerator.Prune | MariaDB/docker/rsg/rsg.go:890-891 | the tree with the choices at exactly one node given up, which is at a position of the tree |
| RandomGenerator.PrunedOnce | MariaDB/docker/rsg/rsg.go:890-891 | the position of that node: everything else is as before |
| RandomGenerator.StatementGenerator.Expand | MariaDB/docker/rsg/rsg.go:1243-3004 | a new node gets a rule and exactly one derivation per expandable item, and its words spell it; it never fails; what was cut short says its short form |
| RandomGenerator.StatementGenerator.Replay | MariaDB/docker/rsg/rsg.go:1269-3004 | a saved node keeps its rule and children, and fails exactly if it is doomed; what was cut short says its short form |
| RandomGenerator.StatementGenerator.GenerateMySQL | MariaDB/docker/rsg/rsg.go:1217-3005 | any tree: the result derives from the root, keeps every choice made before, and spells the words returned, which some run of choices explains item by item |
| RandomGenerator.StatementGenerator.RetrieveExisting | MariaDB/docker/rsg/rsg.go:342-368 | a fresh copy of a saved derivation |
| RandomGenerator.StatementGenerator.RetrieveExistingFav | MariaDB/docker/rsg/rsg.go:310-340 | a fresh copy of the first favourite, which leaves the list, or nothing |
| RandomGenerator.StatementGenerator.ChooseNode | MariaDB/docker/rsg/rsg.go:853-882 | the first node of a list of at most two, else some node, the first one only as a favourite |
| RandomGenerator.StatementGenerator.Generate | MariaDB/docker/rsg/rsg.go:824-934 | no existing node changes; from depth 0 up it never fails; a replay starts from a saved tree with the choices at exactly one node given up, the root only if the tree has at most two nodes or the root is a favourite, and replays all else |
| RandomGenerator.StatementGenerator.PrepareReplay | MariaDB/docker/rsg/rsg.go:853-893 | the copy of the saved tree with the choices at exactly one chosen node given up |
| RandomGenerator.StatementGenerator.IncrementSucceed | MariaDB/docker/rsg/rsg.go:141-180 | the tree is saved under its root, and as a favourite exactly if a chosen node was one |
| RandomGenerator.StatementGenerator.IncrementFailed | MariaDB/docker/rsg/rsg.go:182-195 | the tree is forgotten and the saved ones stay |
| RandomGenerator.StatementGenerator.GenerateStatement | MariaDB/docker/rsg/rsg.go:798-822 | the text of the words that the current tree spells, without two things that only the grammar knows, and a sound current tree of the requested root |
| RandomGenerator.ErasedMeans | MariaDB/docker/rsg/rsg.go:813-815 | erasing leaves the pieces between the occurrences from left to right, none of which holds one |
| GrammarTrees.PruningDerives | MariaDB/docker/rsg/rsg.go:890-891 | a pruned derivation is a derivation and makes no other choice |
| GrammarTrees.GrownByKid | MariaDB/docker/rsg/rsg.go:2956-2998 | one child per expandable item, in order, and the words of the items so far |
| GrammarTrees.ReplayedRoot | MariaDB/docker/rsg/rsg.go:2978-3004 | a replay that ends has kept the rule and every choice below it |
| GrammarTrees.DoomedExactly | MariaDB/docker/rsg/rsg.go:1297-1315 | with the depth used up, replay fails exactly if a token cut short comes before an item that needs its child |
| GrammarTrees.DoomedExample | MariaDB/docker/rsg/rsg.go:2979-2985 | a sound derivation for which it fails |
| GrammarRuns.AllDone | MariaDB/docker/rsg/rsg.go:1243-3004 | item by item: literals and words say themselves, a token cut short its short form, and a child what its own run says, one level deeper below a complex rule |
| GrammarRuns.GrowingDone | MariaDB/docker/rsg/rsg.go:1243-3004 | a new node ends with the rule it got and one child for each item that was expanded, none if it was cut short |
| GrammarRuns.FollowingDone | MariaDB/docker/rsg/rsg.go:1269-3004 | a saved node ends with its rule and what became of its children, none if it was cut short |

## Left out

- Processes, files, pipes, shared memory, signals and rlimits: executions are functions of the bytes executed; aborts, stops and new finds are arbitrary booleans.
- `hash32` and its collisions: a checksum is an uninterpreted function of the execution.
- Random-number distribution and wall-clock time: only the ranges of random choices matter; calibration gives an arbitrary speed and trace.
- 32-bit builds of the word loops, dumb, crash, persistent and post-processing modes, and resuming a session.
- The widths of counters and lengths, except where wrapping is proved away (the score product) or part of the algorithm (bytes, words and double words).
- The stop path of run_target, WIFSTOPPED, the MSAN exit code, and the previous-timeout word, which only persistent mode reads.
- FuzzQueue: entries are records in a table named by queue position, not heap objects, and a kept trace is a value; the linked list itself is on the heap.
- ForkServer: the assembly loop and run_target are the moves of one state machine over both sides, not two programs, so that every interleaving is covered.
- ForkServer.KillHitsCurrent: only processes of the model are covered; a pid that another program takes over between the server's waitpid and the moment the fuzzer forgets it is not.
- DetStages.DetFuzzer.WalkingBits: the flip stages for two and four bits are one method with the number of bits as parameter; likewise six value stages share one outer loop, and the two overwrite stages one method.
- Losslessness of the skips of 16-bit and 32-bit values: the tests are imprecise across byte boundaries (`CrossingFlip`), so it is stated that each value was executed unless its own test rules it out, and what the tests hold of.
- DetStages.DetFuzzer.InsertStage: the last head copy, which reads one byte past the input and is never used, is guarded away.
- RandomGenerator.StatementGenerator.GenerateMySQL: recursion is bounded by fuel, because the code does not bound it; every statement is about runs that end.
- RandomGenerator.StatementGenerator.IncrementSucceed: hit counts and reward scores of the rules are not kept, because the choice among rules is any choice.
- RandomGenerator.StatementGenerator.IncrementFailed: likewise, what remains is that the tree is forgotten.
- Edge coverage and the bandit choice: any rule of a symbol may be chosen, and any node may be a favourite.
- FuzzQueue.Fuzzer.Calibrate: the recorded checksum, variable bytes and novelty flags are left out; a calibration gives any speed and trace.
- The keyword-to-text tables of the generators are data; the generators for other dialects repeat the one modelled here.
- Calls of os.Exit and panic on grammars with symbols without rules: grammars have at least one rule per symbol.
- GrammarTranslator: upper-casing and the rewriting of the rule's name are parameters; the three texts of a node are kept as the words joined by blanks.
- Statistics, status screens, banners, option parsing, the database minimizer of the parse_report scripts, and second copies of the same algorithms.
