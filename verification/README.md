# Verified models of System V utilities

Dafny models of the algorithms in this source tree that carry the hardest properties, with proofs.

- `AwkRegex`, `AwkPositions`, `AwkPattern`: regular expressions as a language, the position automaton, and the proof that it accepts exactly the words it should. `AwkTree`: the tree passes of `b.c` that build it, over heap nodes with parent pointers and a shared bit vector. `AwkSubset`: the subset construction as values, and what a table of 32 states remembers of it. `AwkDfa`: that table, filled lazily in place. `AwkMatchSpec`: what a match is. `AwkMemory`: the three matchers as functions of what the table remembers. `AwkJudge`: what their answers mean. `AwkSmall`: when the table never overflows. `AwkMatch`: the matchers themselves. `AwkOverflow`: a pattern with too many states, and the wrong answers it gets. `AwkSubstitute`: global substitution as a function of the matches, and what a buffer lets through of it. `AwkGsub`: `gsub`. `AwkPlaces`: which places of a text it replaces. `AwkSimple`: what simple patterns find. `AwkSymtab`: awk's hash table of linked cells, as a finite map.
- `EdPattern`: patterns of the `regexp.h` matcher as lists of items, a match as a way of laying them end to end over the text, and the greedy choice among the matches. `EdTrouble`: which patterns can bring the matcher into trouble. `EdCode`: the byte code. `EdMatch`: `advance` and `step`, groups and back references included. `EdSyntax`: the written form of patterns. `EdCompile`: `compile`. `EdRegular`: which written patterns have code for their items. `EdSearch`: `compile` and `step` together. `EdSpoilt`: a pattern whose code says something else. `EdSimple`: what some simple patterns find, in numbers and bytes.
- `TextLines`, `BigFile`: the sparse line index, cursor and one-block buffer of `bfs`, and its line search.
- `UucpConversation`: two copies of `cntrl()` as a two-process step system over first-in first-out links. `UucpJobs`: what becomes of the jobs on the two work lists. `UucpData`: the two stream protocols that carry a file. `UucpRestart`: restarting broken transfers from a checkpoint, over either protocol.
- `Calendar`: dates and ordinal days across the change of calendar in 1752, both closed-form directions proved against counting.
- `Basics`: what several of these share.

Each method that follows a loop or an update of the program is proved against a specification function; the main results are about those functions, for all inputs, all runs or all histories of calls. The definitions that a specification shares with the code are in turn tied to numbers and bytes: leaves and operators (`AwkRegex.LeavesMatch`, `AwkRegex.StarMeans`), the places that are replaced (`AwkPlaces.ReplacesChosen`), intervals and brackets as they are written (`EdSimple.FindInterval`, `EdSimple.FindByte`), work lists (`UucpJobs.NoJobLost`), size limits (`UucpRestart.TooLargeWhen`) and dates (`Calendar.ChangeWeekdays`). Where the program does not meet what it is for, the model keeps the program, a lemma or contract says exactly when it does meet it, and another shows an input for which it does not:

- A full state table reuses slot 2; if the transition being computed left slot 2, the entry then recorded is wrong unless the new state is its own successor (`AwkDfa.Fa.Goto`). Only the scan that records such an entry can be misled, since the table is rebuilt before the next (`AwkMatch.PMatch`, `AwkMatch.NEMatch`, `AwkMatch.Match`). No sequence of calls overflows the table exactly when the position sets that texts reach, the empty one included, number less than 32 (`AwkSmall.NoOverflowWhenSmall`), and for such a pattern the contracts of the matchers and of `gsub` hold outright. `AwkOverflow.OverflowMisleads` is a run in which `pmatch` misses a match.
- After an overflow `initstat` is left at 2 and a later `makeinit` does not restore it (b.c lines 442 and 494), so a leading `^` is lost in later calls: the last call of `AwkOverflow.OverflowMisleads` misses `^` X for that reason. Inside `gsub` the search after an overflow starts with `^` allowed, in the middle of the text (`AwkGsub.Gsub`).
- `gsub` delivers its result whole exactly when it fits (`AwkSubstitute.WholeWhenFits`). A longer one is cut silently or refused, which `AwkSubstitute.Refused` decides from where the buffer fills, and one character of room is lost when text follows the last match (`AwkSubstitute.LastCharacterLost`).
- `compile` accepts an interval on a group, on a reference, or on an item that has one already; the code of a pattern is that of its items exactly when it has none of these (`EdRegular.UnspoiltWhen`, `EdCompile.Compile`). The pattern `a\{1\}\{2\}` is found in the text `a` (`EdSpoilt.DoubledIsFound`).
- `compile` counts closed groups but does not check which are closed, and lets a zero byte stand in a pattern. A pattern without such intervals is searched for to its end in every text exactly when it is safe (`EdSearch.SearchesSoundly`): a reference to a group still open, a starred reference to a group that can be empty, and a literal or list that the terminator passes must each come behind an item that matches nothing. `\(\(\)\1\)` reads the end of a group that has not got one (`EdSearch.OpenReferenceStrays`), and `\(a*\)\1*` never ends where no `a` stands (`EdPattern.EmptyGroupHangs`).
- An interval without upper bound stops 20000 repetitions above its lower bound. That is noticed exactly where more bytes stand in a row (`EdPattern.CapAllowsRun`), never in texts of up to 20000 bytes (`EdPattern.CapAllowsShortTexts`), and in a longer one by `EdPattern.LongRunMissed`.
- `bigread` reads past the end of a file whose last line has no newline. The line is stored rightly exactly when it is cut or the byte that the buffer shows there is a newline (`BigFile.ReadExactlyWhen`), and seen rightly also when that byte is a NUL (`BigFile.SeenExactlyWhen`), as it is right after the program has started (`BigFile.FirstReadOver`). `BigFile.CrossingExample` is a file whose last line is misread after any history of calls. It loses its place when it passes a line of 32768 bytes or more (`BigFile.Scanner.Seek`), until a far jump restores it.
- A line of 512 bytes or more fills the record of `bigread` without a terminator, so that `hunt` matches what lies in memory behind it as well. Whether a line matches does not depend on that memory exactly when it has at most 511 bytes, or a NUL within its first 512 (`BigFile.HitsByLineAlone`); `BigFile.LongLineMissed` is a line of 512 bytes that is found or not as the memory has it. A search from an address outside the file may run past the line where its first loop stops (`BigFile.StopsWhen`).
- Both receivers store `errno` after a short write, which does not set it. When it holds 0 and the last block was cut, they return success for a file that is too short, and the size check discards the file (`UucpRestart.PrefixKept`, met in `UucpRestart.ShortFileCaught`).
- The receiver opens a partial file with mode `a+`, which on this system (`usr/src/lib/libc/port/stdio/fopen.c:38-40`) makes every write go to the end of the file, whatever `lseek` has been asked for. The restart is right when writes go to the start point, and for an appending file as long as the receiver's disk does not fill up; otherwise a wrong copy can pass the size check (`UucpRestart.AppendingIsRightWhen`, `UucpRestart.WrongCopyPasses`).
- A slave that cannot create a temporary file makes the master abort (`UucpConversation.SettlesIffTempAvailable`, met in `UucpConversation.RefusedRun`).

`dafny verify dfyconfig.toml` checks the whole project.

## Model

| member | source | states |
|---|---|---|
| AwkRegex.LeavesMatch | usr/src/cmd/awk/b.c:706-711 | which characters of a text each leaf matches, in terms of the characters alone: those a class lists, those its complement does not, every one, one |
| AwkRegex.LeavesMark | usr/src/cmd/awk/b.c:706-711 | the terminator is read by a `$` only, and the marker by `^`, by ALL and by a class that lists it |
| AwkRegex.StarMeans | usr/src/cmd/awk/b.c:316-321 | the words of a star are the concatenations of any number of words of its operand |
| AwkRegex.PlusMeans | usr/src/cmd/awk/b.c:316-321 | those of a plus are the concatenations of one word at least |
| AwkRegex.QuestMeans | usr/src/cmd/awk/b.c:316-321 | those of a question mark are the concatenations of at most one |
| AwkRegex.CatMeans | usr/src/cmd/awk/b.c:322-324 | those of a concatenation are a word of the one followed by a word of the other |
| AwkRegex.NullableIsEmptyWord | usr/src/cmd/awk/b.c:302-333 | the answer 0 of `first` means exactly that the empty word is in the language of the subtree, empty classes included |
| AwkPositions.FirstReads | usr/src/cmd/awk/b.c:302-333 | for any rows that agree with a subtree and any set of positions after it, starting at the positions that `first` collects accepts exactly the words with a nonempty prefix in the subtree's language and a rest accepted afterwards |
| AwkPositions.EnterReads | usr/src/cmd/awk/b.c:302-366 | the same with the empty word allowed, which is what following a left sibling means |
| AwkPositions.RunIsAcc | usr/src/cmd/awk/b.c:387-394 | running the subset automaton over a word and looking for the accepting position is the same as following positions one at a time |
| AwkPositions.AgreesFrame | usr/src/cmd/awk/b.c:267-300 | rows outside a subtree's leaves do not matter to it, so filling the rows leaf by leaf is sound |
| AwkPattern.FullCompiles | usr/src/cmd/awk/b.c:101-110 | the rows that agree with ALL* r FINAL are the position automaton of r: the ALL leaf at 0 and the accepting leaf last |
| AwkPattern.UnanchoredAccepts | usr/src/cmd/awk/b.c:94-123 | started at the follow set of leaf 0 the automaton accepts exactly the words of ALL* r |
| AwkPattern.AnchoredAccepts | usr/src/cmd/awk/b.c:144-155 | with position 0 left out it accepts exactly the words of r |
| AwkPattern.HatAccepts | usr/src/cmd/awk/b.c:125-157 | the anchored state after HAT accepts exactly the words w with w or HAT w in r |
| AwkTree.EnterLeaves | usr/src/cmd/awk/b.c:159-182 | penter numbers the leaves left to right from poscnt on and makes every child point to its parent |
| AwkTree.CollectFirst | usr/src/cmd/awk/b.c:302-333 | first turns on exactly the first positions, keeps setcnt the number of bits on, and returns 0 exactly for nullable subtrees |
| AwkTree.CollectFollow | usr/src/cmd/awk/b.c:335-366 | follow, climbing parent pointers, turns on exactly the positions that can come after the node, and stops before it would climb past the root |
| AwkTree.ParentOccurs | usr/src/cmd/awk/b.c:342-364 | going from a node to its parent leads to the node whose followers determine its own |
| AwkTree.FillRows | usr/src/cmd/awk/b.c:267-300 | cfoll leaves rows that agree with the whole tree, each follow list in descending order, and touches no row outside the subtree |
| AwkTree.BuildRows | usr/src/cmd/awk/b.c:101-110 | from the tree of an expression to its position automaton |
| AwkSubset.NextStored | usr/src/cmd/awk/b.c:701-729 | the successor list is again a stored position set and has exactly the successor positions as elements |
| AwkDfa.Member | usr/src/cmd/awk/b.c:368-375 | member finds a character in a class exactly when the class lists it |
| AwkDfa.Reads | usr/src/cmd/awk/b.c:706-711 | the five-way test of cgoto holds exactly when the symbol is a word of the leaf |
| AwkDfa.MarkSuccessor | usr/src/cmd/awk/b.c:701-722 | after the marking loop the bits on are exactly the successor positions |
| AwkDfa.Fa.FindState | usr/src/cmd/awk/b.c:730-742 | the search finds a state with the same list if there is one, and finds state 1 for the empty list |
| AwkDfa.Fa.AddState | usr/src/cmd/awk/b.c:744-767 | a new state holds the successor list, is different from all older ones and has an empty row; older states stay |
| AwkDfa.Fa.Recycle | usr/src/cmd/awk/b.c:745-766 | a full table empties all but states 0 and 1 and reuses slot 2; if the transition came from slot 2 the entry recorded for it is wrong, and with it the table, exactly when the new state is not its own successor; a table that was wrong before is right again otherwise |
| AwkDfa.Fa.Goto | usr/src/cmd/awk/b.c:694-768 | cgoto returns the state holding the exact successor and changes what the table remembers exactly as the model of the table says; it overflows exactly when the table is full and no live state holds the successor; without an overflow older states and their entries stay, and an overflow leaves a wrong entry behind exactly when slot 2 was left for a state that is not its own successor |
| AwkDfa.Fa.MakeInit | usr/src/cmd/awk/b.c:125-157 | makeinit rebuilds states 0 to 2 and the state after HAT, trimmed of position 0 for anchored matching; whatever the table held, every transition in it is right afterwards |
| AwkSubset.TrimmedLists | usr/src/cmd/awk/b.c:144-155 | dropping the last entry of the two lists drops position 0 and nothing else |
| AwkSubset.StartsApart | usr/src/cmd/awk/b.c:125-157 | the start state and the one after HAT are not empty, and they are the same state exactly when HAT leads from the start to itself |
| AwkMatchSpec.PrefixesFindFactors | usr/src/cmd/awk/b.c:378-396 | some prefix of HAT text NUL ends with a word of r exactly when some factor of it is in r |
| AwkMatchSpec.AnchoredHit | usr/src/cmd/awk/b.c:409-431 | what the anchored automaton finds from an offset on is a match there, a NUL read at the end not being counted |
| AwkMatchSpec.HatHit | usr/src/cmd/awk/b.c:406-431 | the same at the first offset, where a leading `^` may match |
| AwkMatchSpec.ScannedMeans | usr/src/cmd/awk/b.c:411-427 | one scan from an offset ends with the length of the longest match there, or without one |
| AwkMemory.PMatchKeeps | usr/src/cmd/awk/b.c:398-449 | a call of pmatch leaves the start states where the next call looks for them, and either the table has overflowed or the next call starts as this one did |
| AwkMemory.SearchCounted | usr/src/cmd/awk/b.c:409-448 | the offsets whose scans record a wrong transition are no more than the wrong transitions of the call |
| AwkJudge.PMatchIsRight | usr/src/cmd/awk/b.c:398-449 | the outcome of pmatch, as a function of what the table remembers, against the language: an offset whose own scan records no wrong transition is judged rightly, whatever happened in earlier scans and calls |
| AwkJudge.NEMatchIsRight | usr/src/cmd/awk/b.c:451-502 | the same of nematch |
| AwkJudge.MatchMeans | usr/src/cmd/awk/b.c:378-396 | match, from any point of its loop on, finds a factor of HAT text NUL exactly when there is one, if it records no wrong transition |
| AwkSmall.NoOverflowWhenSmall | usr/src/cmd/awk/b.c:744-766 | no sequence of calls overflows the table exactly when the position sets that texts reach, and the empty one, number less than NSTATES |
| AwkSmall.ClosedCovers | usr/src/cmd/awk/b.c:694-768 | a set of position lists that holds the start lists and the empty one and is closed under reading a symbol covers everything that texts reach, so that counting such a set is enough |
| AwkSmall.MustOverflow | usr/src/cmd/awk/b.c:744-766 | otherwise there are texts whose matching, one after the other, overflows it |
| AwkSmall.PMatchStaysSmall | usr/src/cmd/awk/b.c:398-449 | pmatch of a small automaton visits only states that texts reach and does not overflow the table |
| AwkMatch.PMatch | usr/src/cmd/awk/b.c:398-449 | pmatch does exactly what the function of the table says. It finds the leftmost match and its longest length, `^` matching at the first offset only; a wrong transition can mislead only the scan, from one offset, that recorded it, and without one the answer is right. For an automaton that is small it is always right, without a proviso |
| AwkMatch.NEMatch | usr/src/cmd/awk/b.c:451-502 | nematch finds the leftmost offset with a nonempty match and its longest length, with the same proviso offset by offset, and without it for a small automaton |
| AwkMatch.Match | usr/src/cmd/awk/b.c:378-396 | match answers 1 exactly when some factor of HAT text NUL is in the language, unless this very call records a wrong transition; for a small automaton it never does |
| AwkMatch.MkDfa | usr/src/cmd/awk/b.c:94-123 | mkdfa compiles the tree and leaves an automaton that the matchers may use, with a right table that has visited only its start states |
| AwkOverflow.StatesApart | usr/src/cmd/awk/b.c:694-768 | characters that words tell apart lead from the start to different states, none of them its own successor on its character |
| AwkOverflow.ApartIsNotSmall | usr/src/cmd/awk/b.c:744-766 | a pattern that keeps 30 characters apart is not small, so that some calls overflow its table |
| AwkOverflow.CrowdCompiled | usr/src/cmd/awk/b.c:101-110 | the rows of the pattern AA|BB|...|^X with any number of alternatives |
| AwkOverflow.ProbeNotFound | usr/src/cmd/awk/b.c:398-449 | with 29 letters, a text of these letters and the last one again: the last scan overflows, takes the wrong transition it has recorded, and pmatch finds nothing |
| AwkOverflow.CaretLost | usr/src/cmd/awk/b.c:406-442 | the next call finds X at the beginning of a text and the one after that does not, because it starts in state 2 |
| AwkOverflow.CrowdMatches | usr/src/cmd/awk/b.c:398-449 | the two matches that are missed are leftmost-longest matches of the pattern |
| AwkOverflow.OverflowMisleads | usr/src/cmd/awk/b.c:94-449 | the failure is met: mkdfa and three calls of pmatch, the first and the third of which miss a match |
| AwkSubstitute.FirstUnique | usr/src/cmd/awk/run.c:1543-1607 | leftmost-longest determines the match, so the specification of gsub is a function of the language alone |
| AwkSubstitute.EmptyMatchIsFirst | usr/src/cmd/awk/run.c:1560-1578 | an empty leftmost-longest match is always at the offset tried first, which is why gsub may copy one character and go on |
| AwkSubstitute.ReplacingBySelf | usr/src/cmd/awk/run.c:1543-1612 | with `&` as the replacement the result is the text itself, whatever is found |
| AwkSubstitute.CountBounded | usr/src/cmd/awk/run.c:1562-1584 | the count is at most one more than the length of the text |
| AwkSubstitute.OverrunsBeyond | usr/src/cmd/awk/run.c:1563-1576 | a match that is copied past the end of the buffer makes the result longer than the buffer |
| AwkSubstitute.WholeWhenFits | usr/src/cmd/awk/run.c:1543-1613 | what is delivered is the whole result exactly when it fits: fewer than RECSIZE - 1 characters, or that many when the last match ends the text; any other result that is not refused ends with a match and is cut after RECSIZE - 1 characters |
| AwkSubstitute.HatsMatterLittle | usr/src/cmd/awk/run.c:1543-1607 | searches in which `^` may match again make no difference to a pattern whose leaves do not consume the marker |
| AwkSubstitute.LastCharacterLost | usr/src/cmd/awk/run.c:1602-1613 | a result of RECSIZE - 1 characters, which the buffer could hold, is always refused when text follows the last match, shown for every replacement of RECSIZE - 2 ordinary characters in one text |
| AwkGsub.Append | usr/src/cmd/awk/run.c:1563-1576 | the copying loop puts the replacement behind the buffer as far as it has room, or a match past its end exactly when one stands across it |
| AwkGsub.TakeTurn | usr/src/cmd/awk/run.c:1548-1607 | one turn of the loop keeps the buffer, the position and the count in step with the substitution; the buffer always holds all of the result so far or its first RECSIZE - 1 characters |
| AwkGsub.Gsub | usr/src/cmd/awk/run.c:1523-1623 | without a wrong transition: the result is exactly that of the substitution in which `^` may match again where the table had overflowed before, refused, cut or whole as the buffer decides, with the right count; it is what is wanted when the table does not overflow or the pattern has no `^`, and always for a small automaton |
| AwkSubstitute.OrdinaryStands | usr/src/cmd/awk/run.c:1563-1576 | characters of the replacement that are neither `&` (38) nor a backslash (92) stand for themselves |
| AwkSubstitute.MarksStand | usr/src/cmd/awk/run.c:1563-1576 | 38 stands for the match and 92 38 for 38; any other 92 stands for itself, and so does one at the end |
| AwkPlaces.ChosenIsOne | usr/src/cmd/awk/run.c:1543-1607 | there is at most one choice of places that are longest matches, apart from one another, no empty one directly behind a nonempty one, with every offset where a match begins accounted for: it begins a place, lies inside one, or has only an empty match directly behind a nonempty place |
| AwkPlaces.ChoiceExists | usr/src/cmd/awk/run.c:1543-1607 | and there always is one |
| AwkPlaces.ReplacesChosen | usr/src/cmd/awk/run.c:1543-1612 | what gsub is to compute is the text with exactly these places replaced and their number |
| AwkPlaces.DeliversChosen | usr/src/cmd/awk/run.c:1543-1613 | what it delivers is that text and that number exactly when there are no places, or when the text has fewer than 3071 characters, or that many and the last place ends the text |
| AwkPlaces.StarCount | usr/src/cmd/awk/run.c:1560-1607 | for the pattern `c*` the count is the number of maximal runs of c, plus the other characters that do not follow a c, plus one when the text does not end with c |
| AwkPlaces.StarExample | usr/src/cmd/awk/run.c:1560-1607 | `b*` by `-` in `abc` gives `-a-c-` and 3 |
| AwkSimple.CaretMatch | usr/src/cmd/awk/b.c:125-157 | `^` before a pattern without markers lets it match only where the marker stands |
| AwkSimple.DollarMatch | usr/src/cmd/awk/b.c:409-431 | `$` behind it lets it match only up to the end of the text |
| AwkSimple.LeafAnswers | usr/src/cmd/awk/b.c:398-449 | the right answer for a single leaf is the first character that it matches, with length 1 |
| AwkSimple.ClassFinds | usr/src/cmd/awk/b.c:706-711 | for a class that is the first character listed, and for its complement the first not listed |
| AwkSimple.LeafIsSmall | usr/src/cmd/awk/b.c:744-766 | the automaton of a single leaf never needs more than three states |
| AwkSimple.FindLeaf | usr/src/cmd/awk/b.c:94-449 | mkdfa and pmatch for a single leaf find that first character in every text, without a proviso |
| AwkSymtab.Hash | usr/src/cmd/awk/tran.c:236-245 | hash computes the 32-bit hash value of a name modulo the table size |
| AwkSymtab.HashOfThree | usr/src/cmd/awk/tran.c:236-245 | that value of a name of three characters, as an example: 961 times the first, 31 times the second, and the third |
| AwkSymtab.Table.Lookup | usr/src/cmd/awk/tran.c:270-282 | lookup finds the cell of the name if there is one in the table, and NULL exactly when there is none |
| AwkSymtab.Table.SetSymtab | usr/src/cmd/awk/tran.c:203-234 | as a finite map from names to cells: an existing entry is returned and nothing changes; otherwise exactly one entry, with the values given, is added, rehash included, and nelem stays the number of entries |
| AwkSymtab.Table.FreeElem | usr/src/cmd/awk/tran.c:178-201 | exactly the entry of the name is taken out, if there is one, and nelem stays the number of entries |
| AwkSymtab.Table.Rehash | usr/src/cmd/awk/tran.c:247-268 | every cell is moved in place into the chain of its new hash; the map does not change and the table is GROWTAB times as large |
| AwkSymtab.PopLinked | usr/src/cmd/awk/tran.c:258-263 | taking the head off a chain leaves well-formed chains of the remaining cells |
| AwkSymtab.BypassLinked | usr/src/cmd/awk/tran.c:188-199 | linking a cell to the successor of the next takes exactly that one out of its chain |
| EdPattern.BestTiles | usr/src/head/regexp.h:303-495 | the greedy search finds a match |
| EdPattern.BestIsPreferred | usr/src/head/regexp.h:484-491 | it finds one if there is any, and the one it finds goes further than every other at the first item where they differ |
| EdPattern.BestFinds | usr/src/head/regexp.h:303-495 | a greedy match from a position exists exactly when the pattern matches there |
| EdPattern.CapAllowsRun | usr/src/head/regexp.h:362-428 | for one open interval: stopping a given number of repetitions above the lower bound changes the ends it may have exactly when more bytes than that stand in a row |
| EdPattern.CapMatchesWhenShort | usr/src/head/regexp.h:498-503 | under such a limit a pattern matches exactly where it has a match whose open intervals stay below the limit |
| EdPattern.CapAllowsShortTexts | usr/src/head/regexp.h:498-503 | in a text no longer than the limit there is no difference |
| EdPattern.LongRunMissed | usr/src/head/regexp.h:498-503 | with the limit 20000, `a\{0,\}$` does not match 20001 times a |
| EdTrouble.SoundWhenSafe | usr/src/head/regexp.h:303-495 | the exact condition for a search that comes to its outcome at every place of every text: a reference to a group still open, a starred reference to a group that can be empty and a literal or list that takes a zero byte each come behind an item that matches nothing; otherwise a text that leads to the trouble is constructed |
| EdPattern.EmptyGroupHangs | usr/src/head/regexp.h:440-446 | for `\(a*\)\1*` the search does not end where no `a` stands: it compares copies of an empty text for ever |
| EdCode.TakesMeans | usr/src/head/regexp.h:316-352 | the code's test of a byte, bit maps of both sizes and negation included, is the meaning of the item, and the terminator passes it exactly when a zero byte is written, outside a negated list |
| EdMatch.RunStar | usr/src/head/regexp.h:454-482 | the loop of a starred operation stops one past the longest run |
| EdMatch.RunRange | usr/src/head/regexp.h:362-428 | the two loops of an interval stop one past the last end allowed, or find too few bytes |
| EdMatch.RunEnds | usr/src/head/regexp.h:362-491 | the ends those loops leave to try are exactly the ends the item may have |
| EdMatch.Matcher.Advance | usr/src/head/regexp.h:303-495 | for the code of any items: advance returns 1 exactly when the rest of the pattern matches from lp, with loc2 the end of the preferred match and braslist and braelist its groups, back references and starred references included; it fails to return, or reads a group that has no end or past the terminator, exactly when the greedy search does so before it comes to an outcome; a failed try disturbs no group already recorded |
| EdMatch.Matcher.Backtrack | usr/src/head/regexp.h:484-491 | trying the ends from the last to the first gives the greedy outcome |
| EdMatch.Matcher.RepeatReference | usr/src/head/regexp.h:440-452 | a starred reference tries every number of copies of the group's text, the most first, with the same outcome as the greedy search |
| EdMatch.Matcher.Refer | usr/src/head/regexp.h:430-438 | a back reference goes on past the text of its group or fails |
| EdMatch.FirstByte | usr/src/head/regexp.h:282-293 | a pattern that begins with a literal can only match where that byte is, which justifies the fast check |
| EdMatch.Matcher.Step | usr/src/head/regexp.h:270-301 | step returns 1 exactly when the pattern matches somewhere (or at the start, after a caret), loc1 being the first such place; it fails to do so exactly when, at the first place it does not pass over, advance does |
| EdCompile.TakeElem | usr/src/head/regexp.h:133-165 | one element of a bracket list: its bits are added, whatever the size of the map |
| EdCompile.TakeElems | usr/src/head/regexp.h:132-165 | a bracket list is read to its closing bracket, and the map has exactly the bits of the bytes it lists |
| EdCompile.TakeBracket | usr/src/head/regexp.h:118-186 | the code of a bracket list is the code of the class it is written for, complemented or not |
| EdCompile.TakeNumber | usr/src/head/regexp.h:213-222 | a number below 255 and its end mark are read; everything else is an error |
| EdCompile.TakeBraces | usr/src/head/regexp.h:207-241 | the two bounds of an interval are those written, with 255 for none |
| EdCompile.StarEmits | usr/src/head/regexp.h:106-110 | setting the STAR bit of the last operation makes the code that of the starred item |
| EdCompile.BracesEmit | usr/src/head/regexp.h:210-239 | setting the RNGE bits and appending two bytes makes the code that of the item with its interval |
| EdCompile.Compile | usr/src/head/regexp.h:46-268 | compile accepts a written pattern exactly when the room test of every one of its tokens succeeds, and rejects it with error 50 otherwise and with some error when it is not written in the accepted form; the code is given exactly for every accepted pattern, and it is that of the items the tokens add up to exactly when no interval stands on a group, on a reference, or on an item that has one already |
| EdSyntax.ReferenceToOpenGroup | usr/src/head/regexp.h:250-256 | a back reference to a group that is still open is accepted, since only the number of closed groups is checked |
| EdRegular.UnspoiltIsRegular | usr/src/head/regexp.h:87-262 | a written pattern without such intervals opens and closes its groups in order, once each, and refers to none before it is opened |
| EdRegular.UnspoiltWhen | usr/src/head/regexp.h:204-241 | exactly the patterns without such intervals have items that the code can be that of, and code of that length |
| EdSpoilt.DoubledCode | usr/src/head/regexp.h:204-239 | the code of `a\{1\}\{2\}`: `a` once and the opening of a group |
| EdSpoilt.DoubledIsFound | usr/src/head/regexp.h:46-301 | compiled and looked for in the text `a` it is found, where it does not match |
| EdSearch.Search | usr/src/head/regexp.h:46-301 | compile and then step, for every accepted pattern without such intervals: the first place where the items of the pattern match, the preferred match there and its groups, unless trouble is met before; a safe pattern meets none |
| EdSearch.SearchesSoundly | usr/src/head/regexp.h:270-301 | a search comes to its outcome in every text and from every start exactly when the pattern is safe |
| EdSearch.OpenReferenceStrays | usr/src/head/regexp.h:430-438 | at every place of every text, `\(\(\)\1\)` reads the end of a group that has not got one |
| EdSearch.HitsMean | usr/src/head/regexp.h:498-503 | in texts of up to 20000 bytes that is where the pattern matches without any limit on open intervals |
| EdSimple.FindInterval | usr/src/head/regexp.h:204-241 | for 0 <= m <= n < 255 written in decimal, compile and step find k times `a` exactly when k == m for `^a\{m\}$`, exactly when m <= k <= n for `^a\{m,n\}$`, and exactly when m <= k <= m + 20000 for `^a\{m,\}$` |
| EdSimple.IntervalMatches | usr/src/head/regexp.h:362-428 | that is when the items of such a pattern match |
| EdSimple.FindByte | usr/src/head/regexp.h:87-262 | compile and step on a text of one byte: a letter finds itself, a dot every byte, an escaped letter the byte it stands for, `[x-y]` the bytes from x to y, and `[^x-y]` the others |
| EdSimple.FindTwice | usr/src/head/regexp.h:187-262 | compile and step for `^\(a*\)\1$` find k times `a` exactly when k is even |
| TextLines.StartsAreLines | usr/src/cmd/bfs/bfs.c:237-251 | the line beginnings found by reading left to right are those of the lines cut at newlines |
| BigFile.Scanner.BigOpen | usr/src/cmd/bfs/bfs.c:220-268 | bigopen succeeds exactly when there are at most 32767 lines and memory for their lengths, and then the two tables describe the whole file; no table is indexed out of range |
| BigFile.Scanner.Seek | usr/src/cmd/bfs/bfs.c:290-303 | the cursor arrives at the line exactly when every line it passes has a length that fits its 16-bit cell, whether it walks forward, backward or from a segment; a jump of more than 32 lines arrives even when the cursor was lost |
| BigFile.Scanner.CopyLine | usr/src/cmd/bfs/bfs.c:310-332 | what is copied is exactly what the bytes of the file, and past its end those left in the buffer, fill a record with, across any number of blocks |
| BigFile.Scanner.BigRead | usr/src/cmd/bfs/bfs.c:281-332 | bigread stores, after any history of calls that has not lost its place, exactly the record that the file and the bytes left in the buffer determine, terminated or not, and keeps the cursor and the block buffer right |
| BigFile.ShortWraps | usr/src/cmd/bfs/bfs.c:245-247 | a length too great for its 16-bit cell leaves there what differs from it by a multiple of 65536 |
| BigFile.FillsLine | usr/src/cmd/bfs/bfs.c:310-332 | that record is the line, cut when it has 512 bytes or more, or, when its end is missed, the line and what follows it in the buffer |
| BigFile.TerminatedWhen | usr/src/cmd/bfs/bfs.c:314-327 | a record for a line with a newline is terminated exactly when the line has at most 511 bytes |
| BigFile.ReadExactlyWhen | usr/src/cmd/bfs/bfs.c:310-332 | a line is stored rightly exactly when it has its newline, is cut, or the byte that the buffer shows behind the end of the file is a newline |
| BigFile.SeenExactlyWhen | usr/src/cmd/bfs/bfs.c:310-332 | a short last line without a newline is seen rightly exactly when that byte is a newline or a NUL |
| BigFile.FirstReadOver | usr/src/cmd/bfs/bfs.c:287-332 | in every file shorter than a block and without a final newline, the last line is stored wrongly, but seen rightly, when it is the first line read |
| BigFile.CrossingMisread | usr/src/cmd/bfs/bfs.c:310-332 | a last line without a newline that crosses into the last block is seen rightly exactly when the byte one block before the end of the file is a newline or a NUL |
| BigFile.CrossingExample | usr/src/cmd/bfs/bfs.c:310-332 | a file of 600 bytes whose last line is misread whatever the buffer holds |
| BigFile.ReadLast | usr/src/cmd/bfs/bfs.c:220-332 | a run from the start of the program to the reading of a last line, with a buffer of zeros |
| BigFile.Scanner.Reopen | usr/src/cmd/bfs/bfs.c:335-348 | after ecomd nothing of the earlier file is left in use |
| BigFile.Scanner.Hunt | usr/src/cmd/bfs/bfs.c:971-1017 | hunt returns the first line in its search order that matches, what is matched being the line when it has at most 511 bytes and otherwise its first 512 bytes and the memory behind them, up to a NUL; when no line exceeds 32766 bytes and the last line has its newline or is cut |
| BigFile.HitsByLineAlone | usr/src/cmd/bfs/bfs.c:978-1004 | whether a line matches depends on the line alone, for every pattern, exactly when it has at most 511 bytes or a NUL among its first 512 |
| BigFile.LongLineSeen | usr/src/cmd/bfs/bfs.c:978-1004 | a line of 512 bytes or more hits when the pattern matches its first 512 bytes and what lies behind them |
| BigFile.ShortLineSeen | usr/src/cmd/bfs/bfs.c:978-1004 | a shorter one hits when the pattern matches the line |
| BigFile.LongLineMissed | usr/src/cmd/bfs/bfs.c:978-1004 | a line of 512 times `a` and a pattern for lines ending with `a`: found or not as the memory behind the array has it |
| BigFile.StopsWhen | usr/src/cmd/bfs/bfs.c:980-1005 | the first loop comes to the line where it stops exactly when the search does not begin beyond the end it moves towards |
| BigFile.FoundIsFirst | usr/src/cmd/bfs/bfs.c:1000-1014 | what the search finds is the line at some place of its order before which no line matches, or -1 when none does |
| BigFile.WrapsOnce | usr/src/cmd/bfs/bfs.c:980-1014 | with wrapping, every line is looked at exactly once and the start line last, from any start in either direction, each line being the next after the one before it, around the end of the file |
| BigFile.StaysBeyond | usr/src/cmd/bfs/bfs.c:980-1005 | without wrapping, exactly the lines strictly beyond the start are looked at, nearest first |
| UucpConversation.StepKeepsInv | usr/src/cmd/bnu/cntrl.c:234-1279 | every step of either process keeps the invariant over positions, roles and link contents, as long as temporary files can be created |
| UucpConversation.InvSafe | usr/src/cmd/bnu/cntrl.c:1294-1314 | in a state of the invariant rmesg has met no unexpected letter, no assertion about Role has failed, and at most one side can issue a request |
| UucpConversation.NeverStuck | usr/src/cmd/bnu/cntrl.c:503-570 | until both sides have returned, one of them can go on |
| UucpConversation.StepDecreases | usr/src/cmd/bnu/cntrl.c:234-250 | every step uses up work or a message |
| UucpConversation.ConversationEnds | usr/src/cmd/bnu/cntrl.c:234-1279 | in every run every state is safe, the run is bounded by the two work lists, and at its end both sides have returned 0, every file sent has been received in order, the work list of the first master is empty, and so is that of the other side if it may take the lead |
| UucpConversation.OutOfTempAborts | usr/src/cmd/bnu/cntrl.c:593-596 | the reply N4 makes the master abort at its very next step |
| UucpConversation.SettlesIffTempAvailable | usr/src/cmd/bnu/cntrl.c:581-604 | a run that cannot go on has settled exactly when no reply N4 was ever sent |
| UucpConversation.RefusedRun | usr/src/cmd/bnu/cntrl.c:593-596 | such a run exists for every master whose first job is to send a file: four states, with the rest of the work undone |
| UucpJobs.NoJobLost | usr/src/cmd/bnu/anlwrk.c:258-272 | in every run and for each side, the usable jobs of its work list are, in order, those it has taken, each asked for on the link or dropped in a step that refuses, and then those still on the list |
| UucpJobs.AllJobsDone | usr/src/cmd/bnu/cntrl.c:503-570 | when every choice is to go on and the run is over, the first master has sent the files of its send jobs and got those of its fetch jobs, in order, and if the other side may lead its jobs follow |
| UucpJobs.FirstMastersJobsDone | usr/src/cmd/bnu/cntrl.c:503-570 | when it does not lead, those are exactly the first master's jobs |
| UucpData.Drdblk | usr/src/cmd/bnu/dio.c:215-243 | a block is read in full, or up to the end mark, however Read cuts the stream |
| UucpData.Drddata | usr/src/cmd/bnu/dio.c:181-205 | drddata stores the sender's bytes as far as the disk takes them and consumes exactly them and one end mark, for every length; after a failed write it still drains the stream; the value returned is exactly what errno held after the short write, so that 0 goes unnoticed unless another block follows |
| UucpData.Dwrdata | usr/src/cmd/bnu/dio.c:143-168 | dwrdata sends the file from its position on and then the end mark |
| UucpData.ScannedNumeral | usr/src/cmd/bnu/eio.c:165-168 | the length message read back gives the length |
| UucpData.Ewrdata | usr/src/cmd/bnu/eio.c:139-192 | ewrdata sends the length of the rest of the file and then its bytes |
| UucpData.Erddata | usr/src/cmd/bnu/eio.c:203-248 | erddata stores the announced number of bytes, as far as the disk takes them, and consumes no more, for every way the stream is cut; a file over the limit or a failed write is still drained, and the value returned is exactly what errno held; with nothing lost and room enough it returns EFBIG and stores nothing exactly when n > 512 * ulimit or ulimit == 0, and otherwise stores all n bytes |
| UucpRestart.Attempt | usr/src/cmd/bnu/cntrl.c:447-484 | one transfer with both ends at the start point: what comes of it and what the partial file is afterwards; from scratch over protocol e, with nothing lost and room enough, it is refused as too large exactly when the file is longer than 512 * ulimit or ulimit is 0, and otherwise the copy is the source |
| UucpRestart.TooLargeWhen | usr/src/cmd/bnu/eio.c:218-232 | the same for every start point and both protocols, with the partial file unchanged when it is refused |
| UucpRestart.PrefixKept | usr/src/cmd/bnu/cntrl.c:836-891 | the partial file stays a prefix of the source and never shrinks; a transfer succeeds exactly when all arrives and fits, or the file was complete already; the size check discards the file exactly when the disk filled up unnoticed |
| UucpRestart.DeliversWhen | usr/src/cmd/bnu/cntrl.c:836-891 | a transfer from scratch delivers the file, as the conversation assumes of its data packets, exactly when nothing is lost and the receiver can take it all |
| UucpRestart.RestartsKeepPrefix | usr/src/cmd/bnu/cntrl.c:447-484 | after any number of broken transfers the partial file is a prefix of the source, and it is the source after a success |
| UucpRestart.AppendingKeepsPrefix | usr/src/cmd/bnu/cntrl.c:428-470 | the same for a file opened for appending, as long as the receiver's disk does not fill up |
| UucpRestart.AppendingIsRightWhen | usr/src/cmd/bnu/cntrl.c:785-836 | bytes sent from the start point and appended continue the file rightly, for every source, exactly when the file ended at the start point or nothing was written |
| UucpRestart.ShortFileCaught | usr/src/cmd/bnu/cntrl.c:874-891 | such a transfer: a file of more than one byte, a disk with room for one, and errno 0; the receiver returns success and the size check discards the file |
| UucpRestart.WrongCopyPasses | usr/src/cmd/bnu/cntrl.c:874-891 | three transfers, two of which ran out of disk and said so, give an appended file that passes the size check; it is wrong for every source whose first buffer does not repeat itself at the distance where the first transfer stopped |
| Calendar.SuccessorCounts | usr/src/cmd/bbh/dconv.c:49-78 | the day after a date exists and its ordinal is one larger, through 2 to 14 September 1752 |
| Calendar.ClosedFormCounts | usr/src/cmd/bbh/dconv.c:118-140 | to_day's closed form is the number of days before a year, counted year by year |
| Calendar.TablesCount | usr/src/cmd/bbh/dconv.c:49-78 | the three tables are the days before each month, counted month by month |
| Calendar.OrdinalMonotone | usr/src/cmd/bbh/dconv.c:91-148 | earlier dates have smaller ordinals |
| Calendar.ToDay | usr/src/cmd/bbh/dconv.c:91-148 | to_day is the counted ordinal of a date that exists in years 1 to 9999, and -1 for anything else |
| Calendar.DoLeap | usr/src/cmd/bbh/dconv.c:272-307 | doleap splits days into whole years and a rest, every fourth year from the given one being long |
| Calendar.Do100 | usr/src/cmd/bbh/dconv.c:316-338 | do100 does so when century years are short and the first year is long |
| Calendar.Do400 | usr/src/cmd/bbh/dconv.c:340-369 | do400 does so in the Gregorian calendar |
| Calendar.ToDate | usr/src/cmd/bbh/dconv.c:156-263 | for every day from 1 on to_date yields the date that exists and has that ordinal |
| Calendar.DateRoundTrip | usr/src/cmd/bbh/dconv.c:91-263 | to_date finds the very date that to_day numbered |
| Calendar.DayRoundTrip | usr/src/cmd/bbh/dconv.c:91-263 | to_day of the date found is the day again |
| Calendar.CountedFromTheStart | usr/src/cmd/bbh/dconv.c:91-148 | every date is reached from 1 January of year 1 in as many one-day steps as its ordinal says |
| Calendar.WeekGoesOn | usr/src/cmd/bbh/dconv.c:377-388 | the weekday advances by one from a date to the next, through the change of calendar |
| Calendar.ChangeWeekdays | usr/src/cmd/bbh/dconv.c:377-388 | day 1 is a Saturday, 2 September 1752 is day 639798 and a Wednesday, and 14 September the day after it and a Thursday |
| Calendar.LateWeekday | usr/src/cmd/bbh/dconv.c:377-388 | 1 January 2000 is day 730122 and a Saturday |
| Calendar.KnownDates | usr/src/cmd/bbh/dconv.c:91-148 | 29 February exists in 1700 and 2000 and not in 1800 and 1900; 3 to 13 September 1752 do not exist |
| Calendar.MonthsByKnuckles | usr/src/cmd/bbh/dconv.c:49-78 | the lengths of the months other than February in every year but 1752, by a formula without a table |
| Calendar.Februaries | usr/src/cmd/bbh/dconv.c:91-148 | the length of February in every year, from the century and the year within it |

## Left out

- AwkDfa.Fa.Goto: position lists are sequences, so their allocation, freeing and counts in front are not modelled, and `out` is boolean.
- AwkMatch.PMatch: what a scan that has recorded a wrong transition finds is given by `AwkMemory.ScanMem` only, as a function of what the table remembers, and not in terms of the language.
- AwkMatch.NEMatch: the same holds of its scans.
- AwkMatch.MkDfa: takes a parse tree; reparse, relex, cclenter and the cache of compiled expressions in makedfa are not modelled, nor are expressions of 254 leaves and more, which overrun the bit vector.
- AwkGsub.Gsub: the buffer is a sequence, so copying a long match past its end is modelled as the refusal that follows, not as what it overwrites; after a wrong transition in the table nothing is said of the result. The pattern is compiled already, and the byte read in front of the text is not modelled. sub would add the first turn of gsub only.
- AwkSymtab.Table.SetSymtab: memory does not run out, and the name is not NULL; freesymtab and the conversions of values (setfval, getsval and the rest of tran.c) would add easy members only.
- Awk text and patterns use symbols 1 to 127: the table has no row entries for bytes from 128 up.
- EdCompile.Compile: the code buffer is a sequence and the input a line with newlines past its end; writes one byte past `endbuf` that precede the "too long" error, and the reading past a terminator after a trailing backslash, are not modelled. Bytes are unsigned, and numbers in intervals are unbounded.
- EdMatch.Matcher.Advance: for code that is that of some items, which the code of a pattern with a second interval on an item need not be; `locs` is null. Its contract ends where trouble is met: what a reference to an open group reads, and what lies behind the terminator, is not modelled.
- EdMatch.Matcher.Step: the same code only; `EdRegular.UnspoiltWhen` says which patterns have it.
- EdMatch.RunRange: one loop stands for the four of the program that differ only in the test of a byte.
- BigFile.Scanner.BigOpen: opening and reading the file do not fail; memory is a number of cells.
- BigFile.Scanner.Hunt: the pattern is a predicate on the text of the record, and the memory behind the record an arbitrary string for each line; nothing is said of files with a line too long for its cell or with a short last line that lacks its newline. The model requires the search to begin where `BigFile.StopsWhen` says that its first loop stops, and inside the file.
- The editing commands of bfs are left out: they would add easy members around bigread.
- UucpConversation.ConversationEnds: permissions, file names, mail, logging and switchRole() are arbitrary choices; the links lose nothing and lseek succeeds. The XUUCP letter, the repeated rmesg tries after a long file, the size check and cleanup for lack of space are not part of this step system. The opening handshake of startup is left out.
- UucpData.Drddata: reading from the link leaves errno alone; a write that takes nothing sets it to some number other than 0.
- UucpData.Ewrdata: alarms and failed link writes become a link that delivers only a part.
- UucpRestart.Attempt: the source file does not change between transfers, and BUFSIZ is 1024.
- Calendar.DayRoundTrip: holds up to the last day of the year 9999, where to_day stops.
- The accounting merge, the work-list insertion and its bookmark, and the error-log update (acctmerg.c, anlwrk.c, hdelogger.c) are not part of this model.
- Terminals, modems, signals and process control are replaced by byte sequences, links and arbitrary steps.
