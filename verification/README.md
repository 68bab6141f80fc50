# Verified models of the differ, the merger and the delta coder

This project models, in Dafny, the algorithmic core of the CVSNT repository and proves what
its comments and documentation promise:

* **The line differ** (`diff/analyze.c`, `diff/io.c`): the linear-space O(ND) comparison with its
  heuristics, from two texts to an edit script. `DiffText.DiffTexts` puts everything together:
  equivalence classes, common ends, discarding, comparing, shifting, the script, and unified
  hunks with which the patch utility would make the second file of the first.
* **Its printers** (`diff/ed.c`, `diff/context.c`): ed commands with lone dots escaped, judged by
  a model of the ed utility, and unified hunks, judged by a model of patch.
* **The three-way merge** (`diff/diff3.c`): two threads of blocks are woven into one, a merged file
  is streamed from it, and an ed script is printed. The comment that both have the same effect
  is turned into a theorem that says exactly when they have. `Diff3Files.MergeTexts` states the
  laws of merging on three texts, the two runs of the differ included.
* **The binary delta** (`cvsdelta`): rolling checksums, a growing hash index, matches extended
  both ways, a variable-length control stream, and the interpreter that rebuilds the file.
* **Two small cores**: reference-counted handles (`cvsapi/cvs_smartptr.h`) and the UTF-8 codec
  (`cvsapi/cvs_string.h`, in the forms of section 2 of RFC 2279).

Code that works by changing arrays and fields is modelled that way, with classes, arrays and
loops, and each method is tied to a specification whose properties are proved beside it.

## How the files hang together

| files | subject |
|---|---|
| `EditGraph`, `Diagonals`, `Diag` | shortest edit scripts; what one round of the search knows; `diag` itself |
| `Flags`, `CompareSeq`, `Discard`, `Shift`, `Script`, `Analyze` | change flags, and everything that sets, moves and reads them |
| `Text`, `Equivs`, `IdenticalEnds`, `CodedLines`, `FewestLines`, `DiffText`, `EdText` | lines, their classes, common ends, and the differ on whole texts |
| `EdUtility`, `EdWriting`, `EdScript`, `HunkShape`, `Context` | ed and patch as interpreters, and the printers |
| `Diff3Blocks`, `UsingToBlock`, `Make3Way`, `Diff3Kinds`, `ThreadFlags` | two-way and three-way blocks, how the one become the other, and what their types tell |
| `Diff3Merge`, `Diff3Shown`, `Diff3Laws`, `Diff3EdSpec`, `Diff3EdRun`, `Diff3Ed`, `Diff3Files` | the merged file, its lines and laws, the ed script against it, and the merge of three texts |
| `Checksum`, `BlockIndex`, `DeltaFormat`, `ByteArrays`, `CvsDelta` | the delta coder and its format |
| `SmartPtr`, `Utf8` | handles; the codec |
| `Wrappers` | a value that may be absent; the smaller and the larger of two numbers |

`dafny verify dfyconfig.toml` checks all of it.

## Where the code differs from what is said about it

* The comment before `output_diff3_merge` (`diff/diff3.c:1813-1817`) says that it acts like ed run
  with the script. It does so exactly when two things hold. No block in which only OLDFILE
  differs is to be shown: the merge no longer treats such a block as a conflict
  (`diff/diff3.c:1856`), the script does (`diff/diff3.c:1727`). And a command that removes
  doubled dots does no harm beyond the conflict it belongs to. It counts OLDFILE's lines
  even where they are not printed (`diff/diff3.c:1754-1757`), and so reaches that many
  lines of the merged file after the conflict; there must be as many, and none of them may
  begin with a dot. `Diff3Ed.EdGivesMerge` proves both directions;
  `Diff3Ed.SameChangeIsMarked` and `Diff3Ed.DotsReachTooFar` give inputs for which the two differ.
* The comments on the types of blocks (`diff/diff3.c:90-93`) say which files differ. That is so
  exactly if neither two-way diff could do without the blocks that came together
  (`Diff3Kinds.TypeTells`), in particular for shortest two-way diffs (`Diff3Kinds.ShortestTell`).
  `make_3way_diff` does not see to it for other valid threads: `Diff3Kinds.OlderNeedNotDiffer` gives
  two, which the differ does not find, since their files are equal. The differ is not asked for
  shortest diffs (`diff/diff3.c:1366-1397`), but in its default mode it finds them for texts that
  are easily compared (`FewestLines.EasilyCompared`), and then `Diff3Files.Diff3Texts` has every type true.
* Assigning a handle to itself takes it off its stub without counting that
  (`cvsapi/cvs_smartptr.h:71`, `cvsapi/cvs_smartptr.h:93-97`). `SmartPtr.Handle.Assign` states that the
  counts stay right exactly if the other handle is another one, or there is nothing to count.
* Characters from 0x80000000 on are written as question marks, so the codec gives back exactly
  the strings that have none (`Utf8.RoundTrip`). That is so where `wchar_t` is an unsigned type
  of 32 bits, which is what is modelled; where it is signed, such characters are negative and
  take the first branch (`cvsapi/cvs_string.h:226`), which writes their lowest byte.
* The comment inside `find_hunk` speaks of a threshold of twice the context; the code takes one
  more (`diff/context.c:377-379`). Hunks that touch become one by that; that they do not overlap
  and that patching with them works does not depend on it.
* The comment in `find_identical_ends` says that one extra line is always kept out of the suffix;
  the code does that only if the suffix does not begin at a line (`diff/io.c:563-569`).

## Model

| member | source | states |
|---|---|---|
| `EditGraph.CostIsLowerBound` | diff/analyze.c:76-106 | No sequence of moves through the edit graph has fewer insertions and deletions than the distance that `Cost` defines. |
| `EditGraph.CostIsAttained` | diff/analyze.c:76-106 | Some sequence of moves has just as many, so the distance is that of a shortest script. |
| `EditGraph.CostParity` | diff/analyze.c:123-186 | Distances along one diagonal all have the parity of the diagonal; rounds may skip every second diagonal, and both searches meet only in rounds of the right parity. |
| `EditGraph.Triangle` | diff/analyze.c:393-398 | Going by way of any point in between is never shorter. |
| `EditGraph.PointOnRoute` | diff/analyze.c:129-186 | A shortest way has, for every number of edits up to its length, a point that many edits from the start and the rest from the end. |
| `EditGraph.KeepFirst` | diff/analyze.c:354-356 | Leaving off equal first lines does not change the distance. |
| `EditGraph.KeepLast` | diff/analyze.c:357-359 | Leaving off equal last lines does not change the distance. |
| `EditGraph.TrimmedBoxCostsTwo` | diff/analyze.c:377-383 | If first and last lines differ and no range is empty, the distance is at least two; hence the abort for a cost of one. |
| `Diagonals.ForwardStep` | diff/analyze.c:139-151 | From the furthest points of the neighbouring diagonals, an edit and a snake lead to the furthest point that one edit more can reach. |
| `Diagonals.BackwardStep` | diff/analyze.c:166-178 | The same from the other end, with the earliest points. |
| `Diagonals.Meeting` | diff/analyze.c:152-185 | When entries of both searches pass each other on a diagonal, the rounds add up to the distance and the point lies on a shortest way. |
| `Diagonals.ApartMeansLonger` | diff/analyze.c:129-186 | As long as no entries have met, the distance is at least two more than the rounds so far. |
| `Diagonals.SplitHalves` | diff/analyze.c:152-185 | A point where the searches meet splits the box into two whose distances add up to the whole distance. |
| `Diagonals.ReadInRound` | diff/analyze.c:135-139 | Every diagonal that a round reads holds an entry of the round before, or a sentinel where nothing can be reached. |
| `Diag.Comparison.ForwardRound` | diff/analyze.c:134-159 | A forward round fills in the furthest points for one edit more, inside the arrays, or finds where the searches meet. |
| `Diag.Comparison.BackwardRound` | diff/analyze.c:161-186 | The same for a backward round. |
| `Diag.Comparison.BigSnakeForward` | diff/analyze.c:199-236 | Of the forward entries that have come more than twelve times as far as their cost allows for and end in a snake of twenty lines inside the box, the point of the one that has come furthest is taken; if none is found there is none; the point is no corner and costs no more than the rounds so far. |
| `Diag.Comparison.BigSnakeBackward` | diff/analyze.c:238-271 | The same for the backward entries that begin such a snake. |
| `Diag.Comparison.BestForward` | diff/analyze.c:283-296 | The forward point chosen when the search gets too expensive has the largest x + y of all entries moved back into the box; it is no corner, and costs no more than the rounds so far. |
| `Diag.Comparison.BestBackward` | diff/analyze.c:298-311 | The backward point has the smallest x + y, likewise. |
| `Diag.Comparison.Diag` | diff/analyze.c:107-331 | Terminates with a midpoint inside the box for every way it can end; with `minimal` set it returns the length of a shortest script, and the halves' distances add up to it; without, it does the same unless the search went on for `too_expensive` rounds, or for more than 200 with the heuristic on; cut short, it returns an odd number below the distance, and the half it marks as minimal costs at most half of that, rounded up; the cost is never one. |
| `Diag.RootIsClose` | diff/analyze.c:949-955 | The bound on the rounds, where it is above 256, is more than the square root of the number of lines and at most twice that. |
| `CompareSeq.SolvedHalves` | diff/analyze.c:393-398 | Flags that solve both parts of a partition solve the whole, and with least flags if both parts are solved so and the partition is minimal. |
| `CompareSeq.Comparer.CompareSeq` | diff/analyze.c:347-400 | For every midpoint that can come back, the unflagged lines of both ranges are left equal in number and pairwise in code, and nothing outside is touched; there are as few flags as possible with `minimal`, and also without if the distance of the ranges is below twice `too_expensive` (and below 402 with the heuristic on); the abort is not reached. |
| `Discard.MarkLines` | diff/analyze.c:454-482 | A line is marked for discard if and only if its nonzero code does not occur in the other file, and provisionally if and only if it occurs there more often than five times an approximate square root of the number of lines over 64. |
| `Discard.CancelLongSubruns` | diff/analyze.c:545-554 | The loop that backs up its index terminates, and cancels exactly those provisional discards of the run that are in a subrun of at least the minimum. |
| `Discard.SettleProvisional` | diff/analyze.c:484-594 | A provisional discard survives if and only if it is in a run, from the first permanent discard of a stretch to the last, of which at most a quarter is provisional, in no subrun as long as the threshold, and separated from either end by three permanent discards in a row or one at least eight lines in; nothing else changes. |
| `Discard.AbsentAreDiscarded` | diff/analyze.c:454-482 | Every line whose nonzero code is absent from the other file is discarded, and no line that was not hashed is. |
| `Discard.ProvisionalInRun` | diff/analyze.c:484-594 | A discarded line that does occur in the other file occurs there very often, and lies between two that do not, in one run and in a subrun shorter than the threshold. |
| `Discard.RareAreKept` | diff/analyze.c:457-482 | If no line occurs more than five times in the other file, only lines that are absent from it are discarded. |
| `Discard.RootIsClose` | diff/analyze.c:468-471 | The approximate square root that multiplies the five is at most the square root, and more than half of it. |
| `Discard.DiscardLines` | diff/analyze.c:596-611 | `realindexes` lists exactly the lines that are not flagged, in increasing order, and the codes are theirs. |
| `Discard.KeptUndiscarded` | diff/analyze.c:596-611 | What the flags of a file leave over is what those of the undiscarded lines leave over. |
| `Shift.SlideBackKeeps` | diff/analyze.c:683-688 | Moving a run back by a line with the code of its last keeps the codes left over and the number of flags. |
| `Shift.SlideForwardKeeps` | diff/analyze.c:704-709 | The same for moving it forward. |
| `Shift.Settles` | diff/analyze.c:693-725 | If a run can go no further back than one place and no further forward than another, the last place in between next to a run of the other file is the last it can slide to at all. |
| `Shift.Shifter.StepBack` | diff/analyze.c:683-691 | One step back, with all runs it merges with, keeps the pairing, and stays between the sentinels. |
| `Shift.Shifter.StepForward` | diff/analyze.c:704-712 | The same for one step forward; it remembers the last place with a run in the other file. |
| `Shift.Shifter.Return` | diff/analyze.c:716-725 | Moving back to `corresponding` terminates, keeps the pairing, and leaves the run at the last of all places it can slide to, line by equal line, that is next to a run of the other file; if none of them is, as far forward as it goes. |
| `Shift.Shifter.ShiftFile` | diff/analyze.c:638-727 | Keeps the codes left over and the number of flagged lines, stays within the sentinels, terminates, and leaves every run at the last place next to a run of the other file that it can slide to, or as far forward as it goes if there is no such place. |
| `Script.ScriptIsUnique` | diff/analyze.c:738-824 | Flags admit only one list of maximal changes in order, with equally many unchanged lines of both files in between. |
| `Script.ApplyGivesOther` | diff/analyze.c:738-824 | Making the changes of such a list turns file 0 into file 1. |
| `Script.SizeIsFlags` | diff/analyze.c:738-824 | The changes delete and insert as many lines as are flagged. |
| `Script.BuildReverseScript` | diff/analyze.c:756-787 | Yields that list, last change first. |
| `Script.BuildScript` | diff/analyze.c:794-824 | Yields that list, first change first. |
| `Analyze.BothStylesAgree` | diff/analyze.c:756-824 | One is the reverse of the other. |
| `Analyze.DistanceIsLeast` | diff/analyze.c:76-106 | No flags that match the two files are fewer than the distance. |
| `Analyze.DistanceIsReached` | diff/analyze.c:76-106 | Some flags that match the two files are as few as the distance. |
| `Analyze.LeftOutCostsNothing` | diff/analyze.c:414-615 | If only lines are discarded that are absent from the other file, those lines and the distance of the others are no more than the distance of the whole files. |
| `Analyze.RareAndClose` | diff/analyze.c:944-961 | In the default mode, the search is exhaustive for files in which no line occurs more than five times in the other and whose distance is below 512, or below 402 with the heuristic on. |
| `Analyze.DiscardOne` | diff/analyze.c:414-615 | The lines compared are exactly those whose final mark is clear, or all if discarding is switched off. |
| `Analyze.ShiftBoundaries` | diff/analyze.c:629-728 | After shifting both files, the flags still match, and there are as many. |
| `Analyze.FlagChanges` | diff/analyze.c:944-961 | The flags match the two files. If the lines that are compared are close enough for the search not to be cut short, or nothing is to be discarded, there are exactly as many as lines are discarded plus the distance of the lines that are compared. |
| `Analyze.DiffFiles` | diff/analyze.c:926-976 | The script turns one file into the other, whatever the heuristics do; it has just that number of lines if the search is not cut short; it is a shortest one if moreover no line is discarded that occurs in the other file, or nothing is to be discarded; for equal files it is empty. |
| `Equivs.AddClass` | diff/io.c:341-351 | A new class in front of its bucket keeps all buckets chained from newest to oldest. |
| `Equivs.Table.Grow` | diff/io.c:343-345 | Doubling the table keeps all classes. |
| `Equivs.Table.Search` | diff/io.c:338-366 | Finds the class of a line if there is one, through hash collisions, and otherwise tells that there is none. |
| `Equivs.Table.ClassOf` | diff/io.c:321-366 | Gives a line its class, the one it has or a new one, different from all others. |
| `Equivs.SameCodeSameLine` | diff/io.c:227-382 | Two lines of either file have the same code if and only if their bytes and their missing newlines are the same. |
| `Equivs.FindAndHashEachLine` | diff/io.c:227-382 | Every line between the common ends is found and numbered; a last line without its newline is told from one with it. |
| `IdenticalEnds.PrepareTextEnd` | diff/io.c:428-448 | The text ends in a newline afterwards, and it is remembered if one was added. |
| `IdenticalEnds.FindPrefix` | diff/io.c:480-535 | The common beginning is the same in both files, and holds an added newline only if it was added to both; it goes as far as the files agree, back to the beginning of a line, and over the horizon. |
| `IdenticalEnds.FindSuffix` | diff/io.c:537-579 | The common end is the same in both files, begins at a line in both, and does not overlap the common beginning in either; it begins where the files begin to agree, or where both begin a line after that, less the horizon. |
| `IdenticalEnds.PrefixLinesInSlots` | diff/io.c:611-631 | The slots, used round and round, hold the newest lines of the prefix. |
| `IdenticalEnds.Rotate` | diff/io.c:643-650 | Moved to their places, they are the last lines of the prefix in order. |
| `IdenticalEnds.PrefixLines` | diff/io.c:594-650 | `linbuf[-n..-1]` are the last n lines of the prefix, whether all are kept or only as many as the context. |
| `DiffText.LinesJoin` | diff/io.c:227-382 | Texts cut at a line beginning are cut into the same lines as a whole. |
| `DiffText.RealParts` | diff/io.c:428-579 | The lines of a file, missing newline included, are those of its beginning, its middle and its end. |
| `DiffText.FindIdenticalEnds` | diff/io.c:452-579 | Both ends are byte for byte the same, on line boundaries, as long as that allows less the horizon, and do not overlap, whether missing newlines count or not. |
| `FewestLines.WholeDistance` | diff/io.c:452-579 | The distance of two files is that of what lies between their common beginning and end. |
| `FewestLines.FewestOfAll` | diff/analyze.c:840-976 | A script that is shortest for the codes in between is shortest for the lines of the whole files. |
| `FewestLines.EasyIsExhaustive` | diff/analyze.c:840-976 | Texts of which no line occurs more than five times in the other, and which few enough deletions and insertions make the same, are searched exhaustively in the default mode, wherever their common ends are cut off. |
| `DiffText.ScriptOfTexts` | diff/analyze.c:840-976 | The script found for two texts is one for all of their lines, empty for equal texts, and a shortest one if the lines between the common ends are searched exhaustively; without discarding they always are, and in the default mode at least for texts that are easily compared. |
| `DiffText.DiffTexts` | diff/analyze.c:840-976 | For any two texts, patching the first with the hunks gives the second, line by line, with or without newlines at the ends; the hunks have the context asked for; without discarding, and in the default mode for texts that are easily compared, no other pairing of equal lines leaves fewer lines of the whole texts to delete and insert. |
| `CodedLines.KeptLines` | diff/io.c:37-48 | If the codes left over are the same, so are the lines. |
| `Context.FindHunk` | diff/context.c:356-390 | The changes of a hunk are closer than the threshold and the next one is not; the abort over unequal gaps is not reached. |
| `Context.HunkIsWidened` | diff/context.c:279-285 | With context added, a hunk neither runs into the hunk before or after it nor past the ends of the files unevenly. |
| `Context.UnidiffNumberRange` | diff/context.c:232-254 | A header gives the number of lines of a range and the number of lines before it, for a range of no lines too. |
| `Context.PrUnidiffHunk` | diff/context.c:256-354 | The ' ' and '-' lines are exactly the range of file 0, the ' ' and '+' lines exactly that of file 1, the header counts them, and they come in the order of the changes: context, and of each change the deleted lines before the inserted ones. |
| `HunkShape.ShapeIsFramed` | diff/context.c:279-353 | Changes that are near each other make a hunk that begins with the unchanged lines before the first and ends with those after the last, with no longer stretch in between than the widest gap. |
| `Context.HunkInContext` | diff/context.c:279-285 | What is printed of a hunk begins with as many unchanged lines as the context, or as either file has before the first change, and ends likewise. |
| `Context.PatchedIsOther` | diff/context.c:256-354 | Hunks that fit one after the other make, by patching, the other file. |
| `Context.PrintContextScript` | diff/util.c:535-564 | For every script of the whole of two files and every width of context, patching file 0 with the printed hunks gives file 1, and they delete and insert as many lines as the script. Each hunk begins and ends with as many unchanged lines as asked for or as there are, has no more than twice as many in a row in between, and its changes are more than twice as many unchanged lines from those of the next hunk, in either file. |
| `Context.FindScript` | diff/analyze.c:926-976 | The script that the differ finds, with common beginnings and ends of any length, is one for the whole of two files, its changes are separated by lines that stay, it is as short as the codes allow if they are searched exhaustively, and it is empty if the codes are equal. |
| `EdUtility.ParseCommandLine` | diff/util.c:695-710 | A command line, printed with decimal numbers, is read back as the command it stands for. |
| `EdUtility.EdInput` | diff/ed.c:56-96 | Text typed after `a` or `c` up to a line that is just a dot goes in the place that is addressed. |
| `EdUtility.EdSubstitute` | diff/ed.c:83-85 | A substitution changes exactly the addressed lines that match. |
| `EdScript.TypingEffect` | diff/ed.c:61-96 | However many lone dots there are, the lines typed end up in the buffer as they are in file 1. |
| `EdScript.ResumeEffect` | diff/ed.c:67-71 | Typing that was stopped for a lone dot goes on after the line before. |
| `EdScript.HunkEffect` | diff/ed.c:35-97 | The commands of a change put its inserted lines in the place of its deleted ones. |
| `EdScript.PrintEdHunk` | diff/ed.c:35-97 | Prints these commands: letter, range as one number or two, and text. |
| `EdScript.PrintEdScript` | diff/ed.c:26-31 | Prints the commands of all changes, last change first. |
| `EdScript.EdGivesOther` | diff/ed.c:26-97 | For every script that matches two files, ed run on file 0 makes file 1 of it. |
| `EdScript.EdDiff` | diff/ed.c:26-97 | The same for the script that the differ finds, whatever is common at both ends. |
| `EdText.EdTexts` | diff/ed.c:26-97 | For any two texts, ed run with the printed script on the first gives the second, where both have been given the newline that may be missing at their ends. |
| `UsingToBlock.CopyStringlist` | diff/diff3.c:1022-1045 | Succeeds exactly if every spot is empty or filled with an equal line, and fills all of them then. |
| `UsingToBlock.CompareLineList` | diff/diff3.c:1121-1139 | Tells exactly whether the lines are pairwise equal, with no entry missing. |
| `UsingToBlock.ProperBlock` | diff/diff3.c:911-1012 | Ranges, line arrays and type make up a block that describes the three files. |
| `UsingToBlock.UsingToDiff3Block` | diff/diff3.c:898-1013 | Never fails for blocks of two proper threads; the arrays are the slices of all three files with no entry missing, the files agree up to the block, and the type says of which files blocks were used and, if of both, whether their slices agree (`Diff3Kinds.TypeTells` says when that is the whole truth). |
| `UsingToBlock.LoneFileDiffers` | diff/diff3.c:911-1012 | A block that is told to differ in one file only is made of one two-way block, and that file does differ if and only if the two-way block has not the same lines on both sides. |
| `Make3Way.NextRung` | diff/diff3.c:818-854 | Taking the other thread's next block keeps the blocks taken without a hole in the common file. |
| `Make3Way.TakeBlocks` | diff/diff3.c:787-854 | The blocks taken are those that overlap or touch, the first comes first of both threads, and both threads go on at least one line later. |
| `Make3Way.NextBlock` | diff/diff3.c:783-874 | Each round makes one proper block, separated from the next by a common line. |
| `Make3Way.Make3WayDiff` | diff/diff3.c:715-876 | Uses every block of both threads once, in order; the result is ordered, with common lines in between, and outside its blocks all files agree; the error over misshapen blocks is not reached. |
| `Diff3Kinds.SuperfluousBlocks` | diff/diff3.c:715-876 | In a block, a file is as the common file if and only if its two-way diff, without the blocks used for that block, is still a diff of the two files. |
| `Diff3Kinds.TypeTells` | diff/diff3.c:85-94 | The type of a block is true of its three slices, in which it tells exactly which of them differ, if and only if neither two-way diff could do without the blocks used. |
| `Diff3Kinds.ShortestTell` | diff/diff3.c:85-94 | From two-way diffs that change as few lines as any, every type is true. |
| `Diff3Kinds.OlderNeedNotDiffer` | diff/diff3.c:988-1012 | For two valid threads, all of whose blocks change something, every three-way diff has a block of type DIFF_3RD in which OLDFILE does not differ. |
| `Diff3Merge.EndedBefore` | diff/diff3.c:1863-1880 | The lines copied before a block all have their newlines. |
| `Diff3Merge.EndedInside` | diff/diff3.c:1940-1955 | Only the last line of the last block can lack its newline. |
| `Diff3Merge.Merger.CopyLines` | diff/diff3.c:1863-1880 | Copies just so many lines of the input, character by character. |
| `Diff3Merge.Merger.SkipLines` | diff/diff3.c:1940-1955 | Skips just so many lines, and tells the end of the input from a file that shrank. |
| `Diff3Merge.Merger.WriteBlock` | diff/diff3.c:1882-1938 | Writes the text of a block: YOURFILE's lines, or for a conflict all sides in brackets (`Diff3Shown.LinesOfBlock` says which lines this text has). |
| `Diff3Merge.Merger.OutputDiff3Merge` | diff/diff3.c:1826-1964 | Writes MYFILE with the blocks merged in, reports a conflict exactly if there is one, and never finds that the input file shrank. |
| `Diff3Shown.LinesOfBlock` | diff/diff3.c:1882-1938 | Whatever newlines are missing, the text of a conflict is cut into its label, MYFILE's lines, label and lines of OLDFILE if they are to be shown, the bar, YOURFILE's lines and the last label; every side's last line is given its newline, and the last label goes without exactly if YOURFILE's side did. |
| `Diff3Shown.LinesOfMerged` | diff/diff3.c:1826-1964 | For any three texts, the merged text is cut into MYFILE's lines outside the blocks and those lines for each block, so no two lines run together. |
| `Diff3Laws.MergedIsMine` | diff/diff3.c:1838-1964 | If every block leaves MYFILE's lines, the merged file is MYFILE. |
| `Diff3Laws.MergedIsYours` | diff/diff3.c:1838-1964 | If every block leaves YOURFILE's lines, the merged file is YOURFILE. |
| `Diff3Laws.EqualRounds` | diff/diff3.c:781-874 | If both threads are the same, every round uses the same blocks of both. |
| `Diff3Laws.OnlyMineChanged` | diff/diff3.c:424-453 | If YOURFILE has no changes, the merged file is MYFILE, without conflict. |
| `Diff3Laws.OnlyYoursChanged` | diff/diff3.c:424-453 | If MYFILE has no changes, the merged file is YOURFILE, without conflict. |
| `Diff3Laws.BothChangedAlike` | diff/diff3.c:424-453 | If both have the same changes, they are the same file, and the merged file is that file, without conflict. |
| `Diff3Laws.NothingTakenOver` | diff/diff3.c:1853-1860 | If only overlapping changes are to be merged and there are none, or these are left out too, the merged file is MYFILE, without conflict. |
| `Diff3Laws.MergeFiles` | diff/diff3.c:424-453 | All of this for the blocks that are found, which use up both threads in order, and the file that is streamed, with neither internal error; conflicts are reported exactly if a block is one. |
| `Diff3Files.BlocksAreThread` | diff/diff3.c:1149-1251 | The blocks of a script are a proper thread. |
| `Diff3Files.ProcessDiff` | diff/diff3.c:1149-1251 | The differ gives a proper thread for any two texts, an empty one for equal texts, and one that changes as few lines as any without discarding, or for texts that are easily compared. |
| `ThreadFlags.FewestIsShortest` | diff/diff3.c:1149-1251 | If no change flags are fewer than the lines that a thread changes, no thread changes fewer. |
| `Diff3Files.Diff3Texts` | diff/diff3.c:505-528 | For any three texts there is a three-way diff, without the internal error, which uses every block of the two two-way diffs once, in order; if the differ discards nothing, or the texts are easily compared with OLDFILE, every type in it is true. |
| `Diff3Files.MergeTexts` | diff/diff3.c:424-453 | For all texts: the result is that of merging the blocks woven from the two two-way diffs, cut into the lines shown, with a conflict reported exactly if a block is one. Without conflict, it is MYFILE if YOURFILE equals OLDFILE, YOURFILE if MYFILE equals OLDFILE, and their common text if they are equal and the differ found the same for both; neither internal error comes up. |
| `Diff3EdSpec.UndotDotted` | diff/diff3.c:1638-1679 | Removing one dot undoes the doubling, and doubled lines never end the text. |
| `Diff3EdSpec.ChangeEffect` | diff/diff3.c:1774-1806 | The commands for a change or deletion put YOURFILE's lines in the place of MYFILE's. |
| `Diff3EdSpec.ConflictEffect` | diff/diff3.c:1734-1773 | What the commands for a conflict do, to it and to the lines after it. |
| `Diff3EdRun.EdRuns` | diff/diff3.c:1703-1811 | The commands for the later blocks leave all lines before untouched, so ed gives what the blocks' results add up to. |
| `Diff3EdRun.AlikeBlock` | diff/diff3.c:1703-1964 | A block is treated alike by ed and by the merge under the stated condition; otherwise the results differ in size. |
| `Diff3EdRun.EditedOrNot` | diff/diff3.c:1703-1964 | Over all blocks: the lines are the same if and only if every block is treated alike. |
| `Diff3EdRun.PlainIsAlike` | diff/diff3.c:1703-1964 | With `show_2nd` and `flagging` off every block is. |
| `Diff3EdRun.ShownIsAlike` | diff/diff3.c:1727 | With `show_2nd` on they are if and only if there is no block in which only OLDFILE differs. |
| `Diff3Ed.MergedIsLines` | diff/diff3.c:1826-1964 | For files of whole lines the merged text is made of the merged lines. |
| `Diff3Ed.ScriptEnded` | diff/diff3.c:1703-1811 | The script is made of whole lines, so ed reads what was printed. |
| `Diff3Ed.ReverseDiff3Blocklist` | diff/diff3.c:1966-1983 | The blocks in the opposite order. |
| `Diff3Ed.DotLines` | diff/diff3.c:1638-1661 | Writes the lines with leading dots doubled, and tells whether there were any. |
| `Diff3Ed.OutputDiff3EdScript` | diff/diff3.c:1703-1811 | Prints that script for every setting of the options, and reports a conflict exactly if it marks one. |
| `Diff3Ed.EdGivesMerge` | diff/diff3.c:1813-1964 | Ed, run with the script on MYFILE, gives the merged file if and only if every block is treated alike. |
| `Diff3Ed.EdScriptFiles` | diff/diff3.c:1703-1964 | The same for the blocks that are found; with `show_2nd` and `flagging` off, always. |
| `Diff3Ed.SameChangeIsMarked` | diff/diff3.c:1727 | An input with `show_2nd` on for which the script and the merge differ. |
| `Diff3Ed.DotsReachTooFar` | diff/diff3.c:1754-1757 | An input with `flagging` alone for which the script fails. |
| `Checksum.CalcCheck` | cvsdelta/cvsdelta.cpp:101-117 | The two 16-bit sums of a block, modulo 2^16. |
| `Checksum.SlideSums` | cvsdelta/cvsdelta.cpp:119-129 | How the sums of a block relate to those of the block one byte on. |
| `Checksum.SlideCheck` | cvsdelta/cvsdelta.cpp:119-129 | A slid checksum is the one that would be computed afresh, at every position. |
| `Checksum.SameSums` | cvsdelta/cvsdelta.cpp:101-138 | Equal blocks have equal checksums, wherever they are. |
| `BlockIndex.ChainedPush` | cvsdelta/cvsdelta.cpp:165-169 | An entry pushed on its bucket keeps every chain running from the newest entry to the oldest. |
| `BlockIndex.Index.AddBlocks` | cvsdelta/cvsdelta.cpp:159-171 | Indexes every whole block of a region, and nothing else. |
| `BlockIndex.OriginalIndexed` | cvsdelta/cvsdelta.cpp:363-371 | With its blocks indexed, all multiples of the block size inside the first file are, and nothing else is. |
| `BlockIndex.InsertionIndexed` | cvsdelta/cvsdelta.cpp:159-173 | With its whole blocks indexed, an insertion adds exactly these to what is indexed. |
| `BlockIndex.Index.Find` | cvsdelta/cvsdelta.cpp:384-387 | Finds the indexed block equal to the one looked for that was indexed last, and none if and only if there is none. |
| `DeltaFormat.DecodeEncoded` | cvsdelta/cvsdelta.cpp:176-247 | The control bytes of an operation decode to that operation, whatever follows them, for all lengths and positions in range. |
| `DeltaFormat.BuiltMoreData` | cvsdelta/cvsdelta.cpp:151-174 | Data appended later does not change what earlier operations build. |
| `DeltaFormat.ReplayEncoded` | cvsdelta/cvsdelta.cpp:494-574 | Interpreting the encoded operations builds what the operations describe. |
| `DeltaFormat.ReadHeader` | cvsdelta/cvsdelta.cpp:454-460 | The header's fields are read back as they were written. |
| `ByteArrays.ByteArray.Resize` | cvsdelta/cvsdelta.h:44 | Growing keeps the contents. |
| `CvsDelta.Match` | cvsdelta/cvsdelta.cpp:249-313 | The match found is one, reaches as far back and forward as the bytes agree within the limits, and never past them. |
| `CvsDelta.Builder.CopyBuffer` | cvsdelta/cvsdelta.cpp:151-174 | The bytes go to the end of the inserted data, their whole blocks and nothing else go to the index, which stays that of the first file and all insertions, and nothing built before changes. |
| `CvsDelta.Builder.FindMatch` | cvsdelta/cvsdelta.cpp:384-407 | A match is found at a position if and only if some block of the original, or some whole block of an insertion, equals the bytes there. It is the newest of these, extended back as far as the bytes agree, and forward to the end of either file or to one byte before the last that agrees. |
| `CvsDelta.Builder.Emit` | cvsdelta/cvsdelta.cpp:408-435 | The bytes before a match, if none of them begins a known block, and the match are described, so the operations cover the file up to its end; nothing is inserted if there are none. |
| `CvsDelta.Builder.Scan` | cvsdelta/cvsdelta.cpp:373-448 | At every step the operations so far rebuild the second file up to the last match, and the index is that of the first file and of all insertions; at the end, all of the second file is rebuilt, no byte that was inserted began a block known by then, and a file is described against itself by one copy. |
| `CvsDelta.OneMoreNeeded` | cvsdelta/cvsdelta.cpp:408-448 | An insertion none of whose bytes begins a block known before it keeps the inserted data made of such insertions only. |
| `CvsDelta.Builder.FirstMatch` | cvsdelta/cvsdelta.cpp:363-407 | In a file compared with itself, the first position matches the first block, which was indexed last, and the match is all of the file. |
| `CvsDelta.DeltaRebuilds` | cvsdelta/cvsdelta.cpp:451-577 | A delta of operations that cover a file rebuilds it. |
| `CvsDelta.Diff` | cvsdelta/cvsdelta.cpp:316-469 | Patching the first file with the delta gives the second; for files below 2^29 bytes always, and for larger ones if no assertion on lengths or positions fails and the output is no longer than its header can say. The inserted data consists of stretches of the second file, in order, at no byte of which the first file or an earlier insertion had a block to copy. The delta of a file against itself, equally padded, is one copy without data. |
| `CvsDelta.Patch` | cvsdelta/cvsdelta.cpp:474-577 | The interpreter computes that outcome, its error cases included. |
| `SmartPtr.Handle.Deref` | cvsapi/cvs_smartptr.h:93-98 | The count goes down by one; the stub goes, and its object with it, exactly when no handle is left. |
| `SmartPtr.Handle.Copy` | cvsapi/cvs_smartptr.h:63 | A copy is counted. |
| `SmartPtr.Handle.Assign` | cvsapi/cvs_smartptr.h:71 | All counts stay right if and only if the other handle is another, or there is nothing to count. |
| `SmartPtr.Handle.AssignObject` | cvsapi/cvs_smartptr.h:72 | The handle goes to a new stub, and all counts stay right. |
| `SmartPtr.Handle.Detach` | cvsapi/cvs_smartptr.h:69 | The object is given away, never to be deallocated by a handle. |
| `SmartPtr.Handle.Destroy` | cvsapi/cvs_smartptr.h:62 | The object is deallocated if and only if this was the last handle on it. |
| `SmartPtr.Step` | cvsapi/cvs_smartptr.h:61-122 | Every operation leaves each handle on the object that it should be on, gives away no other object than it should, and keeps every count equal to the number of handles. |
| `SmartPtr.Run` | cvsapi/cvs_smartptr.h:61-122 | Every run of operations leaves the handles where the operations, one after the other, put them, with all counts right. |
| `SmartPtr.RunLeaves` | cvsapi/cvs_smartptr.h:93-122 | After it, a stub exists if and only if a handle is on it, and an object has been deallocated once if no handle is on it and it was not given away, and never otherwise. |
| `SmartPtr.NothingLeaks` | cvsapi/cvs_smartptr.h:93-122 | Once no handle is left, every object that was not given away has been deallocated exactly once. |
| `SmartPtr.StillThere` | cvsapi/cvs_smartptr.h:93-122 | While a handle is on it, an object has not been deallocated. |
| `Utf8.EncodesForm` | cvsapi/cvs_string.h:216-236 | Every character up to 0x7FFFFFFF is written in the shortest form of RFC 2279. |
| `Utf8.FormIsUnique` | cvsapi/cvs_string.h:216-236 | And that is its only shortest form. |
| `Utf8.DecodesForm` | cvsapi/cvs_string.h:192-208 | The decoder takes just the bytes of a form, and gives the character it stands for. |
| `Utf8.RoundTrip` | cvsapi/cvs_string.h:192-236 | Decoding what was encoded gives the string back if and only if all its characters have forms. |
| `Utf8.NoEndInside` | cvsapi/cvs_string.h:216-236 | An encoded string holds no zero byte, so it is not cut short. |
| `Utf8.Ucs22Utf8` | cvsapi/cvs_string.h:216-236 | The encoding loop writes the forms of all characters up to the terminating zero. |
| `Utf8.Utf82Ucs2` | cvsapi/cvs_string.h:192-208 | The decoding loop gives the decoded characters up to the terminating zero, and reads on beyond it if and only if it cuts a form short. |

## Left out

- Option parsing, reading, temporary files, tracing, encodings and memory management: files are texts, options are parameters.
- The ignore options (case, white space, blank lines, regular expressions) and `line_cmp`: they change which lines count as equal, and parts of them lie in files that are not modelled.
- `find_function`, tab expansion, normal, context (`pr_context_hunk`), side-by-side, RCS and #ifdef output.
- The marker for a missing newline in unified output (`diff/util.c`): in `Context` a line is a line with or without its newline, and patch is given the same lines.
- Binary comparison in `diff_2_files`, and `briefly_report`.
- The word-at-a-time loops in `find_identical_ends` and in `cvsdelta::match`: the byte loops are modelled.
- Line starts after the middle of the file in `find_and_hash_each_line`, the guesses of table sizes, and the choice of a prime for the number of buckets, which is a parameter.
- `fdiag` and `bdiag` are two arrays here, each with its own offset, instead of two parts of one.
- Diag.Comparison.Diag: no bound is claimed on how much longer the script gets if the search is cut short; when it may be is stated.
- Analyze.DiffFiles: if lines are discarded that occur in the other file, or the search is cut short, the script need not be shortest, and nothing is said of its length.
- EdScript.EdDiff: for files whose lines all have newlines, as ed sees them; `EdText.EdTexts` is about any two texts.
- Lists are sequences: the blocks of `make_3way_diff` are moved from one sequence to another instead of being relinked, and `reverse_diff3_blocklist` builds a new sequence.
- The text of two-way diffs, which `process_diff` reads: `Diff3Files.ProcessDiff` takes the blocks from the script. Normal diff3 output (`output_diff3`).
- Diff3Files.MergeTexts: that the differ, run twice on the same texts with the same options (`diff/diff3.c:512-516`), finds the same changes is a condition of the third law; it makes no random choices, but its contract leaves choices open.
- `diff3` with OLDFILE read from standard input, for which YOURFILE becomes the common file (`diff/diff3.c:437-447`).
- Diff3Ed.EdGivesMerge: labels that hold newlines are excluded when labels are printed; such a label would end the text it stands in.
- Diff3Shown.LinesOfBlock: labels that hold newlines are excluded for conflicts, since they would be cut in two; `Diff3Shown.MergedIsShown` says for all labels what the merged text is put together from.
- Read errors of the merged file, which lead to messages and an exit.
- The table that maps bytes to checksum weights in `cvsdelta` is a parameter: nothing depends on its values.
- CvsDelta.Diff: files below 2^31 bytes, since lengths are passed on as signed numbers of 32 bits, and padded past their ends as `cvsdelta/cvsdelta.h:97` provides for; `binary_delta` (`src/rcs.cpp:7264-7277`) adds the padding only to files whose length is not a multiple of it.
- The counters that `cvsdelta` keeps for tracing, and the block size in its header, which `patch` does not use.
- Overflow of a handle's count, which is an unsigned long, and raw pointers that are given to more than one handle.
- Utf8.Utf82Ucs2: what is read beyond the terminating zero, if that cuts a form short, is not modelled.
- Everything else in the repository: server, client, control panels, XML, pipes and sockets.
