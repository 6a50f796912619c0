# Verified models of GNU argp and of the Cortex-M3 cycle-model glue

The repository carries three pieces of code whose behaviour is decided by small, intricate state: the
argp library of glibc 2.14 (`soc_verification/glibc-2.14/argp`), the SystemC wrapper classes of the
Cortex-M3 cycle model (`soc_verification/cortexm3_model/carbon`), and the loop that drains the queue of
output writes (`soc_verification/cortexm3_model/CORTEXM3INTEGRATIONDS_dsm.cpp`). This project models them
in Dafny and proves what they keep over all inputs and all runs.

| file | models |
|---|---|
| `Text.dfy`, `Layout.dfy` | word wrapping as a function on text, with no buffer |
| `Lines.dfy` | the lines of a layout, described without computing them, and that the layout is exactly those |
| `Placement.dfy` | what one scan makes of file and buffer, and when margin blanks overtake text |
| `History.dfy` | chains of scans: what wrapping in pieces keeps of the text |
| `Session.dfy` | sessions of calls on an output stream, as a machine on values |
| `FmtStream.dfy` | the wrapping output buffer of argp, updated in place, which makes the steps of `Session` |
| `Wrappers.dfy`, `ArgpTree.dfy` | optional values; the tree of option descriptions |
| `Usage.dfy` | the enumeration of alternative usage patterns |
| `Cluster.dfy`, `Hol.dfy` | the help list: clusters and their order, entries, shared short-option string |
| `Convert.dfy` | the tables built for getopt: sizes, short and long options, groups |
| `Agreement.dfy` | help list and parser tables against each other |
| `Protocol.dfy` | a run of the parser over its groups |
| `Bits.dfy`, `BitText.dfy`, `LogicVector.dfy` | machine words, their printers, and conversions to logic vectors and unsigned long |
| `OutputQueue.dfy` | the intrusive queue of output ports and its drain |
| `GatedClock.dfy` | the clock-gating state machine |

Verify everything with `dafny verify dfyconfig.toml`.

## How to read it

Code that changes state is a method or a class with the source's fields, proved against a function of the
inputs or of the old state; the lemmas about that function are the results. Things outside the code are
inputs or nondeterministic: how much the file takes of each text and which allocations are granted (`World`), user
parsing functions and getopt (`GroupParse`, `Getopt`, whose answers are logged), net changes (`Event` in
`OutputQueue`), the SystemC scheduler (the events of a run in `GatedClock`, in any order the kernel allows).

The output stream is modelled in layers. `Layout.Lay` is word wrapping with no buffer, and `Lines` says what it gives:
where lines may end, how far they are indented, and that no break comes early. `Placement.Fill` says
exactly what one scan sends to the file and leaves in the buffer, and `FillGives` that this is the layout.
`Session.Called` says exactly what one call does, including where it scans; `SessionSound` and `SessionMarks` are
what whole sessions keep. The methods of `FmtStream` are proved to make exactly those steps, on one array, and so
`Run` gives what the machine says of its calls and of the `World`.

Where code and documentation disagree, the model follows the code:

- The scan of argp-fmtstream steps past the end of a line that ends exactly at the right margin and holds no
  blank (lines 248-252), and then overwrites the next character with a line break. The lost characters are
  `dropped`; `ExactFit` is the guard, and conservation is proved if and only if no line meets it with a
  printing character behind. If there is no next character the scan leaves the text (`OverrunIff`, and
  `OverrunningRun` for a run that does). The source then works on bytes that are nobody's text; the model says
  `overrun`, the session is `Lost`, and from then on nothing is claimed of the output. `Layout.Lay` then shows the rest
  of the text as it is, only to account for it.
- When margin blanks do not fit in the buffer they go straight to the file, ahead of text still buffered
  (lines 147-160 and 316-323), so lines are not always prefixed as the header comment says. `Overtakes` is the exact
  condition on text, column, margins, place in the buffer and its size, line by line: a left margin overtakes when it
  does not fit behind the text and something stands before its line, a wrap margin when it does not fit in the gap of
  its break and nothing follows. The output is then the layout but for blanks that stand strictly earlier
  (`BlanksEarlier`), and otherwise the layout itself. Without margins it never happens (`NoMarginOvertakes`);
  `OvertakingRun` is an update that does it.
- Writes within a scan are not looked at (lines 160, 303-304 and 323): what a short one of them leaves is dropped, with
  no error, although `ensure` reports short writes of its own and keeps the rest. `sent` lists all that the file has
  been given, piece by piece; the file holds what it took of each (`Arrived`).
- A word that goes on past the right margin to the end of the buffered text counts as a whole line (lines 253-259), so
  what is written next starts with the left margin, although no newline stands between them (`LastColumn`).
- The byte at the end of the buffered text, which the scan reads, counts as neither blank nor newline.
- Help and parser do not always agree on letters: an alias of a documentation entry that lacks the documentation
  flag itself has a letter for help and none for the parser. `HelpAndParserAgree` and `SameLetters` say exactly when
  they agree.
- An unsigned long of two words is not read back as it was written: the last shift of carbon_sctypes.h line 579 is by
  0, so the upper word is not moved up (`ULongReadsIff`, `ULongRoundTrip`, `ULongCanChange`).
- Clusters of one parent and one group print in descending order of their index (argp-help.c line 686), not
  in the order of the child list as the comment at lines 384-386 says.
- A letter is read with the wrong argument if the next option's letter is ':' (`LetterArg` says exactly when).
- The short-option string is allocated without room for the `+` prefix (argp-parse.c line 490).
- A successful ARGS call always consumes all arguments (argp-parse.c lines 706-710), whatever the parsing function
  did to `next`; argp.h lines 190-194 leave that to the function.
- After ERROR every group still gets FINI (argp-parse.c lines 641-643 and 659-661); argp.h lines 178-180 say that no
  further calls are made. If INIT fails there is neither ERROR nor FINI.
- The gated clock does not always start from a low clock, as the comment at line 213 of carbon_sctlmtypes.h
  says: a wakeup can catch it high on its way to shutdown.

## Model

| member | source | states |
|---|---|---|
| Text.MoveBlanks | soc_verification/glibc-2.14/argp/argp-fmtstream.c:147-160 | blanks written ahead of buffered text that ends in a newline or a word leave the same characters, with blanks strictly earlier |
| Layout.ColumnInRange | soc_verification/glibc-2.14/argp/argp-fmtstream.c:130-340 | wrapping leaves the column at or below the right margin, and below it if it began there and the other margins are |
| Layout.BreakReplacesBlanks | soc_verification/glibc-2.14/argp/argp-fmtstream.c:230-268 | a line break replaces no ink, except the one character after an exact fit |
| Layout.InkAccounted | soc_verification/glibc-2.14/argp/argp-fmtstream.c:130-342 | every printing character is laid out, in order, or replaced by a line break |
| Layout.DropsInkIffExactFit | soc_verification/glibc-2.14/argp/argp-fmtstream.c:248-258 | ink is replaced if and only if some line is an exact fit with ink behind it |
| Layout.ConservesInkIff | soc_verification/glibc-2.14/argp/argp-fmtstream.c:130-342 | the layout has exactly the ink of the input, in order, if and only if no line is such an exact fit |
| Layout.InkCanBeLost | soc_verification/glibc-2.14/argp/argp-fmtstream.c:248-268 | an input on which the scan loses a letter |
| Layout.ReplacesOnlyBlanksIff | soc_verification/glibc-2.14/argp/argp-fmtstream.c:235-268 | the line breaks of the layout replace only blanks if and only if no line is an exact fit before a non-blank |
| Layout.LayRewraps | soc_verification/glibc-2.14/argp/argp-fmtstream.c:227-340 | without margins and exact fits the layout is the input with some blank runs each replaced by a newline, from any column |
| Layout.LayLinesOk | soc_verification/glibc-2.14/argp/argp-fmtstream.c:187-259 | and every finished line fits the right margin or holds no blank, with exact fits or without |
| Layout.OverrunIff | soc_verification/glibc-2.14/argp/argp-fmtstream.c:182-268 | the scan leaves the text if and only if a line ends the text exactly at the right margin |
| Layout.CanOverrun | soc_verification/glibc-2.14/argp/argp-fmtstream.c:182-268 | a text that does: three letters and a newline at right margin 3 |
| Lines.BreaksLate | soc_verification/glibc-2.14/argp/argp-fmtstream.c:230-268 | but for exact fits, no blank is left between a break and the margin, nor before a break that is behind the margin, the removed blanks begin behind a word, and a long line that is kept holds no blank |
| Lines.BreaksAtTheLastBlank | soc_verification/glibc-2.14/argp/argp-fmtstream.c:230-242 | "a b c d" at right margin 6 is broken before the d |
| Lines.BreakEndsWell | soc_verification/glibc-2.14/argp/argp-fmtstream.c:230-268 | a line is broken only where it may be: at blanks, behind a word, and not while the next word would end before the margin; or behind a newline exactly at the margin |
| Lines.SoftDecides | soc_verification/glibc-2.14/argp/argp-fmtstream.c:230-268 | and wherever a line may so be broken, there it is |
| Lines.LayIff | soc_verification/glibc-2.14/argp/argp-fmtstream.c:122-346 | with any margins, a text that the scan does not leave is laid out as given if and only if it is cut into lines that end well, indented by the left margin behind a newline of the text and by the wrap margin behind a break, and the column behind the layout is that behind the last line |
| Lines.LinesFit | soc_verification/glibc-2.14/argp/argp-fmtstream.c:187-259 | with any margins every line, its indentation included, fits the right margin or holds no blank behind it |
| Lines.WrapsWords | soc_verification/glibc-2.14/argp/argp-fmtstream.c:52-57 | without margins and exact fits the layout is the input with some blank runs each replaced by a newline, every finished line fits the right margin or holds no blank, and no line ends while the next word fits |
| Placement.FillGives | soc_verification/glibc-2.14/argp/argp-fmtstream.c:122-346 | whatever the buffer's capacity, a scan sends out and leaves behind the layout of its text, and ends at its column, exactly unless margin blanks overtook text, and then but for blanks that stand strictly earlier; it leaves the text exactly when the layout does |
| Placement.OvertakesIff | soc_verification/glibc-2.14/argp/argp-fmtstream.c:134-340 | a scan lets margin blanks overtake text if and only if the guards, followed line by line over the places in the buffer, are met somewhere |
| Placement.NoMarginOvertakes | soc_verification/glibc-2.14/argp/argp-fmtstream.c:134-340 | without margins they never are |
| Placement.FillColumn | soc_verification/glibc-2.14/argp/argp-fmtstream.c:122-346 | a scan leaves the column between -1 and the right margin |
| Placement.OutputKeepsInkIff | soc_verification/glibc-2.14/argp/argp-fmtstream.c:122-346 | the output of a scan that stays inside the text has the ink it was given, in order, if and only if no line is an exact fit with ink behind it |
| Placement.OutputLines | soc_verification/glibc-2.14/argp/argp-fmtstream.c:122-346 | with any margins, what a scan that stays inside the text and overtakes nothing puts out are the lines of the layout, and it ends at the column behind the last |
| Placement.OutputWraps | soc_verification/glibc-2.14/argp/argp-fmtstream.c:52-57 | without margins, exact fits and overruns the output of a scan is its text with some blank runs each replaced by a newline, every finished line fits the right margin or holds no blank, and no line ends while the next word fits |
| Placement.MarginStays | soc_verification/glibc-2.14/argp/argp-fmtstream.c:138-146 | the left margin stays in the buffer if and only if it leaves a character free |
| Placement.BreakStays | soc_verification/glibc-2.14/argp/argp-fmtstream.c:275-316 | line and wrap margin stay in the buffer if and only if the margin fits in the gap, or text follows and there is room for newline and margin with a character to spare |
| Placement.CanOvertake | soc_verification/glibc-2.14/argp/argp-fmtstream.c:275-323 | a text on which blanks do overtake, with the output it gives |
| History.ScansConserve | soc_verification/glibc-2.14/argp/argp-fmtstream.c:128-346 | over any chain of scans, each starting at the column where the last one ended, the ink laid out is the ink given if and only if no scan met an exact fit |
| History.NoMarginsNoOvertake | soc_verification/glibc-2.14/argp/argp-fmtstream.c:134-340 | in a chain of scans without margins nothing is overtaken |
| Session.MakesRoom | soc_verification/glibc-2.14/argp/argp-fmtstream.c:350-399 | where room is lacking, the whole buffer is offered to the file and what it does not take stays; if it takes all, the buffer grows by the amount exactly if it is too small and that is granted; and the call goes on exactly if there then is room |
| Session.ScannedSound | soc_verification/glibc-2.14/argp/argp-fmtstream.c:122-346 | an update keeps the account: what has gone out and what is buffered are the layout of the scans made, exactly unless some scan met the guards of overtaking; or that scan left the text |
| Session.AfterSound | soc_verification/glibc-2.14/argp/argp-fmtstream.h:209-288 | every call keeps it, through flushing, short writes, growth and refused allocations |
| Session.SessionSound | soc_verification/glibc-2.14/argp/argp-fmtstream.c:58-399 | so it holds at every point of every session |
| Session.AfterMarks | soc_verification/glibc-2.14/argp/argp-fmtstream.h:209-288 | every call adds what it hands over to what is scanned or still to be scanned, each character under the margins of its call, and adds nothing if it is refused |
| Session.SessionMarks | soc_verification/glibc-2.14/argp/argp-fmtstream.c:58-399 | so the scans of a session are of all that was handed over, in order; if one left the text, up to there they are of a beginning of it |
| Session.ScannedAccounts | soc_verification/glibc-2.14/argp/argp-fmtstream.c:97-112 | once all is scanned the whole output is the layout of the scans, exactly unless one meets the guards of overtaking, and has the ink they were given, in order, if and only if none met an exact fit |
| Session.EndAccounts | soc_verification/glibc-2.14/argp/argp-fmtstream.c:58-399 | both for whole sessions that are not lost: the output is accounted for by the scans, and they are of all that was handed over, each character under the margins of its call |
| Session.DeliversAll | soc_verification/glibc-2.14/argp/argp-fmtstream.c:97-112 | if no scan has written to the file itself, the file and the tail that its last write leaves are the whole output |
| Session.OneWrite | soc_verification/glibc-2.14/argp/argp-fmtstream.h:209-221 | a text of at most 200 characters written to a new stream is one scan, and comes out as its layout unless it meets the guards of overtaking |
| Session.TwoWords | soc_verification/glibc-2.14/argp/argp-fmtstream.c:230-340 | two words at a right margin between them become two lines in the buffer and nothing else |
| Session.TwoWordsFile | soc_verification/glibc-2.14/argp/argp-fmtstream.c:97-112 | so when the stream is freed the file holds as much of these two lines as it took, and the rest is lost |
| FmtStream.FmtStream.Indent | soc_verification/glibc-2.14/argp/argp-fmtstream.c:134-162 | the left margin goes in front of the line, or, if the buffer has no room for it, to the file; it overtakes what is buffered exactly if something is |
| FmtStream.FmtStream.FindBreak | soc_verification/glibc-2.14/argp/argp-fmtstream.c:230-268 | the backward and forward scans find the break that the layout function prescribes |
| FmtStream.FmtStream.EndLine | soc_verification/glibc-2.14/argp/argp-fmtstream.c:275-309 | the newline is placed and the tail kept, by moving it up, by writing out the line, or in the gap left by blanks, each exactly where the source does |
| FmtStream.FmtStream.BreakLine | soc_verification/glibc-2.14/argp/argp-fmtstream.c:275-340 | text between two positions becomes a newline and the wrap margin: file, buffer and place are those of `Broken` |
| FmtStream.FmtStream.Update | soc_verification/glibc-2.14/argp/argp-fmtstream.c:122-346 | one update makes the step `Scanned`: what it sends to the file, what it leaves in the buffer and where, the column, and the one scan it adds are exactly those of `Fill` on buffer and column at entry |
| FmtStream.FmtStream.Send | soc_verification/glibc-2.14/argp/argp-fmtstream.c:303-304 | a write within a scan: what the file does not take is dropped |
| FmtStream.FmtStream.Flush | soc_verification/glibc-2.14/argp/argp-fmtstream.c:364-377 | the whole buffer is offered; a short write leaves the rest at the front of the buffer and loses nothing |
| FmtStream.FmtStream.Ensure | soc_verification/glibc-2.14/argp/argp-fmtstream.c:350-399 | scans only if there is no room for the amount, then flushes and grows the buffer as `Roomy` says; it fails exactly for a short write or a refused allocation of its own |
| FmtStream.FmtStream.Write | soc_verification/glibc-2.14/argp/argp-fmtstream.h:209-221 | appends the string, or refuses it whole exactly if making room failed: the step `Called`, scan and all |
| FmtStream.FmtStream.Putc | soc_verification/glibc-2.14/argp/argp-fmtstream.h:236-243 | likewise for a character |
| FmtStream.FmtStream.SetLeft | soc_verification/glibc-2.14/argp/argp-fmtstream.h:245-255 | text that is still to be scanned, if there is any, is scanned under the old margin before the new one applies; the old one is returned |
| FmtStream.FmtStream.SetWrap | soc_verification/glibc-2.14/argp/argp-fmtstream.h:269-279 | likewise for the wrap margin |
| FmtStream.FmtStream.SetRight | soc_verification/glibc-2.14/argp/argp-fmtstream.h:257-267 | likewise for the right margin, for every new margin that does not lie left of the column Point gives |
| FmtStream.FmtStream.Point | soc_verification/glibc-2.14/argp/argp-fmtstream.h:281-288 | scans what is still to be scanned, and gives the column; at most the right margin |
| FmtStream.FmtStream.Free | soc_verification/glibc-2.14/argp/argp-fmtstream.c:97-112 | the last scan is made, and the whole buffer is offered to the file; what it does not take is lost |
| FmtStream.Run | soc_verification/glibc-2.14/argp/argp-fmtstream.c:58-399 | any sequence of calls ended by free does what the machine makes of the calls and of the answers of file and allocator: file, dropped tail and the answers to the calls are the session's. Unless one of its scans left the text, its output is the layout of the scans, exactly unless one of them meets the guards of overtaking, with the ink handed over if and only if none met an exact fit, and the scans are of all that was handed over. A write is refused exactly for a short write or refused allocation of its own, and a right margin exactly if it lies left of the output point |
| FmtStream.OvertakingRun | soc_verification/glibc-2.14/argp/argp-fmtstream.c:275-323 | a new stream on which an update sends the wrap margin ahead of the line it breaks |
| FmtStream.OverrunningRun | soc_verification/glibc-2.14/argp/argp-fmtstream.c:248-268 | a new stream on which an update scans past the text |
| Usage.ArgsLevels | soc_verification/glibc-2.14/argp/argp-help.c:1374-1388 | counts the nodes with several alternatives |
| Usage.ValueInRange | soc_verification/glibc-2.14/argp/argp-help.c:1395-1448 | the levels read as a mixed-radix number lie below the product of the alternative counts |
| Usage.ValueInjective | soc_verification/glibc-2.14/argp/argp-help.c:1395-1448 | different levels are different numbers |
| Usage.OwnPattern | soc_verification/glibc-2.14/argp/argp-help.c:1405-1424 | selects the alternative the level byte names, and tells whether it is the last |
| Usage.IncreaseOwn | soc_verification/glibc-2.14/argp/argp-help.c:1433-1445 | the node's byte goes up by one, or back to zero with a carry |
| Usage.ArgsUsage | soc_verification/glibc-2.14/argp/argp-help.c:1395-1448 | one call shows the combination at the levels and adds one to their number, touching only the tree's own slots; false means it wrapped |
| Usage.Patterns | soc_verification/glibc-2.14/argp/argp-help.c:1586-1636 | the usage loop shows combination 0, 1, 2 up to the product of the counts, each line the alternatives of all argps in preorder, and leaves every level at 0 |
| Usage.EveryPatternOnce | soc_verification/glibc-2.14/argp/argp-help.c:1390-1394 | such a listing holds every combination of alternatives exactly once |
| Usage.SplitRejoins | soc_verification/glibc-2.14/argp/argp-help.c:1407-1418 | the alternatives hold no newline, and joined by newlines they are the text |
| Usage.RenderShows | soc_verification/glibc-2.14/argp/argp-help.c:1395-1431 | a line has one text for every argp with an args_doc, in preorder, and it is the alternative that the byte of that argp names, the bytes counted in preorder too |
| Usage.FirstPattern | soc_verification/glibc-2.14/argp/argp-help.c:1586-1591 | with all levels zero each text is the first line of its args_doc |
| Usage.ValueOrder | soc_verification/glibc-2.14/argp/argp-help.c:1429-1447 | combinations are listed in lexicographic order, an argp counting more than its children and a later child more than an earlier one |
| Cluster.GroupCmp | soc_verification/glibc-2.14/argp/argp-help.c:656-667 | orders groups 0, 1, ..., n, -m, ..., -1 |
| Cluster.SiblingCmp | soc_verification/glibc-2.14/argp/argp-help.c:686 | orders siblings by group and then by descending index |
| Cluster.SiblingOrder | soc_verification/glibc-2.14/argp/argp-help.c:656-686 | the same written out by groups and indices |
| Cluster.ClusterCmp | soc_verification/glibc-2.14/argp/argp-help.c:671-687 | climbing to a common parent computes the lexicographic order of root paths |
| Cluster.ComparesForkChildren | soc_verification/glibc-2.14/argp/argp-help.c:674-686 | unrelated clusters compare as the children of their lowest common ancestor; related ones compare 0 |
| Cluster.StrictTotalOrder | soc_verification/glibc-2.14/argp/argp-help.c:669-687 | antisymmetric and transitive; 0 exactly for related clusters or forks with equal keys |
| Cluster.ParentTiesWithChildren | soc_verification/glibc-2.14/argp/argp-help.c:674-686 | with related clusters, ties are not transitive |
| Hol.MakeHol | soc_verification/glibc-2.14/argp/argp-help.c:427-496 | one entry per option with its aliases, letters at their first occurrence |
| Hol.RowGroups | soc_verification/glibc-2.14/argp/argp-help.c:473-478 | the group of an entry is the last one set by number up to its option, or 0, plus the headers without number since |
| Hol.Append | soc_verification/glibc-2.14/argp/argp-help.c:820-912 | appending two flat lists gives the flat list of both, by stealing or by merging |
| Hol.ArgpHol | soc_verification/glibc-2.14/argp/argp-help.c:1349-1370 | the list of a tree is one flat construction over the options of all its argps in preorder; it has a cluster of its own for each argp below that has a group or a header, no two the same, and every entry is in one of them or in the given one |
| Hol.ChildHol | soc_verification/glibc-2.14/argp/argp-help.c:1359-1366 | a child that has a group or a header gets a new cluster with its group, index and parent, put in front of the parent list's clusters, and its entries stand in it; without either the clusters stay as they are |
| Hol.TreeRowsOpts | soc_verification/glibc-2.14/argp/argp-help.c:1351-1370 | the entries hold every option of the tree, in preorder |
| Hol.LettersAreFirstOccurrences | soc_verification/glibc-2.14/argp/argp-help.c:482-492 | the shared string holds every short key once, and an option owns its letter exactly if no earlier one offers it |
| Hol.NextLetterTells | soc_verification/glibc-2.14/argp/argp-help.c:557 | comparing with the next letter alone decides ownership |
| Hol.MergeEntry | soc_verification/glibc-2.14/argp/argp-help.c:882-897 | the moving pointer into the appended string adds exactly the letters not shadowed |
| Hol.ShortIterate | soc_verification/glibc-2.14/argp/argp-help.c:544-567 | visits exactly the visible options whose letters the entry owns, each with the option it is an alias of |
| Hol.VisitedIff | soc_verification/glibc-2.14/argp/argp-help.c:556-564 | those are, in order, the options that are not hidden and whose letter no earlier option of the list offers |
| Hol.OwnerIsFirstDefiner | soc_verification/glibc-2.14/argp/argp-help.c:820-912 | a letter belongs to the first argp in preorder that defines it |
| Hol.ListFits | soc_verification/glibc-2.14/argp/argp-help.c:449-459 | the counted entries are exactly those built, and the letters fit their bound |
| Convert.DecodeEncode | soc_verification/glibc-2.14/argp/argp-parse.c:360-368 | the group comes back if and only if it is among the first 127, the key if and only if it fits 24 bits; no collision with letters or getopt codes |
| Convert.CalcSizes | soc_verification/glibc-2.14/argp/argp-parse.c:449-478 | the recursive count is the sum over the tree |
| Convert.TreeSizesInOrder | soc_verification/glibc-2.14/argp/argp-parse.c:449-478 | and the sum over the argps in preorder |
| Convert.SizesSuffice | soc_verification/glibc-2.14/argp/argp-parse.c:449-478 | counts bound the tables; the number of groups is exact |
| Convert.InputsAreChildren | soc_verification/glibc-2.14/argp/argp-parse.c:461-477 | the inputs counted are one for each argp but the root, and the characters three for each option |
| Convert.ShortFitsIff | soc_verification/glibc-2.14/argp/argp-parse.c:490-502 | the short-option string fits its allocation if and only if arguments are allowed or some option leaves a spare character |
| Convert.PrefixNeedNotFit | soc_verification/glibc-2.14/argp/argp-parse.c:490-502 | a tree whose string does not fit |
| Convert.Real | soc_verification/glibc-2.14/argp/argp-parse.c:328-330 | the option that an alias belongs to is the latest before it that is no alias, or the first |
| Convert.Tables.FindLong | soc_verification/glibc-2.14/argp/argp-parse.c:196-213 | the first entry with the name, or -1 |
| Convert.Tables.AddOptions | soc_verification/glibc-2.14/argp/argp-parse.c:325-374 | appends the letters of one argp with their colons and its new long names, keeping both tables terminated |
| Convert.AddGroup | soc_verification/glibc-2.14/argp/argp-parse.c:376-397 | one group per argp with options or a parser, with its own slice of input slots |
| Convert.ConvertOptions | soc_verification/glibc-2.14/argp/argp-parse.c:312-411 | converting a tree extends the tables by its argps in preorder, and its groups take their inputs from the places of `Places` |
| Convert.BuildTables | soc_verification/glibc-2.14/argp/argp-parse.c:414-515 | sizing, allocating and converting any tree stays inside the allocation and gives the tables of its preorder, with exactly the counted groups |
| Convert.ChildPlace | soc_verification/glibc-2.14/argp/argp-parse.c:400-409 | the group of the i-th child of an argp takes its input from the i-th slot of that argp's group, or from none if that has no group |
| Convert.PlacesDistinct | soc_verification/glibc-2.14/argp/argp-parse.c:400-409 | no two groups take their inputs from the same slot |
| Convert.GroupOfShort | soc_verification/glibc-2.14/argp/argp-parse.c:735-750 | strchr and the first larger short_end pick the group of the first argp that gives the parser the letter, or none if none does |
| Convert.FirstEndIsDefiner | soc_verification/glibc-2.14/argp/argp-parse.c:743-750 | the reason for it |
| Convert.LetterArg | soc_verification/glibc-2.14/argp/argp-parse.c:335-358 | what getopt reads of a letter's argument from the colons behind it is what the option says that first offers the letter, or that this is an alias of, and so has_arg of a long name, if and only if the argument is optional or the next letter is not ':' |
| Convert.NameIsFirstDefinition | soc_verification/glibc-2.14/argp/argp-parse.c:348-371 | a long name is bound to its first definition in preorder |
| Convert.GroupOfLong | soc_verification/glibc-2.14/argp/argp-parse.c:752-757 | what the parser decodes from a long name: the group of the argp that first gives the name if and only if fewer than 127 groups come before it, and the user's key, with that of the option for an alias without one, if and only if it fits 24 bits; and has_arg as the option says that the name is an alias of |
| Convert.InputSlicesDisjoint | soc_verification/glibc-2.14/argp/argp-parse.c:386-394 | the input slots of different groups do not overlap, and lie in order within the allocation |
| Convert.LongNamesDistinct | soc_verification/glibc-2.14/argp/argp-parse.c:348-371 | no long name occurs twice |
| Agreement.HelpAndParserAgree | soc_verification/glibc-2.14/argp/argp-parse.c:735-750 | the argp that owns a letter in the help list is the one whose group the parser picks, if and only if that argp gives the letter to the parser |
| Agreement.ConsistentTreesAgree | soc_verification/glibc-2.14/argp/argp-parse.c:735-750 | so they agree on every letter of a tree in which no letter is only the alias of documentation |
| Agreement.SameLetter | soc_verification/glibc-2.14/argp/argp-help.c:482-492 | help and parser agree on whether there is a letter, if and only if the parser knows it or no argp defines it |
| Agreement.SameLetters | soc_verification/glibc-2.14/argp/argp-help.c:482-492 | help shows exactly the letters the parser knows, if and only if every letter that is only the alias of documentation is also an option's letter somewhere in the tree |
| Agreement.InconsistentTree | soc_verification/glibc-2.14/argp/argp-parse.c:328-336 | a tree where that fails: help shows an alias that lacks the documentation flag of its entry, and the parser does not know it |
| Protocol.Parser.GroupParse | soc_verification/glibc-2.14/argp/argp-parse.c:244-263 | calls the parsing function if there is one, which may answer anything and move next and argc, and answers EBADKEY if not |
| Protocol.Parser.InitGroups | soc_verification/glibc-2.14/argp/argp-parse.c:533-554 | INIT goes to the groups in order; without error to all of them |
| Protocol.Parser.TryGroup | soc_verification/glibc-2.14/argp/argp-parse.c:691-701 | ARG is called with next past the argument, ARGS with next one before where ARG left it, and next is where the last call left it |
| Protocol.TriesOrder | soc_verification/glibc-2.14/argp/argp-parse.c:685-701 | an argument is offered to the groups in order, to each first with ARG and then with ARGS |
| Protocol.SearchOrder | soc_verification/glibc-2.14/argp/argp-parse.c:685-701 | the search ends with the group that knows the argument, after both calls to all before it and none to those behind |
| Protocol.Parser.NoArgsGroups | soc_verification/glibc-2.14/argp/argp-parse.c:596-600 | NO_ARGS goes in order to the groups that accepted no argument, until one fails |
| Protocol.Parser.CloseGroups | soc_verification/glibc-2.14/argp/argp-parse.c:592-607 | END follows only when every NO_ARGS call was answered without error, and the outcome is that of the last call |
| Protocol.Parser.Notify | soc_verification/glibc-2.14/argp/argp-parse.c:634-664 | ERROR to every group or SUCCESS until one fails, then FINI to every group; EBADKEY becomes EINVAL |
| Protocol.Parser.ParseArg | soc_verification/glibc-2.14/argp/argp-parse.c:676-723 | next is where the last call left it, or argc if ARGS accepted; what is accepted is credited to the accepting group alone, or lets getopt try again |
| Protocol.Parser.ParseNext | soc_verification/glibc-2.14/argp/argp-parse.c:788-873 | a step as described by `StepOk`: getopt is called, where next stands, exactly if it has not given up and no quoted region counts; a quoted region begins at a `--` and is forgotten only when next moves before it; an argument is offered to the groups until one knows it, and next is where their calls leave it; an accepted one is credited to the accepting group alone with what was consumed, or getopt is tried again if nothing was |
| Protocol.StepCredit | soc_verification/glibc-2.14/argp/argp-parse.c:703-720 | the credit of a step is how far next stands past the place of the argument, and getopt is asked again if it does not |
| Protocol.QuotedStays | soc_verification/glibc-2.14/argp/argp-parse.c:788-832 | in any run of steps, after a `--` getopt is not asked and the quoted region stays until a step begins before it |
| Protocol.QuotedNotAsked | soc_verification/glibc-2.14/argp/argp-parse.c:788-832 | so the log of the calls of getopt does not grow after it passed a `--` until a step begins before its end |
| Protocol.GainsAreTaken | soc_verification/glibc-2.14/argp/argp-parse.c:703-720 | in any run of steps, a group is credited with arguments only if it has answered an ARG or ARGS call with success |
| Protocol.Parser.CallBackward | soc_verification/glibc-2.14/argp/argp-parse.c:601-604 | END and SUCCESS go to the groups last to first until one fails |
| Protocol.Parser.Finalize | soc_verification/glibc-2.14/argp/argp-parse.c:580-669 | the closing calls, each made where the one before it left next, the answers that cut them short, where the result comes from, and the end index, which is where the parse stopped or where the closing calls left next, for each way a parse can stop (`Settled`) |
| Protocol.Parse | soc_verification/glibc-2.14/argp/argp-parse.c:880-926 | a run makes INIT calls, then steps each from where the last one ended, whose credits are the processed counts of the groups; a finished run then calls NO_ARGS (groups without credit only) and END, then ERROR or SUCCESS, then FINI, in the orders of the source, and is settled from its last step: result and end index; all that came of the calls is logged in order, with where each found and left next; a failed INIT ends it at once |
| Protocol.TraceOrder | soc_verification/glibc-2.14/argp/argp-parse.c:533-661 | INIT, NO_ARGS and ERROR go to the first group first, END, SUCCESS and FINI to the last |
| Protocol.GroupSees | soc_verification/glibc-2.14/argp/argp.h:163-180 | each group sees INIT, its options and arguments, at most one NO_ARGS, END and SUCCESS, never ERROR and SUCCESS, and FINI exactly once and last |
| Bits.MaskTestsBit | soc_verification/cortexm3_model/carbon/carbon_valutil.h:36-37 | testing against the shifted mask tests one bit |
| Bits.WidthMaskBits | soc_verification/cortexm3_model/carbon/carbon_valutil.h:27-32 | the width mask has ones in exactly the lowest places |
| BitText.SmallToStrNoNull | soc_verification/cortexm3_model/carbon/carbon_valutil.h:22-44 | each position shows its own bit, and Z exactly where undriven and not pulled, for words of any width |
| BitText.SmallToStr | soc_verification/cortexm3_model/carbon/carbon_valutil.h:46-51 | the whole string of a small value, with its terminator, for words of any width |
| BitText.LargeToStr | soc_verification/cortexm3_model/carbon/carbon_valutil.h:53-95 | the whole string of a value of any width, through the fast and slow paths of every word |
| BitText.CalcBidiSmall | soc_verification/cortexm3_model/carbon/carbon_valutil.h:97-116 | the whole string of a small bidirectional net, for words of any width |
| BitText.CalcBidiLarge | soc_verification/cortexm3_model/carbon/carbon_valutil.h:118-163 | the whole string of a bidirectional net of any width |
| BitText.ValueReads | soc_verification/cortexm3_model/carbon/carbon_valutil.h:59-94 | the characters of one word are those of its bits |
| BitText.ValueReadsBack | soc_verification/cortexm3_model/carbon/carbon_valutil.h:53-95 | in the printed string bit k stands k places before the end, as Z exactly if undriven and not pulled and else as 1 or 0 |
| BitText.BidiReadsBack | soc_verification/cortexm3_model/carbon/carbon_valutil.h:118-163 | likewise for a bidirectional net, whose bit is undriven if the external mask is set and the inner drive is not |
| BitText.BidiPrintsAsValue | soc_verification/cortexm3_model/carbon/carbon_valutil.h:97-163 | a bidirectional net prints as the plain value driven where it is not masked from outside alone |
| BitText.SmallPrintsAsLarge | soc_verification/cortexm3_model/carbon/carbon_valutil.h:46-95 | the printer of small values and that of large ones give the same string |
| LogicVector.PutLogicWord | soc_verification/cortexm3_model/carbon/carbon_sctypes.h:485-507 | one word of the 3-state conversion, with the bits above the vector kept |
| LogicVector.LvToBuf | soc_verification/cortexm3_model/carbon/carbon_sctypes.h:479-508 | all words of value and drive |
| LogicVector.BufToLv | soc_verification/cortexm3_model/carbon/carbon_sctypes.h:510-532 | each bit of the vector from its value and drive bits |
| LogicVector.SetBidi | soc_verification/cortexm3_model/carbon/carbon_valutil.h:283-318 | value and drive bits of each element with the bits above the vector kept, and a copy of the value words |
| LogicVector.HoldsUnique | soc_verification/cortexm3_model/carbon/carbon_valutil.h:283-318 | those clauses determine the words, so it leaves the same value and drive words as the 3-state conversion |
| LogicVector.UintToLv | soc_verification/cortexm3_model/carbon/carbon_valutil.h:320-339 | each bit of the vector from its word |
| LogicVector.LvToUint | soc_verification/cortexm3_model/carbon/carbon_valutil.h:341-360 | the low bits from the vector, the others untouched |
| LogicVector.LogicBits | soc_verification/cortexm3_model/carbon/carbon_sctypes.h:479-532 | after the conversion the value bit is set for 1 and Z, the drive bit for Z alone, and the bits above the vector are what they were |
| LogicVector.LogicRoundTrip | soc_verification/cortexm3_model/carbon/carbon_sctypes.h:479-532 | vector to buffer to vector replaces X by 0 and is the identity if and only if there is no X |
| LogicVector.BufferRoundTrip | soc_verification/cortexm3_model/carbon/carbon_sctypes.h:479-532 | buffer to vector to buffer keeps the drive words always and the value words if and only if every undriven bit is high |
| LogicVector.UintRoundTrip | soc_verification/cortexm3_model/carbon/carbon_valutil.h:320-360 | words to vector to words keeps the low bits and the destination's high bits |
| LogicVector.ULongToBuf | soc_verification/cortexm3_model/carbon/carbon_sctypes.h:566-571 | each word holds its 32 bits of the number |
| LogicVector.BufToULong | soc_verification/cortexm3_model/carbon/carbon_sctypes.h:574-580 | the words are put together without moving the upper one up |
| LogicVector.ULongReadsIff | soc_verification/cortexm3_model/carbon/carbon_sctypes.h:574-580 | two words are read as the number they hold if and only if the upper one is 0 |
| LogicVector.ULongRoundTrip | soc_verification/cortexm3_model/carbon/carbon_sctypes.h:566-580 | a number comes back from its two words if and only if it fits the lower one |
| LogicVector.ULongCanChange | soc_verification/cortexm3_model/carbon/carbon_sctypes.h:574-580 | 2 to the power 32 comes back as 1 |
| OutputQueue.Port.EnqueueWrite | soc_verification/cortexm3_model/carbon/carbon_sctypes.h:199-207 | a port goes to the front of the queue unless it stands before the last visit already |
| OutputQueue.Port.DequeueWrite | soc_verification/cortexm3_model/carbon/carbon_sctypes.h:209-216 | the head leaves the queue and has no link |
| OutputQueue.Port.SetBuffer | soc_verification/cortexm3_model/carbon/carbon_sctypes.h:68-72 | a NULL drive leaves the drive words alone |
| OutputQueue.Port.Change | soc_verification/cortexm3_model/carbon/carbon_sctypes.h:219-227 | a net change is buffered and queued, and the queue stays valid |
| OutputQueue.Port.PerformWrite | soc_verification/cortexm3_model/carbon/carbon_sctypes.h:231-251 | the port shows its buffer as its own type's conversion, whatever that is, makes of it, and leaves the queue |
| OutputQueue.Queue.LinkedIff | soc_verification/cortexm3_model/carbon/carbon_sctypes.h:201 | the queued test holds exactly for ports before the last visit, so not for the tail |
| OutputQueue.Queue.Drain | soc_verification/cortexm3_model/CORTEXM3INTEGRATIONDS_dsm.cpp:2386-2392 | ends with head and all links NULL, having written the queued visits in order; every port that ever changed shows its buffer |
| OutputQueue.Queue.Measure | soc_verification/cortexm3_model/CORTEXM3INTEGRATIONDS_dsm.cpp:2402-2405 | the writes still to come are the ports with a link, plus one if there is a head |
| OutputQueue.AfterShape | soc_verification/cortexm3_model/carbon/carbon_sctypes.h:199-207 | the first caller is visited last and the links belong to the later callers, each once |
| OutputQueue.VisitsOnce | soc_verification/cortexm3_model/carbon/carbon_sctypes.h:199-216 | each port is written once, and the first one twice if it was signalled again |
| OutputQueue.Queue.Schedule | soc_verification/cortexm3_model/carbon/carbon_sctypes.h:219-227 | any sequence of callbacks leaves the buffers of the last one of each port |
| OutputQueue.ValueIsLast | soc_verification/cortexm3_model/carbon/carbon_sctypes.h:68-72 | which is the value of the last event of the port |
| OutputQueue.DriveIsLast | soc_verification/cortexm3_model/carbon/carbon_sctypes.h:68-72 | and the drive words of the last event that brings any |
| OutputQueue.Queue.Cycle | soc_verification/cortexm3_model/carbon/carbon_sctypes.h:191-251 | after callbacks and drain every port that ever changed shows its latest value: no update is lost; and no other port is written |
| GatedClock.StepSafe | soc_verification/cortexm3_model/carbon/carbon_sctlmtypes.h:171-273 | every event keeps the invariant |
| GatedClock.RunSafe | soc_verification/cortexm3_model/carbon/carbon_sctlmtypes.h:171-273 | in every run: open transactions mean starting up or active and due; idle means low and waiting for the wakeup; edges at least half a period apart |
| GatedClock.Counters | soc_verification/cortexm3_model/carbon/carbon_sctlmtypes.h:186-206 | count and timer are functions of the history of calls |
| GatedClock.ShutdownIff | soc_verification/cortexm3_model/carbon/carbon_sctlmtypes.h:255-273 | shutdown is chosen if and only if the model is idle, no transaction is open, and this is at least the max(1, timeout)th quiet edge since the last wakeup |
| GatedClock.WakeupAnswered | soc_verification/cortexm3_model/carbon/carbon_sctlmtypes.h:171-184 | once awake the next rising edge is fixed, within a start phase and a full period, whatever happens in between |
| GatedClock.FirstRise | soc_verification/cortexm3_model/carbon/carbon_sctlmtypes.h:145-164 | a new clock first rises one start phase after the beginning |
| GatedClock.AwakeEdges | soc_verification/cortexm3_model/carbon/carbon_sctlmtypes.h:208-253 | the next edge of an awake clock and its next rising one come exactly when they are due, whatever calls follow |
| GatedClock.IdleWakes | soc_verification/cortexm3_model/carbon/carbon_sctlmtypes.h:171-218 | an idle clock that is woken rises exactly one start phase later |
| GatedClock.ShutdownCaught | soc_verification/cortexm3_model/carbon/carbon_sctlmtypes.h:171-253 | one that is woken on its way to shutdown changes half a period and a start phase after its last edge; if it was high, it falls then and rises half a period later |
| GatedClock.KeepsPeriod | soc_verification/cortexm3_model/carbon/carbon_sctlmtypes.h:219-247 | until it is woken again, the clock changes exactly half a period after an edge, unless it has shut down low |
| GatedClock.ShutdownCompletes | soc_verification/cortexm3_model/carbon/carbon_sctlmtypes.h:228-247 | unless it is woken, a clock on its way to shutdown falls half a period after its last edge if that was a rising one, makes no other edge, and is idle once a period has passed |
| GatedClock.StartupLowIff | soc_verification/cortexm3_model/carbon/carbon_sctlmtypes.h:211-218 | startup finds the clock low if and only if the wakeup did not catch a shutdown with the clock high |
| GatedClock.StartupCanBeHigh | soc_verification/cortexm3_model/carbon/carbon_sctlmtypes.h:213 | a run that starts up with the clock high |
| GatedClock.RunGoesOn | soc_verification/cortexm3_model/carbon/carbon_sctlmtypes.h:171-273 | an allowed event makes a longer run, so what holds of runs holds of the object after any of its methods |
| GatedClock.GatedClock.Wake | soc_verification/cortexm3_model/carbon/carbon_sctlmtypes.h:171-184 | the method makes the step of the machine, and the object stays where a run has led |
| GatedClock.GatedClock.TransactionStart | soc_verification/cortexm3_model/carbon/carbon_sctlmtypes.h:186-196 | likewise |
| GatedClock.GatedClock.TransactionEnd | soc_verification/cortexm3_model/carbon/carbon_sctlmtypes.h:198-206 | likewise |
| GatedClock.GatedClock.ClockMethod | soc_verification/cortexm3_model/carbon/carbon_sctlmtypes.h:208-253 | likewise; the process is never due in the idle state |
| GatedClock.GatedClock.ActivityTimer | soc_verification/cortexm3_model/carbon/carbon_sctlmtypes.h:255-273 | likewise |

## Left out

- FmtStream.FmtStream.SetRight: the new margin must not lie left of the column that Point gives, because there the source computes addresses before the line; `Run` reports such a call as refused.
- FmtStream.Run: claims nothing of the output once a scan has left the text, because the source then works on bytes that are nobody's text (`OverrunIff` says when).
- Lines.WrapsWords: shown without exact fits only, and for the output without overruns (`OutputWraps`); `LayIff` describes the layout with margins and exact fits too, `ReplacesOnlyBlanksIff` says exactly when breaks replace only blanks, and finished lines are bounded in every case (`LayLinesOk`).
- Lines.LayIff: says nothing of texts that the scan leaves, of which `OverrunIff` says exactly which they are.
- Convert.LetterArg: the letters ':', '+' and '-' are excluded, as in `GroupOfShort`.
- Convert.GroupOfShort: the letters ':', '+' and '-' are excluded, which the string also uses for its own marks.
- Protocol.Parse: the loop takes at most a given number of steps, because parsing functions may keep the source's loop going for ever; every finished run is covered.
- Protocol.Parser.GroupParse: a parsing function may answer anything and move `next` and `argc`; it may not change `flags`, `quoted` or the options, and the inputs it hands to children are not modelled.
- Protocol.Parser.Getopt: any answer; which group an option goes to is proved in `Convert`.
- OutputQueue.Port.PerformWrite: a SystemC value is represented by its bits; of the conversions those of logic vectors and unsigned long are modelled.
- LogicVector.BufToULong: at most two words, because more would be shifted by the whole width of the number, which C++ leaves undefined.
- GatedClock.ShutdownIff: time and the idle timer are unbounded integers, and half a clock period is a parameter, so rounding of sc_time is not modelled.
- The truncating mode of argp-fmtstream (negative wrap margin), printf, puts and the _LIBC output path.
- Sorting of help entries beyond clusters, help filters, translation, locales (printing characters are those of the C locale), and the message text of argp-help.
- getopt itself, storage allocation in the parser, ARGP_PARSE_ARGV0, the default and version argps, and the propagation of inputs.
- Integers of argp are unbounded except where option values are packed (`Encode`) and where usage levels are bytes (`Level`); usage strings have at most 128 alternatives.
- The conversions for SystemC integers, big integers, bit vectors and the other C integers, the bidirectional ports, tracing, and the rest of the generated wrapper.
