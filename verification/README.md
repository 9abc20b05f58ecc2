# Verified models of LikeOS-64

LikeOS-64 is a small 64-bit operating system written in C. This project models
the parts of it whose correctness is hardest to see from the text, and proves
what each is for.

| component | source | files |
|---|---|---|
| `grep`: pattern compiler, backtracking matcher, search, context printing | `user/grep.c` | `GrepMatch`, `GrepMeaning`, `GrepSearch`, `GrepCompile`, `GrepPattern`, `GrepReads`, `GrepClasses`, `GrepTheorems`, `GrepExit`, `GrepEscapes`, `GrepContext`, `GrepWindows`, `GrepSeparators` |
| boot loader: page-table pool and higher-half paging | `boot/bootloader.c` | `BootPaging`, `BootLoader`, `BootTheorems`, `BootSetup` |
| `find`: expression parser and tree walk | `user/find.c` | `FindParse`, `FindParser`, `FindPrint`, `FindWalk`, `FindTheorems` |
| `less`: line store, pipe reading, viewport | `user/less.c` | `LessStore`, `LessPager`, `LessTerminal` |
| `ls`: natural order and sort orders | `user/ls.c` | `LsVersion`, `LsOrder` |
| `ps`: process forest | `user/ps.c` | `PsForest`, `PsBuilder` |
| `hexdump`: squeezing of repeated lines | `user/hexdump.c` | `Hexdump` |
| `host`: compressed DNS names | `user/host.c` | `HostName` |
| `printf`: backslash escapes and `%q` | `user/printf.c` | `PrintfEscape` |

Every component has the same shape. A function over values says what the code
computes, branch by branch and with the same constants. Where the C code works
by loops and assignments, a method or a class with fields does so too, and its
postcondition ties it to that function. Lemmas then relate the function to an
independent account of what the component promises: a declarative meaning, an
inverse, an invariant over every run. `Bytes` holds the shared vocabulary: a
byte is an `unsigned char`, a C string is a byte sequence without NUL, and
reading one position past it gives the terminator. All lemmas carry
`{:induction false}`, so that each proof is the one written down.

## Main results

- The regular-expression matcher of `grep` succeeds exactly when some vector of
  repetition counts fits the declarative reading of its node list, and it stops
  where the lexicographically greatest such vector does. No assumption is made
  about the node list.
- Printing a pattern, compiling the text and searching with it, with or without
  `-i`, finds the leftmost match of the pattern's textbook meaning if and only
  if the first alternative does not start with `^`, or the pattern fits at the
  start of the line, or nowhere; of a long pattern it is the first 2047 nodes and
  64 alternatives that count. A quoted string is found exactly where the
  fixed-string search finds it, if and only if it has at most 2047 bytes.
- The boot page tables translate exactly three windows of the 64-bit address
  space, and keep every kernel page mapped under every pattern of refused page
  allocations; the whole kernel window is mapped if and only if no allocation
  behind the kernel image is refused.
- `find` parses the printed form of every expression back to itself if and only
  if the expression has at most 512 nodes; its walk evaluates exactly the places
  within the depth limits in pre- or post-order.
- `less` holds the same lines whatever the sizes of its reads and whatever
  commands are given in between, and its window leaves the text only by a jump
  to a mark below the last full window.
- The natural order of `ls` is the dictionary order of token sequences, hence a
  total order; so are all twenty-four combinations of its sort options.
- The process forest of `ps` lists every process once, below its parent, for
  every parent relation, cycles included.
- Squeezed hex dumps expand to the verbose dump and to the input.
- A compressed DNS name decodes to its labels joined by dots if and only if no
  label lies behind its sixteenth pointer and the text fits.
- Staged printing of a format is `print_escaped` of the whole; what `%q` writes
  decodes to its argument if and only if the argument has no single quote.

## Promises that do not hold as stated

- `user/grep.c:453-464`: the early exit for a leading `^` loses matches when
  another alternative could match later (`^a|b` on `xb`), and when a quantifier
  follows the `^` (`^*b`). `EarlyExitLosesBranch` and `EarlyExitLosesQuantified`
  give the inputs. Alternatives of literal words are searched right on every line
  if and only if the first has no `^`, or all have one, or one of them is empty
  (`WordsExact`), and so are alternatives of atoms taken at least once whose first
  atoms leave some byte free (`AlternativesExact`). `PatternSearch` and
  `PatternSearchExact` say for every pattern on which lines the answer is right.
- `user/grep.c:146-203`: with `-i`, a literal behind a backslash is not folded
  while the line is, so a backslash in front of a capital letter that it does not
  change makes the whole search fail. A string written with needless backslashes
  is found as the fixed-string search finds it, on every line, if and only if it
  has at most 2047 bytes and, with `-i`, none of them stands in front of a capital
  letter (`EscapedSearchExact`).
- `user/grep.c:127` and `user/grep.c:449`: of a pattern the program sees the
  first 2047 nodes and of those the first 64 alternatives, without a word to the
  user; `Seen` is what is left of it.
- `user/grep.c:714-728`: context printing omits lines numbered below the
  after-context before the first selected line. The union of windows is printed
  for every input if and only if the after-context is at most 1 or the
  before-context is 0 (`WindowsExact`); line numbers increase for every input if
  and only if the before-context is at most 1024 (`IncreasingExact`).
- `user/grep.c:707-712`: the test for the separator ignores the before-context, so
  a separator can stand between consecutive lines: with `-B1` and lines 1 and 3
  selected, between lines 1 and 2 (`SeparatorInsideGroup`). Separators stand
  exactly where the printed line numbers jump if and only if no selected line
  lies behind the after-context of the one before with its before-context
  reaching back to it (`TidyExact`); for every input if and only if the
  before-context is 0 (`AlwaysTidyExact`).
- `user/less.c:1000-1009`: jumping to a mark does not clamp the window. A command
  keeps the window inside the text if and only if it is not such a jump
  (`DoInView`, `RunInView`).
- `boot/bootloader.c:541-546`: the comment there names entry 256 of the
  third-level table; the index the code computes is 510, and the model follows
  the code.

## Model

| member | source | states |
|---|---|---|
| `GrepMatch.TryMatch` | user/grep.c:341-429 | the loop with its greedy inner loop and backtracking recursion returns what the matcher function returns, for every node list, position and line |
| `GrepMatch.GreedyRun` | user/grep.c:374-381 | the greedy loop counts the longest run of bytes the atom accepts, up to the upper bound |
| `GrepMatch.TryCounts` | user/grep.c:382-386 | the backtracking loop tries the counts from the longest run down to the lower bound |
| `GrepMeaning.MatchMeaning` | user/grep.c:341-429 | every node list: a match exists exactly when some count vector fits the pieces, and the end returned is that of the lexicographically greatest one |
| `GrepMeaning.MeaningUnique` | user/grep.c:341-429 | that meaning determines the answer |
| `GrepMeaning.AtomFolds` | user/grep.c:307-335 | with icase, an atom does not tell apart the two cases of a letter |
| `GrepMeaning.MatchFolds` | user/grep.c:341-429 | with icase, lines that differ only in letter case get the same answer and the same end |
| `GrepSearch.FindAltStarts` | user/grep.c:440-451 | the scan collects the first 64 starts of top-level alternatives |
| `GrepSearch.AllStartsExact` | user/grep.c:440-451 | the starts are the pattern's first node and exactly the nodes behind bars outside all groups, each once and in order |
| `GrepSearch.TryAlternatives` | user/grep.c:456-463 | the inner loop returns the end of the first alternative that matches at a position |
| `GrepSearch.RegexSearch` | user/grep.c:435-467 | the double loop over positions and alternatives computes the search function |
| `GrepSearch.SearchLeftmost` | user/grep.c:435-467 | the answer is the leftmost position where an alternative matches, with the first alternative that does; none means no position has one |
| `GrepSearch.EarlyExitExact` | user/grep.c:453-464 | every node list and line: stopping after position 0 gives the answer of the full search if and only if there is no leading `^`, or an alternative matches at the start of the line, or none matches anywhere |
| `GrepSearch.PinnedExact` | user/grep.c:453-464 | it does on every line when every alternative starts with a `^` that is not quantified, or at least once |
| `GrepSearch.SearchFolds` | user/grep.c:435-467 | with icase, lines that differ only in letter case give the same match bounds |
| `GrepSearch.FixedSearch` | user/grep.c:474-494 | the two loops return the first occurrence of the pattern, or none when there is none |
| `GrepSearch.FirstOccurrenceUnique` | user/grep.c:474-494 | the first occurrence is unique, and with icase the same for lines that differ only in letter case |
| `GrepCompile.RangeLoop` | user/grep.c:267-273 | the loop over a range sets exactly the bits of its bytes, both cases of letters with icase |
| `GrepCompile.PosixLoop` | user/grep.c:97-112 | the loop over all 256 bytes adds a named class to the table |
| `GrepCompile.ParsePosixClass` | user/grep.c:85-114 | the scan for the closing colon and the class loop compute the class parser, or find no class |
| `GrepCompile.MembersLoop` | user/grep.c:253-281 | the loop over a bracket expression, named classes included, computes the member parser |
| `GrepCompile.ClassLoop` | user/grep.c:246-286 | the whole bracket expression, negated or not |
| `GrepCompile.IntervalLoop` | user/grep.c:168-187 | reading `{m,n}`, `{m,}` and `{m}` in both syntaxes |
| `GrepCompile.ReCompile` | user/grep.c:117-299 | the compiler's main loop produces the node list of the compile function, in both syntaxes, with and without icase |
| `GrepClasses.SetRangeTest` | user/grep.c:267-273 | the bit table of a range answers yes for exactly the bytes of the range, the other case of its letters with icase, and those set before |
| `GrepReads.MemberBitsTest` | user/grep.c:253-281 | the bit table of a member list, tested as the matcher does, answers yes for exactly the bytes some member names, in either case with icase |
| `GrepReads.AtomNodeMeaning` | user/grep.c:307-335 | the compiled node of an atom accepts a byte exactly when the atom does, with and without icase |
| `GrepClasses.SetPosixTest` | user/grep.c:97-112 | the table then holds exactly the bytes of the class and those it held before |
| `GrepClasses.CTypeMeaning` | user/grep.c:99-110 | the character tests are the classes of POSIX.1-2017, XBD section 7.3.1, in the C locale |
| `GrepClasses.NamedMeaning` | user/grep.c:99-110 | each of the twelve names selects the bytes of its class, and every other name none |
| `GrepReads.NamedReads` | user/grep.c:85-95 | `[:name:]` is read to its end, whatever follows |
| `GrepReads.IntervalReads` | user/grep.c:168-187 | a printed interval is read back with its bounds, to its end |
| `GrepReads.MembersRead` | user/grep.c:253-281 | a printed member list, `]` first, `-` and `^` where they stand for themselves, and named classes among them, is read back member by member |
| `GrepReads.ClassReads` | user/grep.c:246-286 | a printed bracket expression is read back as its class node, to its end |
| `GrepReads.LexReads` | user/grep.c:117-299 | every printed unit is read back as its node, whatever follows |
| `GrepReads.TextCompiles` | user/grep.c:117-299 | the text of every unit list compiles to its nodes, cut off after 2047 |
| `GrepTheorems.QuotedSearch` | user/grep.c:117-299 | compiling a backslash-quoted string and searching finds the first occurrence of its first 2047 bytes, in both syntaxes, with and without icase |
| `GrepTheorems.QuotedSearchExact` | user/grep.c:435-494 | the quoted search agrees with the fixed search on every line if and only if the string has at most 2047 bytes |
| `GrepTheorems.BranchAnswer` | user/grep.c:341-429 | the textbook meaning of an alternative and the declarative meaning of its nodes allow the same ends, and none at the same positions |
| `GrepTheorems.CutUnits` | user/grep.c:126-128 | cutting a pattern after n nodes leaves the pattern whose text gives those nodes; an atom may lose its quantifier |
| `GrepTheorems.PatternSearchExact` | user/grep.c:117-467 | every pattern without groups and every line, with and without icase: printing, compiling and searching gives the leftmost match of the textbook meaning of what the program sees of the pattern, by the first alternative that fits there, if and only if the first alternative does not start with `^`, or the pattern fits at the start of the line, or nowhere |
| `GrepTheorems.PatternSearch` | user/grep.c:117-467 | so it does on every line when all alternatives it sees start with `^`, or the first does not |
| `GrepTheorems.SeenWhole` | user/grep.c:440-451 | a pattern of at most 2047 nodes and 64 alternatives is seen whole |
| `GrepExit.AlternativesExact` | user/grep.c:435-467 | alternatives of atoms taken at least once whose first atoms leave some byte free: the answer is right on every line if and only if the first is not behind `^`, or all are, or one is empty |
| `GrepExit.WordsExact` | user/grep.c:435-467 | alternatives of literal words, each perhaps behind `^`: the answer is right on every line if and only if the first is not behind `^`, or all are, or one is empty |
| `GrepEscapes.EscapedSearch` | user/grep.c:146-203 | a string with needless backslashes: with icase and one in front of a capital letter the search fails on every line, otherwise it finds the first occurrence of the first 2047 bytes |
| `GrepEscapes.EscapedSearchExact` | user/grep.c:146-203 | it agrees with the fixed search on every line if and only if it has at most 2047 bytes and, with icase, no backslash in front of a capital letter |
| `GrepExit.EarlyExitLosesBranch` | user/grep.c:453-464 | the alternatives `^a` and `b`, compiled, on `xb`: the early exit loses the match at 1 |
| `GrepExit.EarlyExitLosesQuantified` | user/grep.c:453-464 | `^*b`, compiled, on `xb`: the early exit loses the match at 1 |
| `GrepContext.BeforeBufAdd` | user/grep.c:622-632 | a line goes into the next slot of the ring and no other slot changes |
| `GrepContext.PrintBuffered` | user/grep.c:714-728 | the loop prints the buffered lines that still lie in the before-window |
| `GrepContext.PrintGroup` | user/grep.c:707-733 | separator, before-context and the selected line, in that order |
| `GrepContext.ProcessFile` | user/grep.c:667-784 | the line loop with its counters produces the events of the run function |
| `GrepWindows.RunInv` | user/grep.c:667-784 | what every line keeps: last printed line, after-count, ring contents and fill, in terms of the selection |
| `GrepWindows.ContextExact` | user/grep.c:707-784 | for before-context up to 1024: line numbers strictly increase, and the lines printed are exactly those in a window, less the ones the code suppresses |
| `GrepWindows.WindowsExact` | user/grep.c:707-784 | the union of the windows is printed for every selection if and only if the after-context is at most 1 or the before-context is 0 |
| `GrepSeparators.SeparatorsExact` | user/grep.c:707-712 | the separators are as many as the selected lines more than the after-context plus one behind the selected line before |
| `GrepSeparators.TidyExact` | user/grep.c:707-733 | every selection, before-context up to 1024: separators stand exactly where the printed numbers jump if and only if no gap between selected lines is wider than the after-context but not than both contexts |
| `GrepSeparators.CountsExact` | user/grep.c:707-733 | every selection: one separator for each jump of the printed numbers, and one more for each such gap |
| `GrepSeparators.AlwaysTidyExact` | user/grep.c:707-733 | separators mark the jumps, by place and by number, for every selection if and only if the before-context is 0 |
| `GrepSeparators.SeparatorInsideGroup` | user/grep.c:707-712 | `-B1`, lines 1 and 3 selected: all three lines are printed, with a separator behind the first |
| `GrepWindows.IncreasingExact` | user/grep.c:614-632 | line numbers increase for every selection if and only if the before-context fits the ring of 1024 |
| `BootLoader.Loader.InitPageTablePool` | boot/bootloader.c:303-338 | the pool is at the first address the firmware grants, zeroed, and setup fails only when both requests are refused |
| `BootLoader.Loader.AllocatePageTable` | boot/bootloader.c:340-356 | page after page of the pool, cleared, and 0 once all 128 are taken |
| `BootLoader.Loader.InitPageTables` | boot/bootloader.c:359-417 | succeeds exactly when the pool has a nonzero address, with the 26 fixed tables on pages 0 to 25 |
| `BootLoader.Loader.MapGigabytes` | boot/bootloader.c:511-534 | directories linked in order, each filled with 2 MiB pages of its GiB, nothing else touched |
| `BootLoader.Loader.MapFirstTable` | boot/bootloader.c:576-606 | the first window table: kernel pages, then granted pages up to the first refusal |
| `BootLoader.Loader.MapTable` | boot/bootloader.c:630-668 | a further window table, with the page and call counts carried over |
| `BootLoader.Loader.MapWindow` | boot/bootloader.c:553-670 | all 32 window tables are linked and filled, 31 of them taken from the pool, whatever the firmware answers |
| `BootLoader.Loader.MapDirectMap` | boot/bootloader.c:672-711 | entry 272 of the root and 16 GiB of 2 MiB pages |
| `BootLoader.Loader.SetupHigherHalfPaging` | boot/bootloader.c:484-711 | after setup every table has the contents of the paging model, and exactly 57 of the 128 pool pages are used |
| `BootPaging.OrIsSum` | boot/bootloader.c:503-545 | or-ing flags into a page-aligned address is adding them |
| `BootLoader.Loader.SetEntry` | boot/bootloader.c:503-545 | an entry or-ed together from a page-aligned address and flags holds their sum, and no other entry changes |
| `BootTheorems.WalkDirect` | boot/bootloader.c:511-533 | a walk through a table of directories maps addresses below its GiBs to themselves and no others |
| `BootTheorems.WalkExact` | boot/bootloader.c:484-711 | every 64-bit address: the 4-level walk of section 4.5 of the Intel SDM, Volume 3A, gives the identity below 4 GiB, the direct map for 16 GiB, the window table's frame in the kernel window, and nothing elsewhere |
| `BootTheorems.KernelAlwaysMapped` | boot/bootloader.c:553-670 | under every pattern of refused allocations each kernel page that fits the window maps to its place in the image |
| `BootTheorems.FramesDistinct` | boot/bootloader.c:553-670 | no two mapped pages of the window share a frame, and none is a pool page |
| `BootTheorems.WindowUnrefused` | boot/bootloader.c:553-670 | behind the image, up to the first refused allocation, the window holds the granted pages in order |
| `BootTheorems.HoleAtRefusal` | boot/bootloader.c:553-670 | the page of the first refused allocation is not mapped |
| `BootTheorems.WholeWindowExact` | boot/bootloader.c:553-670 | all 16384 pages of the window are mapped if and only if none of the allocations for the pages behind the image is refused |
| `BootTheorems.WalkUnrefused` | boot/bootloader.c:484-711 | then the walk of every 64-bit address is the identity, the direct map, the image page or the granted page in order, and nothing elsewhere |
| `BootTheorems.GenerousIsHonest` | boot/bootloader.c:553-670 | a firmware that keeps its promises and refuses none of these allocations exists |
| `BootSetup.SetUp` | boot/bootloader.c:303-711 | reserving the pool, taking the tables and mapping: it fails exactly when there is no pool at a nonzero address, and otherwise the walk of every 64-bit address gives the intended translation |
| `BootTheorems.ProgressBounds` | boot/bootloader.c:608-670 | the page count keeps step with the tables until every kernel page is mapped |
| `FindParser.Parser.AllocExpr` | user/find.c:94-103 | a node is handed out until 512 are in use, then the program exits |
| `FindParser.Parser.ParseTest` | user/find.c:250-527 | the chain of tests reads one leaf with its argument and sets the action and depth flags |
| `FindParser.Parser.Primary` | user/find.c:215-528 | parentheses, negation and tests agree with the parse function, including every exit |
| `FindParser.Parser.Conjunction` | user/find.c:531-560 | the loop over conjuncts agrees with the parse function |
| `FindParser.Parser.Disjunction` | user/find.c:562-585 | the loop over disjuncts agrees with the parse function |
| `FindPrint.ParsePrinted` | user/find.c:215-585 | the minimally parenthesised text of an expression, with or without `-a`, parses back to it with all arguments consumed and the flags of its actions, if and only if it has at most 512 nodes |
| `FindPrint.ReadsBack` | user/find.c:215-585 | an expression is read back wherever it stands as a primary, a conjunct or a disjunction |
| `FindWalk.Finder.FindWalk` | user/find.c:909-974 | the recursive walk with its flags produces the events of the walk function |
| `FindTheorems.WalkPre` | user/find.c:909-974 | without `-quit`: exactly the places within the depth limits that have no pruned ancestor are evaluated, in pre-order |
| `FindTheorems.WalkPost` | user/find.c:909-974 | with `-depth`, for every expression: the places are evaluated in post-order, `-prune` or not, up to the first one that quits; after that its ancestors, inside out |
| `FindTheorems.QuitIsPrefix` | user/find.c:745-974 | in pre-order mode the events with `-quit` are a prefix of those with `-quit` read as `-true` |
| `FindTheorems.WalkNoQuit` | user/find.c:909-974 | with `-quit` read as `-true` no walk stops early |
| `FindTheorems.QuitFreeNever` | user/find.c:745-974 | an expression without `-quit` never asks to stop, and no walk with it does |
| `FindTheorems.FirstFireExact` | user/find.c:909-974 | the place where a post-order walk stops is the first that is evaluated and quits |
| `LessStore.FullExactly` | user/less.c:225-241 | growth by doubling refuses a line exactly when 1048576 are held |
| `LessStore.FeedHolds` | user/less.c:308-320 | after any bytes the store holds the first 1048576 lines of the unlimited split, the same partial line and blank flag |
| `LessStore.FeedStrictHolds` | user/less.c:256-268 | a loader that stops at a full array has the first 1048576 lines, and stops exactly when there are more |
| `LessStore.LinesExact` | user/less.c:243-285 | the lines are the text's lines, squeezed if asked, if and only if none is longer than 16383 bytes |
| `LessStore.UnlinesTextLines` | user/less.c:243-285 | writing the lines of a text out again gives the text, with its last newline supplied |
| `LessStore.TextLinesExact` | user/less.c:243-285 | those lines are the only newline-free ones that do |
| `LessPager.PipeExact` | user/less.c:287-398 | for every sequence of reads and every run of commands: the store is within its capacity and holds a prefix of the stream's lines, all of them once the pipe has closed |
| `LessPager.FileExact` | user/less.c:243-285 | a file loads the lines of its bytes, however read, and fails exactly when there are more than 1048576 |
| `LessPager.PipeIsFile` | user/less.c:243-398 | a closed pipe and a file with the same bytes have the same lines |
| `LessPager.EndClosesPipe` | user/less.c:807-844 | going to the end reads the whole stream |
| `LessPager.SearchNext` | user/less.c:471-477 | the nearest matching line in the given direction, or none when there is none |
| `LessPager.DoInView` | user/less.c:736-1009 | a command keeps the window full or at the first line if and only if it does not jump to a mark below the last full window |
| `LessPager.RunInText` | user/less.c:736-1009 | in every run the first visible line and every mark stay inside the text |
| `LessPager.RunInView` | user/less.c:736-1009 | the window is in view in every state of a run if and only if no command of the run is such a jump |
| `LessPager.SessionInView` | user/less.c:736-930 | from the start, for every input: a run whose window never grows, or that jumps to no mark, keeps the window in view |
| `LessPager.ForwardBack` | user/less.c:736-787 | moving forward goes as far as the text allows; moving back by the same count returns if and only if it went all the way or started at the first line |
| `LessPager.MarkReturns` | user/less.c:991-1009 | a mark is found again after any run that does not set it anew |
| `LessPager.GrownWindowLosesView` | user/less.c:991-1009 | two empty lines from the start of the program: step forward, mark, grow the window, jump back is a run that leaves the view |
| `LessTerminal.Less.AddLine` | user/less.c:225-241 | appends, growing the capacity, or refuses and changes nothing |
| `LessTerminal.Less.TakeChunk` | user/less.c:308-320 | the byte loop of the pipe readers; a line that finds no room is lost |
| `LessTerminal.Less.TakeStrict` | user/less.c:256-268 | the byte loop of the loaders, up to the first line that finds no room |
| `LessTerminal.Less.FlushTail` | user/less.c:325-331 | the partial line becomes the last one |
| `LessTerminal.Less.LoadFile` | user/less.c:243-285 | the read loop computes the load function and its status |
| `LessTerminal.Less.LoadFirst` | user/less.c:340-398 | the first screenful, the end of the stream, or a full array |
| `LessTerminal.Less.ReadChunk` | user/less.c:308-334 | one read: its bytes are split into lines, or at the end the partial line is flushed and the pipe closed |
| `LessTerminal.Less.ReadReady` | user/less.c:288-334 | reads while data is ready, and flushes the partial line at the end |
| `LessTerminal.Less.GoForward` | user/less.c:736-781 | blocking reads until enough lines exist, then the clamped move |
| `LessTerminal.Less.GoBackward` | user/less.c:783-787 | back by the count or a window, not before the first line |
| `LessTerminal.Less.ZoomForward` | user/less.c:1111-1114 | a new window height, then a window forward |
| `LessTerminal.Less.ZoomBackward` | user/less.c:1136-1139 | a new window height, then a window back |
| `LessTerminal.Less.GoToLine` | user/less.c:799-805 | the clamped line |
| `LessTerminal.Less.GoToPercent` | user/less.c:846-853 | the clamped share of the lines |
| `LessTerminal.Less.GoToEnd` | user/less.c:807-844 | drains the pipe, then shows the last window |
| `LessTerminal.Less.Search` | user/less.c:471-477 | the scan in either direction computes the nearest match |
| `LessTerminal.Less.SearchForwards` | user/less.c:855-884 | forward from the first visible line, clamped |
| `LessTerminal.Less.SearchBackwards` | user/less.c:886-913 | backward from the first visible line |
| `LessTerminal.Less.SearchAgain` | user/less.c:915-930 | repeats the search in the same or the opposite direction and clamps |
| `LessTerminal.Less.Mark` | user/less.c:991-998 | remembers the first visible line |
| `LessTerminal.Less.GoToMark` | user/less.c:1000-1009 | returns to a remembered line, unclamped |
| `LsVersion.CompareVersions` | user/ls.c:384-412 | the two-pointer loop computes the comparison function |
| `LsVersion.RunLenExact` | user/ls.c:387-403 | a digit run is the longest one at its place |
| `LsVersion.RunDiffValue` | user/ls.c:387-403 | two digit runs compare by number, and runs of one number by leading zeros |
| `LsVersion.VersionMeaning` | user/ls.c:384-412 | the comparison is the dictionary order of token sequences, a token being a digit run or another byte |
| `LsVersion.TokensInjective` | user/ls.c:384-412 | a name is determined by its tokens |
| `LsVersion.VersionOrder` | user/ls.c:384-412 | antisymmetric, transitive, and zero only for equal names |
| `LsOrder.Extension` | user/ls.c:451-462 | from the last dot to the end, empty without a dot |
| `LsOrder.StrCmpMeaning` | user/ls.c:417-422 | comparing names is the dictionary order by byte values |
| `LsOrder.BaseMeaning` | user/ls.c:417-474 | which entry comes first under each option: larger, newer or shorter first, extension or natural order, ties by name |
| `LsOrder.BaseOrder` | user/ls.c:417-474 | each of the six comparisons is a total order in which only equal names tie |
| `LsOrder.CompareOrder` | user/ls.c:477-491 | so is each under reverse and directories-first |
| `LsOrder.SortedUnique` | user/ls.c:477-491 | the comparison leaves a directory exactly one sorted listing |
| `LsOrder.DirsFirst` | user/ls.c:477-491 | with directories-first no directory stands behind another entry, reversed or not |
| `LsOrder.ReverseMirrors` | user/ls.c:477-491 | without grouping the reversed listing is the listing read backwards |
| `PsBuilder.Builder.TreeWalk` | user/ps.c:890-900 | the recursive walk over the mark array computes the walk function and never leaves the table of 4096 lines |
| `PsBuilder.Builder.IsRoot` | user/ps.c:909-912 | the inner loop decides whether another process of the list is the parent |
| `PsBuilder.Builder.PlantOne` | user/ps.c:908-920 | a process without a parent in the list is put down with everything below it, any other is left alone |
| `PsBuilder.Builder.Place` | user/ps.c:921-928 | a process the first pass left out goes to the end of the list |
| `PsBuilder.Builder.BuildForest` | user/ps.c:902-929 | both passes together fill the table with the forest function's lines |
| `PsForest.WalkChildren` | user/ps.c:890-900 | a walk marks every child it was sent for |
| `PsForest.WalkClosed` | user/ps.c:890-900 | and every child of what it marks |
| `PsForest.MarkedExactly` | user/ps.c:907-920 | the first pass marks exactly the processes that a chain of parents connects to a root |
| `PsForest.ForestExact` | user/ps.c:890-929 | every parent relation: each process is listed once; an entry at depth d > 0 has as parent the closest earlier entry at depth d - 1; depth 0 is exactly the roots and the processes no root leads to |
| `PsForest.ForestInOrder` | user/ps.c:890-929 | entries with the same parent entry are listed by increasing index |
| `Hexdump.ReadVal` | user/hexdump.c:518-525 | the little-endian value of the bytes that are there |
| `Hexdump.LittleEndianTells` | user/hexdump.c:518-525 | equal values of one size come from equal bytes |
| `Hexdump.SkipInput` | user/hexdump.c:883-892 | drops the first bytes across all files |
| `Hexdump.FillLine` | user/hexdump.c:636-649 | a line takes the next bytes across files, up to the width and the limit |
| `Hexdump.DoDump` | user/hexdump.c:615-721 | the main loop with its previous line and star flag produces the records of the dump function, for widths up to 256 |
| `Hexdump.SqueezeLossless` | user/hexdump.c:654-667 | replacing each star by copies of the line before it, up to the next printed address, gives the verbose records |
| `Hexdump.VerboseDump` | user/hexdump.c:654-667 | with -v nothing is squeezed |
| `Hexdump.DumpReadsBack` | user/hexdump.c:615-721 | the expanded dump shows the input up to the limit, and the last address is skip plus bytes dumped |
| `HostName.SkipDnsName` | user/host.c:41-50 | the loop computes the skip function |
| `HostName.DecodeDnsName` | user/host.c:53-74 | the loop computes the decode function for every packet, pointer cycles included, and terminates its output inside the buffer |
| `HostName.Decode` | user/host.c:53-74 | the text never exceeds the buffer |
| `HostName.NameUnique` | user/host.c:53-74 | octets are at most one name in the sense of section 4.1.4 of RFC 1035 |
| `HostName.NameDecodes` | user/host.c:53-74 | a name whose text fits yields the labels in front of its 16th pointer, and the offset of skipping it |
| `HostName.NameExact` | user/host.c:53-74 | the labels joined by dots come out if and only if no label lies behind the 16th pointer and the text fits |
| `HostName.NameReads` | user/host.c:41-74 | at most 15 pointers and enough room: labels joined by dots, and the same offset as skipping |
| `HostName.CycleStops` | user/host.c:58-66 | a pointer to itself ends after sixteen jumps, with the offset behind it |
| `HostName.EncodeDecodes` | user/host.c:41-74 | decoding undoes the uncompressed encoding anywhere in a packet |
| `PrintfEscape.PrintEscaped` | user/printf.c:67-181 | the loop computes the bytes printed and the stop flag of the escape function |
| `PrintfEscape.ReadOctal` | user/printf.c:84-92 | at most three octal digits |
| `PrintfEscape.PrintHexEscape` | user/printf.c:93-170 | at most two, four or eight hexadecimal digits, and the escape itself without any |
| `PrintfEscape.Utf8Reads` | user/printf.c:119-164 | the UTF-8 bytes of every code point stand for that code point |
| `PrintfEscape.FourDigits` | user/printf.c:110-138 | four hexadecimal digits never need more than three bytes of UTF-8 |
| `PrintfEscape.OctalEscape` | user/printf.c:84-92 | every byte written as three octal digits is read back, whatever follows |
| `PrintfEscape.UnicodeEscape` | user/printf.c:110-170 | every number of four or eight hexadecimal digits is read whole and printed as its UTF-8, whatever follows |
| `PrintfEscape.StageEscape` | user/printf.c:289-310 | an escape is staged with at most one digit more than it can use, always inside the 16 bytes of the buffer |
| `PrintfEscape.PrintLiteral` | user/printf.c:280-315 | the format loop up to a `\c` or the first conversion computes the literal function |
| `PrintfEscape.LiteralEscaped` | user/printf.c:280-315 | a format in which no conversion is reached prints what `print_escaped` prints, with the same stop flag |
| `PrintfEscape.FormatEscaped` | user/printf.c:280-315 | in particular every format without a percent sign |
| `PrintfEscape.PrintQuoted` | user/printf.c:226-275 | the two loops write the shell word of the argument |
| `PrintfEscape.PayloadExact` | user/printf.c:226-275 | decoding what is written between the quotes gives the argument back if and only if it has no single quote |
| `PrintfEscape.BarePayload` | user/printf.c:233-246 | an argument written without quotes is its own payload |

## Left out

- GrepSearch.PinnedExact: one direction only; which patterns the early exit treats right on every line depends on their languages, and is stated exactly by `GrepExit.AlternativesExact` for alternatives of atoms taken at least once.
- BootLoader.Loader.SetupHigherHalfPaging: takes the firmware to keep the promise of section 7.2 of the UEFI Specification (aligned pages, disjoint from each other, the pool and the kernel image), and the kernel image to be one contiguous segment.
- FindParser.Parser.ParseTest: whether a numeric, permission, type or file argument is acceptable is a parameter, and expression nodes are values while the pool is a counter of nodes taken.
- FindWalk.Finder.FindWalk: what the expression answers and prints for a path is a parameter that stays the same during the walk.
- HostName.DecodeDnsName: the byte behind the packet is a parameter, read when the packet cuts a pointer off.
- Hexdump.ReadVal: or-ing shifted bytes is adding their multiples of powers of 256; values of more than 8 bytes, whose shift C leaves undefined, are not covered.
- LsOrder.SortedUnique: says that the sorted order is unique; the sorting routine of the C library is not part of this model.
- Integer widths: interval bounds of `grep`, counts typed into `less`, dump addresses and file offsets are unbounded numbers here.
- GrepTheorems.PatternSearchExact: patterns without groups, back references and quantified anchors, and lines of at most 2147483647 bytes.
- GrepTheorems.PatternSearch: the same patterns and lines.
- GrepExit.AlternativesExact: patterns that are seen whole, with shortest matches of fewer than 2147483647 bytes.
- GrepExit.WordsExact: patterns that are seen whole.
- Groups and back references of `grep` are nodes that the matcher passes over, as in the code; what POSIX.1-2017 sections XBD 9.3 and 9.4 ask of them is not stated.
- `grep` options -w, -x, -o, -c, -m and the choice of files.
- `find`: file tests, `-exec` and `-delete` are events and answers of the environment, and the tree does not change during the walk.
- `less`: read errors, memory exhaustion, changing the squeeze option in mid-stream, several files, horizontal scrolling, display, and how a search pattern matches a line (a parameter).
- `hexdump`: the formatting of a record; the model's output is addresses and bytes.
- `printf`: conversions, `%b` and numeric arguments.
- Boot: ELF loading, the trampoline, the memory map and graphics setup.
- The copies of these algorithms in `more`, `man`, `dig` and `nslookup`, and the programs that only wrap system calls.
