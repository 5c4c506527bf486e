# Models and proofs for parts of a System V Release 4 source tree

The tree is the System V Release 4 source. The project models ten of its components, those with the most
state and branching, and proves what they are for. Names are those of the source where it has one.

- **awk's regular expressions** (`usr/src/cmd/awk/b.c`, `gsub` in `run.c`). `AwkParse` is the scanner and the
  recursive-descent parser, `AwkEscape` says which bytes are which token and `AwkSyntax` which texts are which tree,
  `AwkGrammar` and `AwkPrint` what they accept and reject, `AwkRegex` the language of a tree and the automaton over its
  leaves, `AwkFollow` the code that builds it, `AwkDfa` the table of 32 states filled on demand, `AwkSearch`, `AwkRun`
  and `AwkFa` the searches over that table, `AwkLimits`, `AwkSlip`, `AwkCaret` and `AwkPattern` how far it reaches.
  `AwkHits` is what substitution is to replace, `AwkBuffer` its output buffer, `AwkGsub` the code; `AwkCut` and
  `AwkAgain` are inputs on which it goes wrong.
- **The ed/sed/grep pattern compiler and matcher** (`usr/src/head/regexp.h`). `EdProgram` says what a compiled program
  matches, `EdAdvance` is the backtracking matcher, `EdCompile` and `EdCompiler` the compiler, `EdSpelling`, `EdReading`
  and `EdPattern` what patterns spell and that they are compiled to that, `EdErrors` which texts are refused, and why.
- **The uucico conversation** (`usr/src/cmd/bnu/cntrl.c`): the two sides and their lines in `Uucico`, what becomes of
  each job in `Books`, the code in `Conversation`. The choice of its protocol (`conn.c`) in `Protocol`, and of its
  parameters in `Params`.
- **The line index of bfs** (`usr/src/cmd/bfs/bfs.c`) in `Bfs`.
- **awk's symbol table** (`usr/src/cmd/awk/tran.c`) in `SymTab`.
- **acctmerg, wtmpfix, cpout** and uucico's list of work files (`anlwrk.c`) in `Acctmerg`, `Wtmpfix`, `Cpout`, `Anlwrk`
  and `Bookmark`.

Code that changes state is written as classes and methods over arrays and linked cells, each proved equal to a function
on values; the properties are lemmas about those functions and clauses of the methods. `dafny verify dfyconfig.toml`
checks everything.

## Findings

Promises the code does not keep, with the input and the exact condition.

- **A recycled table can answer wrongly.** When all 32 states of an automaton are in use, `cgoto` starts numbering at 2
  again; if it was in state 2, the new row 2 is cleared and then given the old state's transition. Thirty a's or zq,
  sought in 29 a's and zzq, is reported as zzq, which does not match (`AwkSlip.WrongAnswer`, and from the object itself
  `AwkSlip.Show`). A step records a wrong transition exactly when it recycles in state 2 and the new state does not go
  to itself on the same character (`AwkDfa.EnterFaithful`); a search goes over right tables only exactly when it makes
  no such step (`AwkRun.SearchSlips`). For the answer this is enough but not necessary: in 29 a's and zq the same slip
  does no harm (`AwkSlip.RightAnswer`).
- **`^` is lost after a recycled table.** `pmatch` and `nematch` set `initstat` to 2 when they rebuild the table, and
  nothing sets it back. `^` can match in a search exactly when `reset` is set at the call or `initstat` still is the
  state `makeinit` returned (the value of `hats` in `AwkFa.Fa.Pmatch`). An automaton of ^b or thirty-two a's and c,
  called with thirty-two a's, then with the empty text, then with b, says that b does not match (`AwkCaret.CaretLost`,
  and from the object itself `AwkCaret.Show`).
- **A pattern can be read past its NUL**, exactly when it ends in an odd run of backslashes outside a class and is
  otherwise, but for parentheses still open, a good pattern (`AwkGrammar.OverrunIff`).
- **A class can overrun `cbuf`**, exactly when its text, with the NUL behind it, takes more than 150 bytes
  (`AwkParse.ClassBodyIs`).
- **gsub can cut its result off, and overrun its buffer.** Say the output has n characters, RECSIZE is 3072, and there
  is a match. The whole output is the result exactly when n <= RECSIZE - 2, or n = RECSIZE - 1 and the last match ends
  the text. It is cut to RECSIZE - 1 characters without a word exactly when n >= RECSIZE, the last match ends the text,
  no match put in for `&` begins before the last place of the buffer and reaches it or goes beyond, and no character
  behind an empty match falls there or later. The buffer is overrun exactly when such a match for `&` goes past its end,
  or when neither happens, n >= RECSIZE and text is left behind the last match. In the remaining cases the error is
  reported (`AwkGsub.Answers`, and by the hits `AwkGsub.AnswersHits`). bb for every a gives 3071 characters, count 1536
  and no error in 1536 a's, and runs past the buffer in an a and 3070 b's (`AwkCut.Outcome`, `AwkCut.Show`).
- **gsub can take the middle of a text for its start.** If a search recycles the table and finds a match, the search for
  the next one makes the table anew and begins in the state that has read ^. x for ^b or thirty-two a's, in thirty-two
  a's and b, gives xx, where xb is due (`AwkAgain.TwiceReplaced`, `AwkAgain.Show`). The matches are the right ones if no
  search slips and none but the first begins like that with a ^ in the expression (`AwkGsub.RoundsRight`); so it is
  whenever at most 31 lists can occur (`AwkGsub.RoundsAble`).
- **compile stores a byte behind its buffer** if it has room for one byte and the next piece of the pattern takes two,
  and only then: it looks at the room once a round (`EdCompile.RoundBehind`, for whole patterns
  `EdPattern.CompileFits`). So it is, for every size of the buffer, with dots that leave one byte, and an a
  (`EdPattern.BehindShown`, `EdPattern.ShowBehind`). grep, ed and csplit pass the end of the array.
- **compile accepts a reference to a group that is still open**, `\(\(a\)\1\)`, because it only counts closed groups
  (`EdPattern.OpenReferenceAccepted`). This is the only way a compiled pattern can be out of order
  (`EdPattern.OkUnlessOpen`).
- **A protocol can lose parameters that are given.** In a list that narrows the choice, only the first entry with a
  letter is looked at: with g in Systems and gg(7) in Devices the protocol g gets none (`Params.SecondEntryLost`). Which
  group a protocol has in every case is said by `Params.ChosenParams`; where no list names a letter twice, it is the
  first that any list in use gives it (`Params.ChosenFirst`).
- **A master that cannot position the file it is to receive breaks the conversation**: it sends a refusal under S and
  stays master, and the slave fails on it (`Uucico.SeekFaultFails`). No other local error does
  (`Uucico.SeekFaultBreaks`).
- **bfs keeps lengths in a short and lines in 512 bytes.** Lines reached over a line of more than 32767 characters are
  looked for at the wrong place, and no others (`Bfs.StoredRight`, `Bfs.Bfs.Seek`). A line of 512 characters or more is
  left without a NUL, so a search over it goes on behind the buffer. A search leaves the lines of the file at once
  exactly when it goes forwards from a line that is not in 0..Dollar, or backwards from one not in 1..Dollar + 1, as
  `?x?` does in an empty file (`bad` in `Bfs.Bfs.Hunt`).
- **cpout never ends** if a file neither fits an empty volume nor is longer than the medium, and only then
  (`Cpout.EndsIff`). A name without a newline at the end of the input is not looked at, and a file that has gone keeps
  the size of the one before it.
- **An unreadable bookmark** makes `anlwrk` start again from the first line, so lines can be handed out twice; none is
  passed over (`Bookmark.BookmarkBelow`). A line has been handed out once for each crash that came when it was behind
  and left no number above it in the bookmark, and once more if it is behind now (`Bookmark.HandedTimes`). With every
  bookmark written, only the line handed out last can be repeated (`Bookmark.OnlyLastFalls`).

## Model

| member | source | states |
|---|---|---|
| AwkRegex.FollowIsCont | usr/src/cmd/awk/b.c:304-368 | the follow set of any node holds exactly the leaves where a nonempty continuation of its context can start |
| AwkRegex.RunAccepts | usr/src/cmd/awk/b.c:696-770 | a run over position sets ends in one that holds FINAL iff the word, ended, can start at a leaf of the first set |
| AwkRegex.BareAccepts | usr/src/cmd/awk/b.c:109-124 | without position 0 the automaton accepts exactly the language of the user's tree |
| AwkRegex.BareHatAccepts | usr/src/cmd/awk/b.c:147-156 | after HAT it also accepts the words that ^ may precede |
| AwkRegex.ScanningAccepts | usr/src/cmd/awk/b.c:104-106 | with position 0 kept it accepts exactly the words with a suffix in the language |
| AwkFollow.Builder.First | usr/src/cmd/awk/b.c:304-335 | marks the first leaves and tells whether the node matches the empty string |
| AwkFollow.Builder.Follow | usr/src/cmd/awk/b.c:337-368 | climbing by parents marks exactly the follow set |
| AwkFollow.Builder.Cfoll | usr/src/cmd/awk/b.c:269-302 | fills the row of every leaf below a node and no other |
| AwkFollow.BuildRows | usr/src/cmd/awk/b.c:96-113 | all rows describe the leaves and descending follow lists of the whole tree |
| AwkDfa.EnterGood | usr/src/cmd/awk/b.c:696-770 | cgoto keeps the live states different, descending and rightly marked, and answers with the state asked for |
| AwkDfa.EnterFaithful | usr/src/cmd/awk/b.c:747-762 | recorded transitions stay right iff the step does not recycle in state 2 with another successor |
| AwkDfa.SmallFamilyNeverRecycles | usr/src/cmd/awk/b.c:747-752 | if at most 31 lists can occur the table is never recycled |
| AwkFa.Fa.Cgoto | usr/src/cmd/awk/b.c:696-770 | the code over the arrays does to the table exactly what Enter says |
| AwkFa.Fa.MakeInit | usr/src/cmd/awk/b.c:127-159 | leaves the initial states, with the lists after nothing and after HAT, and no transitions on text |
| AwkRun.ScanRight | usr/src/cmd/awk/b.c:411-431 | an attempt at a start finds the longest match there, unless a step slipped |
| AwkRun.SearchRight | usr/src/cmd/awk/b.c:400-504 | a search finds the leftmost match of the least length asked for and there the longest, unless a step slipped |
| AwkRun.MatchRight | usr/src/cmd/awk/b.c:380-398 | match tells whether some part of the text matches, unless a step slipped |
| AwkRun.CallRight | usr/src/cmd/awk/b.c:400-504 | what a call leaves and answers from any table that earlier calls may have left, recycled or not |
| AwkRun.SearchSlips | usr/src/cmd/awk/b.c:400-504 | a search slips iff some table on its way records a wrong transition |
| AwkFa.Fa.Search | usr/src/cmd/awk/b.c:400-504 | the table, initstat, answer and slip are those of the call on the old table; without a slip the answer is right |
| AwkFa.Fa.Pmatch | usr/src/cmd/awk/b.c:400-451 | leftmost-longest match of any length unless the call slips; whether ^ counts; the exact call |
| AwkFa.Fa.Nematch | usr/src/cmd/awk/b.c:453-504 | leftmost-longest match of at least one character unless the call slips; the exact call |
| AwkFa.Fa.Match | usr/src/cmd/awk/b.c:380-398 | whether the text contains a match unless the call slips; the exact call |
| AwkLimits.ClosedFamilyExists | usr/src/cmd/awk/b.c:96-125 | every expression has a finite family of lists its automaton stays in |
| AwkLimits.FewListsNoSlip | usr/src/cmd/awk/b.c:747-762 | a new automaton of an expression with at most 31 lists slips on no text |
| AwkSlip.WrongAnswer | usr/src/cmd/awk/b.c:747-762 | from a new automaton pmatch answers zzq where only zq matches |
| AwkSlip.RightAnswer | usr/src/cmd/awk/b.c:747-762 | the same slip with a right answer |
| AwkSlip.Show | usr/src/cmd/awk/b.c:400-451 | the wrong answer, returned by Pmatch on a new automaton object |
| AwkCaret.CaretLost | usr/src/cmd/awk/b.c:434-447 | after two calls, the first of which recycles the table, a third does not find the b that ^b matches |
| AwkCaret.Show | usr/src/cmd/awk/b.c:400-451 | the same from three calls of Pmatch on a new automaton object |
| AwkParse.ClassBodyIs | usr/src/cmd/awk/b.c:665-692 | a class is its text up to its end; cbuf is overrun iff that takes more than 150 bytes |
| AwkParse.Parser.ReadClass | usr/src/cmd/awk/b.c:673-692 | the loop over the buffer reads what ClassBody says |
| AwkEscape.EscapeIs | usr/src/cmd/awk/b.c:638-661 | which bytes after a backslash mean which character: five letters, one to three octal digits, any other byte itself |
| AwkEscape.RelexIs | usr/src/cmd/awk/b.c:619-692 | relex returns a token iff it stands in the text there, and ends where it ends |
| AwkEscape.EscapeRead | usr/src/cmd/awk/b.c:209-261 | an escape by itself is that character to relex, and its low eight bits to cclenter |
| AwkSyntax.ReparseIs | usr/src/cmd/awk/b.c:508-618 | reparse returns a tree iff the text is written in the grammar and the tree is what that stands for |
| AwkSyntax.EmptyPair | usr/src/cmd/awk/b.c:562-567 | () is the empty class, which matches the empty string |
| AwkParse.Parser.Run | usr/src/cmd/awk/b.c:508-526 | the descent over the cursor computes Reparse, on every pattern; what that is, ReparseIs and ReparseVerdict say |
| AwkGrammar.ReparseTree | usr/src/cmd/awk/b.c:508-618 | a tree that reparse returns can be spelled and numbered |
| AwkGrammar.ReparseVerdict | usr/src/cmd/awk/b.c:508-618 | reparse reports an error iff a one-counter scan of the tokens finds one, and then that one |
| AwkGrammar.OverrunIff | usr/src/cmd/awk/b.c:638-661 | when a pattern is read past its NUL |
| AwkPrint.PrintParse | usr/src/cmd/awk/b.c:508-694 | printing a tree and parsing the text gives the tree back |
| AwkPrint.Parseable | usr/src/cmd/awk/b.c:508-694 | the trees that can be printed are exactly those some pattern parses to |
| AwkPrint.SmallClass | usr/src/cmd/awk/b.c:209-261 | every class of up to 37 characters has a text that fits cbuf |
| AwkPrint.ClassMembers | usr/src/cmd/awk/b.c:209-261 | the members of a class are exactly the characters its text denotes: single ones, escapes and ranges, up to a NUL |
| AwkPattern.MatchText | usr/src/cmd/awk/b.c:96-125 | from pattern text to match: the error of the pattern, or the answer of the exact run; right without a slip, and with at most 31 lists there is none |
| AwkPattern.FindText | usr/src/cmd/awk/b.c:96-125 | from pattern text to pmatch: the error of the pattern, or the answer of the exact run; the leftmost-longest match without a slip, and with at most 31 lists there is none |
| AwkHits.AllHitsExist | usr/src/cmd/awk/run.c:1538-1620 | every text has exactly one list of leftmost-longest hits, empty ones right after others left out |
| AwkHits.AllHitsUnique | usr/src/cmd/awk/run.c:1538-1620 | two such lists are the same |
| AwkHits.ReplacementIs | usr/src/cmd/awk/run.c:1588-1599 | what a replacement text stands for, part by part: & the match, \& an ampersand, any other character itself |
| AwkHits.PartsExist | usr/src/cmd/awk/run.c:1588-1599 | every replacement text is made of such parts |
| AwkBuffer.StepsAre | usr/src/cmd/awk/run.c:1588-1599 | each part is one step of output, the match as a whole |
| AwkBuffer.FoldIs | usr/src/cmd/awk/run.c:1562-1607 | what any list of output steps leaves in the buffer: the output cut for the NUL, a full buffer, or a byte past its end |
| AwkBuffer.Buffer.Fill | usr/src/cmd/awk/run.c:1588-1599 | the loop over the replacement text stores what those steps say, & copied without a look at the room |
| AwkGsub.RoundsRight | usr/src/cmd/awk/run.c:1538-1611 | the searches of a call find exactly the hits that are due, and the output is the text with them replaced, unless one goes off |
| AwkGsub.RoundsAble | usr/src/cmd/awk/run.c:1538-1611 | they leave a table further calls can use; with at most 31 lists none goes off |
| AwkGsub.Answers | usr/src/cmd/awk/run.c:1559-1616 | when the result is whole, when cut, when the error is reported and when the buffer is overrun, each exactly |
| AwkGsub.AnswersHits | usr/src/cmd/awk/run.c:1559-1616 | the same by the list of hits, the output they make and whether the last ends the text |
| AwkGsub.Gsub | usr/src/cmd/awk/run.c:1521-1621 | on any table the searches are those of the run and the answer what they make of the buffer; initstat is put back; right unless a search goes off |
| AwkCut.Outcome | usr/src/cmd/awk/run.c:1559-1616 | bb for every a in n a's and m b's: which of the four answers, for all n and m |
| AwkCut.Show | usr/src/cmd/awk/run.c:1521-1621 | the cut result and the overrun, returned by Gsub |
| AwkAgain.TwiceReplaced | usr/src/cmd/awk/run.c:1538-1611 | after a recycled table a ^ in the expression matches in the middle of the text |
| AwkAgain.Show | usr/src/cmd/awk/run.c:1521-1621 | that wrong result, returned by Gsub |
| EdProgram.GreedyIsBest | usr/src/head/regexp.h:305-497 | the greedy search finds a match iff some choice of counts matches, and then the one with the greatest counts first |
| EdAdvance.Matcher.Advance | usr/src/head/regexp.h:305-497 | advance succeeds iff the greedy search does; loc2 is its end and the brackets its groups |
| EdAdvance.Matcher.Step | usr/src/head/regexp.h:272-303 | the leftmost start that matches; the first-character loop agrees with the plain one |
| EdSpelling.AtomMeans | usr/src/head/regexp.h:94-268 | the byte or bitmap compiled for a character, dot or bracket accepts exactly what it denotes |
| EdSpelling.FitsSize | usr/src/head/regexp.h:79-142 | the pieces of a pattern fit a buffer iff their sizes add up to less than its room |
| EdSpelling.DecimalRead | usr/src/head/regexp.h:214-222 | the digits of a count stand for the number they are the decimal of |
| EdCompile.RoundBehind | usr/src/head/regexp.h:79-269 | a round stores a byte behind the buffer only if it begins with room for one byte |
| EdCompiler.Compiler.Run | usr/src/head/regexp.h:48-270 | the code that writes through pointers, in a buffer that ends at endbuf, computes Compile, with what it finds in the buffer; a program leaves its mark there, and an empty pattern changes nothing |
| EdErrors.RoundRejects | usr/src/head/regexp.h:79-269 | a round answers an error iff the text there deserves it, for each error number |
| EdErrors.IntervalRejects | usr/src/head/regexp.h:209-243 | after an opening \{: when 11, 16, 44, 45 and 46 are given, each exactly, by the numbers, commas and braces in the text |
| EdErrors.ItemsRejects | usr/src/head/regexp.h:134-167 | in a bracket: when 49 and 50 are given, each exactly, by the items before the place |
| EdErrors.CompileRejects | usr/src/head/regexp.h:48-270 | compile refuses a pattern that is not empty iff its rounds come to a place that deserves the error |
| EdErrors.FirstFault | usr/src/head/regexp.h:77-269 | after pieces that are in order and fit, the fault that comes next decides the error |
| EdErrors.NothingBefore | usr/src/head/regexp.h:65-73 | from a new buffer: error 41 iff the pattern is empty and sed does not call |
| EdReading.PiecesRead | usr/src/head/regexp.h:77-269 | reading the pieces of a pattern appends their elements, or stops with the error they have, 50, or a byte behind the buffer |
| EdPattern.ElementsMean | usr/src/head/regexp.h:77-269 | the elements compiled are the pieces in order, each with its meaning, and the end mark |
| EdPattern.CompileMeans | usr/src/head/regexp.h:48-270 | what compile makes of a spelled pattern for any size of the buffer |
| EdPattern.CompileFits | usr/src/head/regexp.h:79-142 | a pattern without errors compiles iff it fits; if not, a byte goes behind the buffer iff some piece breaks, else error 50 |
| EdPattern.BehindShown | usr/src/head/regexp.h:263-267 | for every size of the buffer a pattern that stores a byte behind it |
| EdPattern.ShowBehind | usr/src/head/regexp.h:48-270 | the same from the code over the buffer |
| EdPattern.SpellingsAgree | usr/src/head/regexp.h:48-270 | a text stands for one list of elements, however it is read as pieces |
| EdPattern.OkUnlessOpen | usr/src/head/regexp.h:193-259 | the program is in order iff every reference is to a closed group |
| EdPattern.OpenReferenceAccepted | usr/src/head/regexp.h:253-259 | a pattern with a reference to an open group that compiles |
| EdPattern.Find | usr/src/head/regexp.h:48-303 | from pattern text to match: the leftmost start and, there, the greedy-first match of its pieces |
| EdPattern.FindAgain | usr/src/head/regexp.h:65-303 | after a pattern was compiled, an empty one gives no error and leaves it, and step finds what that pattern finds |
| Uucico.RunInv | usr/src/cmd/bnu/cntrl.c:237-1284 | every state of every run is one of those the invariant describes |
| Uucico.HeadExpected | usr/src/cmd/bnu/cntrl.c:1295-1315 | what is first on a line is what its reader waits for |
| Uucico.OneMaster | usr/src/cmd/bnu/cntrl.c:532-569 | exactly one side is master unless the refusal to hang up is on its way |
| Uucico.NoDeadlock | usr/src/cmd/bnu/cntrl.c:237-569 | someone can move until both have returned |
| Uucico.Outcome | usr/src/cmd/bnu/cntrl.c:532-569 | both return 0 or neither; after 0 no work is left that may be offered, and each knows what the other kept |
| Uucico.RunsEnd | usr/src/cmd/bnu/cntrl.c:237-1284 | a bound on the length of every run in terms of the work at its start |
| Uucico.SeekFaultBreaks | usr/src/cmd/bnu/cntrl.c:472-480 | a step keeps the two sides together iff it is not a master's failure to position a file it is to receive |
| Uucico.SeekFaultFails | usr/src/cmd/bnu/cntrl.c:472-480 | that failure makes a slave that waits for orders fail |
| Books.RunBooked | usr/src/cmd/bnu/cntrl.c:237-1284 | in every state of every run, the jobs of a side at the start are those booked with their fates, the one in hand and those left, in order; what the other side kept are those booked as placed |
| Books.AllBooked | usr/src/cmd/bnu/cntrl.c:532-569 | when both have returned 0 every job offered is booked as skipped, refused, not placed or placed, and none is lost |
| Books.AllArrive | usr/src/cmd/bnu/cntrl.c:237-1284 | if moreover nothing was skipped, refused or failed, the files kept are those of the jobs offered, in order |
| Conversation.Call.Converse | usr/src/cmd/bnu/cntrl.c:237-1284 | two cntrl objects and their lines, in any order of turns: enough turns end it, both return 0 or neither; after 0 every job offered is booked, and if nothing went wrong its file is in place, in order |
| Protocol.NextProto | usr/src/cmd/bnu/conn.c:477-485 | skips exactly one parenthesised group |
| Protocol.FindProto | usr/src/cmd/bnu/conn.c:495-505 | the first entry with a letter, or the end |
| Protocol.RemoveProto | usr/src/cmd/bnu/conn.c:459-468 | removes the entries of a letter with their groups and nothing else |
| Protocol.MergeProto | usr/src/cmd/bnu/conn.c:419-447 | one entry merged into a list of entries; what becomes of its parameters, ChosenParams says |
| Protocol.Conn.ProtoString | usr/src/cmd/bnu/conn.c:341-362 | the letters offered and the string that is kept, from the three lists |
| Protocol.ChosenLetters | usr/src/cmd/bnu/conn.c:375-410 | the letters chosen are exactly those the deciding list wants and all later ones and the program have |
| Protocol.ChosenDistinct | usr/src/cmd/bnu/conn.c:375-410 | no letter is offered twice |
| Protocol.ChosenInOrder | usr/src/cmd/bnu/conn.c:375-410 | the letters stand in the order of the list that decides |
| Protocol.ChosenGiven | usr/src/cmd/bnu/conn.c:419-447 | every parameter group stays with a letter it was given with |
| Params.ChosenParams | usr/src/cmd/bnu/conn.c:375-447 | a letter chosen has the first group the deciding list gives it, else the first that a later list gives its first entry, else none |
| Params.ChosenFirst | usr/src/cmd/bnu/conn.c:375-447 | where no list names a letter twice, it has the first group any list in use gives it |
| Params.SecondEntryLost | usr/src/cmd/bnu/conn.c:386-392 | two lists for which a group that is given is lost |
| Params.OfferedLetters | usr/src/cmd/bnu/conn.c:341-362 | the letters offered are those wanted, or all that are compiled in if none is |
| Protocol.StartupAgrees | usr/src/cmd/bnu/cntrl.c:1424-1550 | both sides start the first common letter of the master's list, or neither starts any |
| Protocol.Converse | usr/src/cmd/bnu/cntrl.c:1424-1484 | the same for the lists both sides make up themselves and really send |
| Bfs.StoredRight | usr/src/cmd/bfs/bfs.c:223-301 | stored lengths add up to the offset iff none of the lines is too long for a short |
| Bfs.Bfs.BigOpen | usr/src/cmd/bfs/bfs.c:223-281 | the lengths, checkpoints and number of lines of the file, or too many lines |
| Bfs.Bfs.Seek | usr/src/cmd/bfs/bfs.c:293-306 | the position is that of the line iff the lengths on the way are right |
| Bfs.Bfs.BigRead | usr/src/cmd/bfs/bfs.c:284-335 | after any reads, line n of the file, as far as it fits |
| Bfs.Bfs.Hunt | usr/src/cmd/bfs/bfs.c:974-1020 | the nearest matching line in the direction asked for, with or without wrapping; from which lines it leaves the file |
| SymTab.Array.Lookup | usr/src/cmd/awk/tran.c:267-279 | the cell of a name, or none |
| SymTab.Array.SetSymTab | usr/src/cmd/awk/tran.c:200-231 | an old cell, or a new one and nothing else changed; never more than twice as many cells as chains |
| SymTab.Array.Rehash | usr/src/cmd/awk/tran.c:244-265 | the very same cells under the same names in four times as many chains |
| SymTab.Array.FreeElem | usr/src/cmd/awk/tran.c:175-198 | that name is gone and all others stay |
| Strings.LessIs | usr/src/cmd/acct/acctmerg.c:121-137 | the order of strcmp: equal up to a place, and there the end or the smaller character |
| Acctmerg.Merge.GetLeast | usr/src/cmd/acct/acctmerg.c:121-137 | the first stream with the least record |
| Acctmerg.Merge.SumCurr | usr/src/cmd/acct/acctmerg.c:143-163 | takes all records of one key from the streams on and adds them up |
| Acctmerg.Merge.Run | usr/src/cmd/acct/acctmerg.c:104-114 | what is written has the sums of all input, key by key; from sorted streams its keys increase; the total is right |
| Acctmerg.EachSum | usr/src/cmd/acct/acctmerg.c:104-114 | so each record written is the sum of all input with its key |
| Wtmpfix.Fixer.ScanFile | usr/src/cmd/acct/wtmpfix.c:236-290 | a pass over a file fails iff an old time lacks its new one; else it leaves the intervals that do what is due to every record seen |
| Wtmpfix.Fix | usr/src/cmd/acct/wtmpfix.c:62-118 | each record gets exactly the multiuser clock changes that follow it before the next boot; fails iff an old time lacks its new one |
| Wtmpfix.ClockSteady | usr/src/cmd/acct/wtmpfix.c:236-290 | from a record to the new time after the next change, the time that passes is what passed until the old time |
| Wtmpfix.MultiIs | usr/src/cmd/acct/wtmpfix.c:258-263 | the system is multiuser iff run level 2 was entered and not left for S since |
| Cpout.HeadGoes | usr/src/proto/cpout.c:84-115 | the file held back longest goes out next iff it fits or the input is at its end |
| Cpout.Drains | usr/src/proto/cpout.c:100-115 | files held back that fit together go out before any other, in the order they were held back |
| Cpout.NewVolume | usr/src/proto/cpout.c:84-127 | a new volume is begun only when neither the file held back longest nor the one looked at can go on this one |
| Cpout.AllPacked | usr/src/proto/cpout.c:84-156 | with good names the loop ends; each is packed or reported once, in order, and no volume is overfull |
| Cpout.EndsIff | usr/src/proto/cpout.c:84-156 | the loop ends iff every file fits an empty volume or is longer than the medium |
| Cpout.Packer.PackAll | usr/src/proto/cpout.c:53-161 | the program over its linked queue does that |
| Anlwrk.KeepsLeast | usr/src/cmd/bnu/anlwrk.c:227-250 | after any names the list holds the least of them in order, and all if there is room |
| Anlwrk.WorkList.Insert | usr/src/cmd/bnu/anlwrk.c:282-312 | one name put in place by moving pointers, the slots staying different |
| Bookmark.RunInv | usr/src/cmd/bnu/anlwrk.c:56-145 | the invariant of all runs, whatever crashes there are |
| Bookmark.UnlinkedAfterAll | usr/src/cmd/bnu/anlwrk.c:96-130 | the file is unlinked only when each line was handed out |
| Bookmark.BookmarkBelow | usr/src/cmd/bnu/anlwrk.c:68-145 | the bookmark is at or below the line in progress, and no line before that was passed over |
| Bookmark.HandedTimes | usr/src/cmd/bnu/anlwrk.c:56-145 | over any run, how many times each line has been handed out: once for each crash it fell to, and once if it is behind |
| Bookmark.OnlyLastFalls | usr/src/cmd/bnu/anlwrk.c:136-145 | when every bookmark is written, only the line handed out last falls to a crash |
| Bookmark.GetsDone | usr/src/cmd/bnu/anlwrk.c:56-145 | left alone, the program hands out each line of a well-formed file that is not behind once, and unlinks it |
| Bookmark.Reader.Call | usr/src/cmd/bnu/anlwrk.c:56-145 | a call is steps of that machine; a new reader begins with the line the bookmark names, or with the first, and goes on line by line |
| Bookmark.Resume | usr/src/cmd/bnu/anlwrk.c:88-107 | a reader stopped after any number of calls: the next one begins with the line handed out last |

## Left out

- AwkGsub.RoundsRight: goes one way from searches that do not go off to right matches, for the same reason as the next.
- AwkRun.SearchRight: goes one way from slip to answer; that the other way fails is `AwkSlip.RightAnswer`.
- Bfs.Bfs.BigRead: covers the lines the stored lengths lead to; where a read goes that starts from wrong lengths depends
  on the reads before it.
- Bfs.Bfs.Hunt: covers files whose lines have at most 511 characters and end in newlines; behind a longer one the code
  reads memory of its caller.
- EdCompiler.Compiler.Run: ends with the first byte stored behind the buffer; what the program does after that depends
  on what lies there. What a call that fails leaves in the buffer is not said either.
- EdPattern.Find: covers programs whose references are to closed groups; for an open group the matcher would compare
  with an end left from an earlier attempt.
- EdPattern.CompileMeans: spelled patterns do not put a repetition count or star on a group or reference, a second count
  on a count, or an opening brace after a group mark; compile accepts some of them and the code before them decides what
  they mean.
- SymTab.Array.SetSymTab: names are values, and the string a cell's name is stored in is not shared.
- Uucico.RunInv: a step that is a master's failure to position a file is excluded, as said under Findings.
- Wtmpfix.Fix: covers files whose records are all in range; on another one the program moves on byte by byte until a
  record is, and exits when the file ends first.
- Cpout.AllPacked: a program whose first name is not found exits at once; a size is what stat said when the name was
  read.
- Parse trees are values with their surroundings passed along, not nodes with parent pointers; nothing in them is
  changed after penter.
- The cache of 20 automata in makedfa, sub(), and all freeing of memory and failure to get any.
- The arrays of 256 entries for positions in b.c: expressions of more leaves overrun them.
- Text characters above 127 in awk, and characters in bfs as anything but bytes.
- Back-references under a star, and the use of locs by ed for global substitution beyond its one test.
- What a file holds, permissions, logging, spool names, restarting of transfers and packets in uucico: a transfer is one
  step that succeeds or fails. Work that arrives during a conversation.
- What protocol parameters mean, and the turning on of a protocol beyond whether it works.
- Overflow of counters, and sums of floating point numbers in the accounting programs: sums are exact.
- The options of acctmerg and wtmpfix that only print, and the check of user names in wtmpfix.
- The wait for a new volume and the answer s in cpout, and its count of files.
- A work file that is replaced by another of the same name while its bookmark is kept.
- Other files of the tree.
