# Proofs about the C shell, dd, expr and ChaCha in Netbase

Netbase ports the NetBSD utilities. This project models the parts of it whose correctness depends on an
algorithm rather than on system calls, and proves what those parts promise:

- the C shell's store of variables and aliases, an AVL tree with parent links and balance factors in the heap
  (`VarTree` on trees as values, `VarStore` for rotations and the `balance` loop on linked records, `VarTable` for
  `setq`, `unsetv1`, `adrof1`, `madrof`, `unset1` and the stackless walk `plist`), with the string comparison that
  orders it (`Strings`) and the decimal numbers it holds (`Numbers`);
- its file name patterns (`Pmatch`, `Gmatch`, `PmatchMeaning` for what pieces of a pattern stand for) and brace expansion (`Braces` for the in-place worklist,
  `BraceMeaning` for an independent meaning of patterns);
- its command parser (`Parse` as functions on word sequences, `Parser` as the loops over words and argument
  vectors), the syntax it accepts and the trees that stand for it (`ParseSource`, `ParseAccepts`), and the printer of
  commands in the job table (`ParsePrint`);
- its expression evaluator (`Expr`, `ExprTree` for the meaning of expression trees, `ExprValues` for what the operators
  compute, `ExprErrors` for what is refused or passed over, and `ExprProbes` for the files it looks up);
- its job table and directory stack (`JobTable` as a state machine, `JobLaws` for what its steps leave in the records,
  `Jobs` as linked process records, `Dirs` as the directory ring with reference counts, `Session` for runs that mix both);
- its table of hash bits for finding commands (`PathHash`);
- dd's output side with short writes and sparse files (`DdOut`), record conversion (`DdRecords` as functions of the
  input, `DdConv` as the loops over the buffers);
- expr's LR parser (`YaccTables` for the generated tables, `YaccParse` for the derivations, `YaccArith` for values
  and checked 64-bit arithmetic, `YaccParser` for the lexer and the loop with its two stacks, `YaccLaws` for what
  commands print);
- the ChaCha stream cipher (`Chacha`, and `ChachaVectors` for the examples of RFC 8439).

`Common` holds what several modules share. Code that updates records, arrays or vectors in place is modelled by
classes and methods, each proved to compute a function of the old state; the results are then proved about those
functions, or for whole runs of the methods. System calls, clocks and children are parameters: `dd` gets any script
of replies to its writes, the job table any sequence of news of children, the evaluator any answers of commands and
files. `dafny verify dfyconfig.toml` checks everything.

## Model

| member | source | states |
|---|---|---|
| Strings.StrCmp | src.netbsd/bin/csh/str.c:260-277 | the loop on signed 16-bit characters gives the first difference, with a string below its extensions |
| Strings.OrderIsTotal | src.netbsd/bin/csh/str.c:260-277 | the lookup comparison is a strict total order on names and is 0 only for equal names |
| Strings.OrderAt | src.netbsd/bin/csh/str.c:260-277 | two names that differ are ordered by their first different characters, read as signed 16-bit numbers, the smaller one first |
| Strings.OrderOfPrefix | src.netbsd/bin/csh/str.c:260-277 | a name comes before its extensions (the empty one only before those that do not begin with a quoted character) |
| VarTree.PlugAvl | src.netbsd/bin/csh/set.c:748-839 | a tree seen from a record on its path is balanced if and only if the subtree is and every factor above fits its height, so repairs may be judged one record at a time |
| VarTree.RoundRepairs | src.netbsd/bin/csh/set.c:762-838 | one round of `balance` makes the subtree balanced with the same variables, and its early exit is exact: taken if and only if the old height is restored; otherwise the same debt stands one record up |
| VarTree.RightHeavyEntries | src.netbsd/bin/csh/set.c:717-728 | single and double rotations keep the variables in order |
| VarTree.AvlIsDense | src.netbsd/bin/csh/set.c:748-839 | a balanced tree of height h holds at least Fib(h + 2) - 1 records |
| VarStore.Balance | src.netbsd/bin/csh/set.c:748-839 | from any record with one subtree a level taller or shorter than its factor says, the loop leaves the linked tree under the header balanced, with the same records and variables, parent links included |
| VarTable.VarTable.Setq | src.netbsd/bin/csh/set.c:512-535 | the table stays ordered, balanced and linked, and becomes the old map with the name bound to the trimmed words |
| VarTable.VarTable.Unsetv1 | src.netbsd/bin/csh/set.c:621-661 | exactly the named variable is removed, and exactly one record, also when the predecessor's contents are copied |
| VarTable.VarTable.Adrof1 | src.netbsd/bin/csh/set.c:462-475 | the lookup finds a record if and only if the name is stored, with its value, in at most height steps |
| VarTable.VarTable.HeightBound | src.netbsd/bin/csh/set.c:462-475 | on every table of n variables, Fib(height + 2) and 2^(height / 2) are at most n + 1: the lookup is logarithmic |
| VarTable.VarTable.Plist | src.netbsd/bin/csh/set.c:841-878 | the walk by child and parent links ends and gives every variable once, in increasing order, on the empty table too |
| VarTable.Madrof | src.netbsd/bin/csh/set.c:448-460 | the record found is the first in tree order whose name matches, and none matches if none is found |
| VarTable.VarTable.Unset1 | src.netbsd/bin/csh/set.c:596-609 | for every pattern in turn all variables it matches, as `Gmatch` does, are removed and all others untouched |
| VarTable.VarTable.Unsetv | src.netbsd/bin/csh/set.c:611-619 | an unknown name is an error that changes nothing, a known one is removed |
| VarTable.Session | src.netbsd/bin/csh/set.c:491-661 | after any sequence of settings and removals the tree is ordered, balanced and linked, and holds what a plain map with the same updates holds |
| Numbers.Putn | src.netbsd/bin/csh/set.c:390-415 | the decimal of every 32-bit integer, the least one included, in fewer than 15 characters |
| Numbers.Getn | src.netbsd/bin/csh/set.c:417-437 | the number a word spells, wrapped to 32 bits, or the error |
| Numbers.ReadDecimal | src.netbsd/bin/csh/set.c:390-437 | `getn` reads back every integer that `putn` writes |
| Numbers.ReadSpells | src.netbsd/bin/csh/set.c:417-437 | digits, perhaps with zeros in front and a sign, are their number wrapped to 32 bits; with anything behind them they are no number |
| Pmatch.Match | src.netbsd/bin/csh/glob.c:815-885 | wherever the loop ends, the answer is that of its steps, 1 only for names in the language of the pattern with each run of stars collapsed to its last one, and for patterns on which it always ends 1 for exactly those; without a quoted star behind a star this is the pattern's own language |
| PmatchMeaning.MatchPieces | src.netbsd/bin/csh/glob.c:815-885 | on the text of any pieces (plain and quoted characters, `?`, sets of characters and ranges with or without `^`, and `*`) matching ends, with 1 for exactly the names the pieces stand for |
| PmatchMeaning.ReadsPiece | src.netbsd/bin/csh/glob.c:849-875 | a set accepts a character if and only if one of its items holds it, or with a `^` none does; `?` accepts every character and a plain one itself; the pattern goes on right behind the piece |
| PmatchMeaning.ReadsAll | src.netbsd/bin/csh/glob.c:815-885 | the language of a pattern's text is what its pieces stand for in a row |
| PmatchMeaning.Spelled | src.netbsd/bin/csh/glob.c:849-875 | every pattern whose brackets are closed is such a text |
| PmatchMeaning.MatchOpen | src.netbsd/bin/csh/glob.c:852-875 | a bracket in front that is never closed is an error for every name but the empty one |
| Pmatch.EndsIff | src.netbsd/bin/csh/glob.c:842-848 | the loop ends on every name if and only if each run of stars that ends with a quoted one is followed by one piece that accepts every character and then by another run, or by an open bracket, as far as the pattern can match at all |
| Pmatch.SpinExample | src.netbsd/bin/csh/glob.c:878-882 | on a star and a quoted star, and the name `a`, the loop reaches a state that is its own successor |
| Pmatch.StarPiece | src.netbsd/bin/csh/glob.c:842-848 | a run, a piece for any character and another run match what the second run matches one character on |
| Pmatch.CollapsedIsLanguage | src.netbsd/bin/csh/glob.c:837-846 | collapsing runs of stars does not change the language when no quoted star follows an unquoted one |
| Pmatch.SwallowIsWrong | src.netbsd/bin/csh/glob.c:843-846 | that condition is exact: a satisfiable pattern that breaks it matches some name straight through that is not in its language |
| Gmatch.Gmatch | src.netbsd/bin/csh/glob.c:788-813 | wherever matching ends, the answer is whether it succeeds on some word of the brace expansion, negated for a leading `^`; for patterns on which it always ends that is the collapsed language; a missing brace is an error |
| Gmatch.CaretNegates | src.netbsd/bin/csh/glob.c:797-812 | a `^` in front turns the answer of the rest of the pattern around |
| Gmatch.AsIntended | src.netbsd/bin/csh/glob.c:788-813 | without quoted stars behind stars the words are matched as they are written, and matching always ends |
| Braces.Globbrace | src.netbsd/bin/csh/glob.c:126-211 | the two scans cut a word into exactly its alternatives, each with what stands before and after the group, and agree on missing brackets and braces |
| Braces.Expbrace | src.netbsd/bin/csh/glob.c:213-273 | the worklist ends, never writes outside the vector it grows, and leaves the expansions of all words from left to right, or names the missing bracket |
| Braces.LoneKept | src.netbsd/bin/csh/glob.c:228-230 | `{` and `{}` stay as they are |
| Braces.OpenBrace | src.netbsd/bin/csh/glob.c:126-211 | a brace that opens a group and is never closed is an error |
| Braces.OpenSet | src.netbsd/bin/csh/glob.c:140-149 | a set that is opened in a group and never closed is an error, whatever stands behind it |
| BraceMeaning.ExpandMeans | src.netbsd/bin/csh/glob.c:126-273 | expanding the text of a pattern of characters, sets and nested groups gives the products of its alternatives, word for word and in order |
| Parser.Syntax | src.netbsd/bin/csh/parse.c:214-611 | the recursive scans over any words give the command tree or error that the grammar function gives |
| Parser.Syn0 | src.netbsd/bin/csh/parse.c:230-284 | background and list separators outside parentheses |
| Parser.Syn3 | src.netbsd/bin/csh/parse.c:446-611 | simple commands, parentheses and redirections |
| Parser.Collect | src.netbsd/bin/csh/parse.c:513-597 | the second loop stays within the argument vector the first one measured, and gives the words, the parenthesized part and the redirections |
| Parse.FindIsOutside | src.netbsd/bin/csh/parse.c:291-434 | a separator that a scan stops at lies outside all parentheses, with balanced words on both sides |
| Parse.SpecialIs | src.netbsd/bin/csh/parse.c:446-480 | parentheses are words exactly behind any number of `else` and one of seven keywords |
| ParseSource.SyntaxReads | src.netbsd/bin/csh/parse.c:214-611 | every command line written with words and redirections in any order, parentheses, pipes with or without the error output, `&&`, double bars, separators and `&` gets the tree it stands for |
| ParseSource.ReadDetached | src.netbsd/bin/csh/parse.c:256-278 | what stands in front of `&` runs in the background and takes no interrupt, is otherwise unchanged, or is put into parentheses when it is a list or a conditional; what stands behind is parsed by itself |
| ParseSource.ReadBoth | src.netbsd/bin/csh/parse.c:416-433 | a bar alone, and a bar with an ampersand that also passes the error output |
| ParseAccepts.AcceptsIff | src.netbsd/bin/csh/parse.c:214-611 | the words of a command line are accepted if and only if they are written in that syntax, so every other command line is an error |
| ParsePrint.PrintIsSilent | src.netbsd/bin/csh/proc.c:517-570 | what is printed for a tree of one level holds no separator of that level or a looser one outside parentheses |
| ParsePrint.ReadsPrinted | src.netbsd/bin/csh/parse.c:230-611 | each level of the parser gives back the tree that was printed |
| ParsePrint.SyntaxReadsPrinted | src.netbsd/bin/csh/proc.c:517-570 | parsing the words printed for any canonical command tree gives that tree back |
| Expr.SkipIsQuiet | src.netbsd/bin/csh/exp.c:397-557 | under IGNORE, whatever the words are and however evaluation ends, no command between braces is run and no file test made; only words are expanded and operators behind file tests looked up |
| ExprProbes.ProbesAre | src.netbsd/bin/csh/exp.c:485-489 | in every mode and world, the operators looked up as files are exactly those that stand behind a file test, in order, as a reading of the words without any levels finds them |
| ExprProbes.SkippedProbe | src.netbsd/bin/csh/exp.c:485-490 | for `-e /` under IGNORE the lookup of `/` is all that happens, and it decides between a value and an error |
| Expr.SameWords | src.netbsd/bin/csh/exp.c:97-557 | an expression takes up the same words whatever the world answers, in whatever mode, and whatever happened before |
| ExprTree.ReadsTree | src.netbsd/bin/csh/exp.c:97-557 | at every level, from a printed tree on, evaluation gives the value of the tree and its effects in order, or its error, and stops behind it; under IGNORE the stand-in value and the expansions and lookups that are still made |
| ExprTree.ExprEvaluates | src.netbsd/bin/csh/exp.c:97-557 | evaluating the words of any canonical expression tree gives its right-associative, short-circuit value, its effects and its errors |
| ExprValues.Adds | src.netbsd/bin/csh/exp.c:317-375 | the decimals of two integers with `+`, `-` or `*` between them have the value of the sum, difference or product wherever 32 bits hold it |
| ExprValues.Divides | src.netbsd/bin/csh/exp.c:353-394 | `/` and `%` give the quotient and the remainder: quotient times divisor plus remainder is the dividend, and the remainder is smaller than the divisor and has the dividend's sign |
| ExprValues.NoDivisor | src.netbsd/bin/csh/exp.c:376-387 | dividing by 0 is the error of that operator |
| ExprValues.Compares | src.netbsd/bin/csh/exp.c:249-287 | `<`, `>`, `<=` and `>=` give 1 exactly when the integers compare so, and otherwise 0 |
| ExprErrors.ComparesWords | src.netbsd/bin/csh/exp.c:207-247 | `==` and `!=` compare two words as they are |
| ExprErrors.MatchesPattern | src.netbsd/bin/csh/exp.c:207-247 | `=~` gives what matching the pattern gives and `!~` the opposite; the pattern is not expanded |
| ExprValues.Shifts | src.netbsd/bin/csh/exp.c:289-315 | shifts by less than 32 multiply by the power of two, and divide by it rounding down |
| ExprValues.CombinesBits | src.netbsd/bin/csh/exp.c:143-205 | every bit of the results of a bar, `^` and `&` is the disjunction, the difference and the conjunction of the operands' bits |
| ExprValues.DecidesOr | src.netbsd/bin/csh/exp.c:97-118 | a double bar gives 1 if an operand is not 0, and otherwise 0 |
| ExprValues.DecidesAnd | src.netbsd/bin/csh/exp.c:120-141 | `&&` gives 1 if no operand is 0, and otherwise 0 |
| ExprErrors.PassesOver | src.netbsd/bin/csh/exp.c:97-141 | a division by 0 is no error in an operand that a double bar or `&&` does not need, and is one where it is needed |
| ExprValues.Negates | src.netbsd/bin/csh/exp.c:396-440 | `!` gives 1 for 0 only, `~` turns every bit, and parentheses keep the value |
| ExprValues.AsksTheWorld | src.netbsd/bin/csh/exp.c:441-547 | braces give 1 if the command succeeds, a file test 1 if it holds |
| ExprValues.GroupsFirst | src.netbsd/bin/csh/exp.c:97-394 | of any two operators the one in the tighter row groups first, and of one row the right one |
| ExprErrors.OneWord | src.netbsd/bin/csh/set.c:417-437 | a word by itself has the value of its number; one that does not start like a number is an error, and so is one that goes on with anything else |
| ExprErrors.OpenParens | src.netbsd/bin/csh/exp.c:425-437 | parentheses that are not closed are an error, at the end of the words or in front of another word |
| ExprErrors.OpenBraces | src.netbsd/bin/csh/exp.c:438-459 | braces that are not closed are an error, and nothing is run |
| ExprErrors.BadTests | src.netbsd/bin/csh/exp.c:474-491 | a file test with more than one letter, without a file, or in front of an operator that is no file is an error |
| JobTable.AllocKeeps | src.netbsd/bin/csh/proc.c:452-515 | a fork whose pid no record has keeps the invariant of the job table |
| JobTable.FlushKeeps | src.netbsd/bin/csh/proc.c:394-421 | flushing keeps the invariant and takes exactly that job out of the live ones |
| JobTable.ChildKeeps | src.netbsd/bin/csh/proc.c:127-201 | news of a child keep the invariant, through the choice of the current job, flushing and notification |
| JobTable.StoppedIsCurrent | src.netbsd/bin/csh/proc.c:158-172 | when the last running process of a job stops, the job becomes the current one and the former current one the previous |
| JobTable.EndedIsGone | src.netbsd/bin/csh/proc.c:164-201 | when the last process of a job ends it is neither current nor previous, and a notified background job is off the table |
| JobLaws.ChildRecords | src.netbsd/bin/csh/proc.c:116-142 | for each way a process can change, which flags and which reason its record has afterwards; all other records of the table only get or lose the marks for reporting, and jobs that are given up their pids |
| JobLaws.StillRunning | src.netbsd/bin/csh/proc.c:158-200 | while another process of the job runs, or its stop was reported, nothing but the record of the changed process is touched |
| JobLaws.RestingJob | src.netbsd/bin/csh/proc.c:158-200 | when the last running process of a job stops or ends: in the foreground nothing is marked or given up; with notification an ended job is given up at once; without it exactly the leader is marked for the next prompt and no process is given up |
| JobLaws.RestingReported | src.netbsd/bin/csh/proc.c:158-163 | exactly the stopped processes of such a job count as reported from then on |
| JobLaws.PromptShows | src.netbsd/bin/csh/proc.c:204-224 | after a prompt no mark is left, and exactly the marked jobs with no process left are given up |
| JobLaws.AtThePrompt | src.netbsd/bin/csh/proc.c:127-224 | so a background job that ends without notification is off the table after the next prompt, and one that stops stays |
| JobLaws.RestingCurrent | src.netbsd/bin/csh/proc.c:164-172 | which jobs are current and previous once a job has stopped or ended |
| JobTable.ReapKeeps | src.netbsd/bin/csh/proc.c:230-254 | freeing flushed records keeps the invariant and every live record |
| JobTable.RunKeeps | src.netbsd/bin/csh/proc.c:89-515 | in every table of every run the rings of friends are disjoint with one leader each, live jobs have distinct indices with `pmaxindex` their maximum, and `pcurrent` and `pprevious` are null or distinct live leaders |
| JobTable.NextHolds | src.netbsd/bin/csh/proc.c:486-490 | a new job adds one hold on the current directory, reaping gives up those of flushed records, no other step changes what is held |
| Jobs.JobList.Palloc | src.netbsd/bin/csh/proc.c:452-515 | on linked records, a fork does what the state machine says, and the directory counts stay right |
| JobLaws.AllocSays | src.netbsd/bin/csh/proc.c:452-515 | a process joins the current job with its index and job number, or leads a new job from the current directory, which becomes current or previous if there is none |
| JobLaws.IndexIs | src.netbsd/bin/csh/proc.c:491-506 | a new job's index is one more than the highest while that is below 9, and then the least free one |
| Jobs.JobList.Pchild | src.netbsd/bin/csh/proc.c:89-202 | on linked records, news of a child do what the state machine says |
| Jobs.JobList.Pflush | src.netbsd/bin/csh/proc.c:394-421 | the walk around the friends clears exactly the job, and nothing if it is flushed already |
| Jobs.JobList.Pclrcurr | src.netbsd/bin/csh/proc.c:427-441 | the current and previous job are chosen anew when one of them goes |
| JobLaws.TakenOut | src.netbsd/bin/csh/proc.c:427-441 | the previous job moves up when the current one goes, and what is missing is filled with the best other job |
| Jobs.JobList.Pgetcurr | src.netbsd/bin/csh/proc.c:1202-1217 | the next job to be current or previous: a stopped leader first, otherwise any other leader |
| JobLaws.GetCurrIsBest | src.netbsd/bin/csh/proc.c:1202-1217 | the job taken is the first stopped leader on the list that is neither of the two given, or else the first such leader, and none only if there is none |
| Jobs.JobList.Pstart | src.netbsd/bin/csh/proc.c:1106-1137 | every process of the job that was stopped runs again, in the foreground or background, and the current jobs are set |
| JobLaws.StartRuns | src.netbsd/bin/csh/proc.c:1106-1137 | exactly the running and stopped processes of the job run, in the foreground if and only if that was asked; nothing else in the table's records changes |
| Jobs.JobList.Pnote | src.netbsd/bin/csh/proc.c:204-224 | jobs with news are shown and the finished ones flushed |
| Jobs.JobList.Pflushall | src.netbsd/bin/csh/proc.c:379-387 | no record is live and no job is current |
| Jobs.JobList.ReapAll | src.netbsd/bin/csh/proc.c:242-251 | flushed records leave the list, the rest stay linked, and a directory is freed with its last hold if it is off the ring |
| Jobs.JobList.PfindIndex | src.netbsd/bin/csh/proc.c:1165-1172 | `%n` finds the leader of the live job with that index if and only if there is one; there is none for 0 |
| Dirs.Dirs.Dfree | src.netbsd/bin/csh/dir.c:593-604 | a directory off the ring is kept while a job counts it, otherwise freed |
| Dirs.Dirs.Dfind | src.netbsd/bin/csh/dir.c:527-550 | `+n` is the nth directory of the stack, the header not counted, or an error |
| Dirs.Dirs.Dochngd | src.netbsd/bin/csh/dir.c:335-375 | `cd` replaces the top of the stack, `cd +n` rotates it and drops the old top, failures change nothing |
| Dirs.Dirs.Dopushd | src.netbsd/bin/csh/dir.c:478-522 | `pushd` swaps the two top directories, rotates or pushes, and frees none |
| Dirs.Dirs.Dopopd | src.netbsd/bin/csh/dir.c:557-588 | `popd` removes the top or the nth directory and keeps the others in order |
| Dirs.Dirs.Release | src.netbsd/bin/csh/proc.c:242-251 | giving up a hold frees the directory if and only if it was the last one and the directory is off the ring |
| Session.Run | src.netbsd/bin/csh/proc.c:89-515 | through any mix of forks, news, job control, reaping, `cd`, `pushd` and `popd`, every directory there ever was is on the ring, counted by a job or freed, and freed only once |
| PathHash.PathTable.Dohash | src.netbsd/bin/csh/exec.c:437-475 | a bit is set if and only if some listed name of some rooted directory of the path hashes to it |
| PathHash.PathTable.Iscommand | src.netbsd/bin/csh/exec.c:506-550 | the lookup gives the position it would give without the table if and only if there is none or it is not passed over, which holds for every name when the table is current |
| PathHash.PathTable.HeldIsHashed | src.netbsd/bin/csh/exec.c:462-471 | a directory of the path that holds the command has its bit set |
| PathHash.RunsWhere | src.netbsd/bin/csh/exec.c:532-543 | the file tried is the directory, a slash and the name, or the name alone for the current directory |
| PathHash.WhereTried | src.netbsd/bin/csh/exec.c:517-550 | a name with a slash, or without a path, is tried as it stands; any other name in the directories of the path, of which the first that has it counts |
| DdOut.Out.Bwrite | src.netbsd/bin/dd/dd.c:620-633 | one write takes the part of the bytes its reply says and puts it at the offset |
| DdOut.Out.WriteBlock | src.netbsd/bin/dd/dd.c:536-605 | whatever the writes take, a block goes out whole and in order, or (sparse) its zero rest joins the pending seek |
| DdOut.Out.DdOutFull | src.netbsd/bin/dd/dd.c:517-615 | file, pending zeros and buffer together stay what was given; less than a block is left |
| DdOut.Out.DdClose | src.netbsd/bin/dd/dd.c:473-515 | the file ends as what was given, but for the backward seek, which writes zeros over its last block |
| DdOut.LastHasData | src.netbsd/bin/dd/dd.c:544-581 | when less than a block is pending behind whole blocks, the last of them holds data |
| DdRecords.FeedAppend | src.netbsd/bin/dd/conv.c:116-199 | cutting the input of `block` anywhere changes neither the records nor the state |
| DdRecords.BlockedIsRecords | src.netbsd/bin/dd/conv.c:116-220 | each line becomes one record, padded or cut to `cbsz`, the unfinished last one too |
| DdRecords.RecordIs | src.netbsd/bin/dd/conv.c:116-220 | a record has cbsz bytes: those of its line as far as they fit, and then spaces |
| DdRecords.StrippedBytes | src.netbsd/bin/dd/conv.c:229-281 | a record loses exactly its trailing spaces |
| DdRecords.UnblockAppend | src.netbsd/bin/dd/conv.c:229-261 | cutting the input of `unblock` anywhere changes nothing |
| DdRecords.LinedIs | src.netbsd/bin/dd/conv.c:229-281 | every whole record becomes one line, and so does a short one at the end of the input, blank or not |
| DdRecords.RoundTrip | src.netbsd/bin/dd/conv.c:116-281 | `unblock` after `block` gives a text back if and only if every line fits a record and does not end in a space |
| DdConv.Dd.Block | src.netbsd/bin/dd/conv.c:116-199 | the bytes of one read, moved in place, become the records they stand for, in buffers that suffice |
| DdConv.Dd.BlockClose | src.netbsd/bin/dd/conv.c:201-220 | an unfinished line is padded to a record, one being cut adds nothing |
| DdConv.Dd.Unblock | src.netbsd/bin/dd/conv.c:229-261 | whole records in the buffer become lines without trailing spaces, the rest waits |
| DdConv.Dd.Def | src.netbsd/bin/dd/conv.c:61-88 | with one buffer for both sides the bytes read join the output unchanged |
| DdConv.Setup | src.netbsd/bin/dd/dd.c:249-263 | the buffer sizes are those dd computes, with and without bs, and every step fits them |
| DdConv.Dd.CopyDirect | src.netbsd/bin/dd/dd.c:444-454 | with bs each read is written out by itself, nothing stays behind, and the file is the whole input |
| DdConv.Dd.Copy | src.netbsd/bin/dd/dd.c:456-515 | for any reads, any script of writes, sparse or not, the file is the conversion of the whole input, with its last block zero exactly when the script leads to the backward seek; `st.bytes` is its length |
| DdConv.BackwardIsWrong | src.netbsd/bin/dd/dd.c:490-497 | the copy is right if and only if the close does not seek backward, and it does so only in a sparse copy |
| DdConv.SmoothIsForward | src.netbsd/bin/dd/dd.c:490-497 | it does not when every write takes all it is given |
| DdConv.BackwardRun | src.netbsd/bin/dd/dd.c:490-497 | a run on the input 1 0 with blocks of two bytes and a first write of one byte ends in 0 0 |
| YaccTables.LookupIsMeant | src.netbsd/bin/expr/y.tab.c:109-216 | for every state and token the packed tables give the action that grammar and precedences ask for |
| YaccArith.PerformArithOp | src.netbsd/bin/expr/y.tab.c:463-574 | no step overflows, and the result is the exact one, or an error precisely if an operand is no integer or out of range, a divisor is 0, or the exact result (for `%` the quotient) does not fit 64 bits |
| YaccArith.Multiply | src.netbsd/bin/expr/y.tab.c:539-571 | after negating and swapping, the comparison with a quotient decides exactly whether the product fits |
| YaccArith.QuotientCutsOff | src.netbsd/bin/expr/y.tab.c:522-538 | quotient and remainder make up the dividend, and the remainder is smaller than the divisor with the dividend's sign |
| YaccArith.ReadsPrinted | src.netbsd/bin/expr/y.tab.c:1416-1448 | what rules 6 and 7 print is read back as the same integer by the next operator |
| YaccArith.RemainderIsRefused | src.netbsd/bin/expr/y.tab.c:531-538 | of all remainders by a divisor other than 0 only that of the least integer by -1 is refused, although it is 0 |
| YaccArith.RemainderExample | src.netbsd/bin/expr/y.tab.c:534-536 | the least integer and -1 as words give an overflow |
| YaccArith.WrongBoundNamed | src.netbsd/bin/expr/y.tab.c:488-495 | the message about a right operand names the bound it passed if and only if both operands are positive or neither is |
| YaccArith.WrongBoundExample | src.netbsd/bin/expr/y.tab.c:490-494 | with -1 on the left, the integer behind the greatest is called too small |
| YaccArith.ComparesExactly | src.netbsd/bin/expr/y.tab.c:1470-1499 | two integers are compared exactly if and only if they do not differ at or beyond the same 64-bit bound |
| YaccArith.CompareExample | src.netbsd/bin/expr/y.tab.c:1472-1473 | the greatest integer and the one behind it are called equal |
| YaccLaws.Computes | src.netbsd/bin/expr/y.tab.c:463-574 | expr on two integers with `+`, `-` or `*` between them prints the exact result if 64 bits hold it, and otherwise ends with an overflow |
| YaccLaws.DividesExactly | src.netbsd/bin/expr/y.tab.c:515-538 | `/` and `%` give a quotient and a remainder that make up the dividend |
| YaccLaws.RefusesZero | src.netbsd/bin/expr/y.tab.c:515-538 | dividing by 0 is an error |
| YaccLaws.RefusesWords | src.netbsd/bin/expr/y.tab.c:463-500 | arithmetic on a word that is no integer is an error that names it, the left one first |
| YaccLaws.Spells | src.netbsd/bin/expr/y.tab.c:452-461 | blanks, a sign and digits are the integer they spell, of any size; with anything behind them they are none |
| YaccLaws.Compares | src.netbsd/bin/expr/y.tab.c:1450-1505 | each of the six comparisons of two 64-bit integers gives 1 exactly when it holds, and otherwise 0 |
| YaccLaws.ComparesStrings | src.netbsd/bin/expr/y.tab.c:1450-1505 | if one of two words is no integer, each comparison gives 1 exactly when the collating order says so |
| YaccLaws.Chooses | src.netbsd/bin/expr/y.tab.c:1341-1370 | a bar gives the first operand unless it counts as false, and then the second; `&` gives the first operand, or 0 if one of the two counts as false |
| YaccLaws.FalseIs | src.netbsd/bin/expr/y.tab.c:1341-1370 | of the integers only 0 counts as false, and no word that is not an integer does but the empty one |
| YaccLaws.Matches | src.netbsd/bin/expr/y.tab.c:1371-1415 | a match counts only from the front, and gives the group or the length |
| YaccLaws.GroupsFirst | src.netbsd/bin/expr/y.tab.c:788-1650 | of any two operators the one in the tighter row groups first, and of one row the left one |
| YaccParse.AcceptsIff | src.netbsd/bin/expr/y.tab.c:839-1077 | shifting and reducing accepts a derivation if and only if it respects precedence and left association, its leaves are all the tokens, and it has a value |
| YaccParse.FailsWith | src.netbsd/bin/expr/y.tab.c:1280-1530 | tokens with a derivation that has no value give the derivation's first error from the left |
| YaccParse.Unambiguous | src.netbsd/bin/expr/y.tab.c:109-216 | no tokens have two such derivations, although every operator may also be an operand |
| YaccParser.DashesDropped | src.netbsd/bin/expr/y.tab.c:603-617 | any number of leading `--` is dropped if a string or a parenthesis follows, otherwise all but one |
| YaccParser.Yacc.Yylex | src.netbsd/bin/expr/y.tab.c:585-627 | the lexer returns the tokens of the command one by one, also where it reads ahead and steps back |
| YaccParser.StepAgrees | src.netbsd/bin/expr/y.tab.c:1053-1077 | for every stack the parser can have, the action of the tables is a step of the parse, with the states and values that go on and come off |
| YaccParser.Yacc.YyParse | src.netbsd/bin/expr/y.tab.c:788-1650 | the loop ends for all arguments with the value or error of the parse, and the exit status that goes with it |
| YaccParser.EvaluatesDerivations | src.netbsd/bin/expr/y.tab.c:788-1650 | a command with a derivation prints its value or ends with its first error, and one without ends with an error |
| Chacha.QuarterExample | include/chacha_private.h:45-49 | the quarter round gives the values of the test vector in section 2.1.1 of RFC 8439 |
| Chacha.EncryptBlock | include/chacha_private.h:124-210 | 64 bytes are exclusive-ored with the serialized block, also when written back where they came from |
| ChachaVectors.DoubleRoundTurns | include/chacha_private.h:147-156 | for every state the second half of a double round is the first half on rows turned by 0 to 3 places, turned back |
| ChachaVectors.BlockExample | include/chacha_private.h:124-176 | the block function gives the sixteen words of section 2.3.2 of RFC 8439: ten double rounds, added to the state they started from |
| ChachaVectors.StreamExample | include/chacha_private.h:124-210 | from that state zero bytes are encrypted to the first bytes of the key stream the section lists |
| Chacha.Context.KeySetup | include/chacha_private.h:62-85 | constants and key words for 128 and 256 bits |
| ChachaVectors.SetupExample | include/chacha_private.h:59-85 | the constants and the key words are those of the state in that section |
| Chacha.Context.IvSetup | include/chacha_private.h:87-94 | counter 0 and the nonce |
| Chacha.Context.EncryptBytes | include/chacha_private.h:96-230 | for every length, in place or not, the output is the message exclusive-or the keystream, nothing else is written, and the counter moves on by the number of blocks begun |
| Chacha.LaterCounts | include/chacha_private.h:193-197 | after n blocks the two counter words hold the counter plus n modulo 2^64 |
| Chacha.CryptTwice | include/chacha_private.h:96-230 | encrypting again from the same state gives the message back |
| Chacha.CryptSplit | include/chacha_private.h:96-230 | a message may be cut at any multiple of 64 bytes |

## Findings

Where the code does not do what it is for, a lemma gives the exact condition.

- A quoted star right behind a star is swallowed (`src.netbsd/bin/csh/glob.c:843`): the loop that skips a run of stars
  compares characters without their quote bit. `Pmatch.SwallowIsWrong` shows that of the patterns
  whose pieces can all match exactly those without such a star are matched right.
- If a run of stars ends with a quoted one, the restart after a mismatch (`src.netbsd/bin/csh/glob.c:878-882`) begins at
  a character that is no star any more, at a place in the name that does not move on. On a star, a quoted star and the
  name `a` the matcher never ends (`Pmatch.SpinExample`). `Pmatch.EndsIff` gives the exact condition on patterns.
- The evaluator of csh does not leave a skipped operand alone: words are still expanded
  (`src.netbsd/bin/csh/exp.c:556`), which can run commands in back quotes, and an operator behind a file test is looked
  up as a file (`src.netbsd/bin/csh/exp.c:485`), which decides between an error and a value. `Expr.SkipIsQuiet` says
  that nothing else happens, `ExprProbes.ProbesAre` which operators they are, `ExprProbes.SkippedProbe` shows one.
- dd can seek backward at the end of a sparse copy (`src.netbsd/bin/dd/dd.c:490-497`). A short write into a block whose
  rest is zero leaves less than a block pending; with an empty buffer the close subtracts a whole block and writes
  zeros over data. `DdConv.BackwardIsWrong` gives the condition in terms of the input and the script of writes,
  `DdConv.BackwardRun` a run.
- expr refuses the remainder of the least integer by -1, which is 0 (`src.netbsd/bin/expr/y.tab.c:534`;
  `YaccArith.RemainderIsRefused`, `YaccArith.RemainderExample`).
- expr compares integers beyond 64 bits after cutting them to the bound, so different ones can be equal
  (`src.netbsd/bin/expr/y.tab.c:1472-1473`; `YaccArith.ComparesExactly`, `YaccArith.CompareExample`).
  Arithmetic does check the range.
- expr's message about a right operand out of range looks at the left operand to tell which bound was passed
  (`src.netbsd/bin/expr/y.tab.c:491-493`; `YaccArith.WrongBoundNamed`, `YaccArith.WrongBoundExample`).

## Left out

- Memory allocation failure, fixed character buffers (`MAXPATHLEN`, `BUFSIZE`, the `PMAXLEN` cut of printed commands), the width of counters and list lengths, and the parser stack limit `YYMAXDEPTH`.
- System calls, signals and terminals: `fork`, `wait3`, `chdir`, `tcsetpgrp`, `read` and `write` appear as parameters with any legal outcome.
- Pmatch.Match: only runs that end are modelled as method calls; that is no restriction on patterns and names but the one `Pmatch.EndsIff` is about. An open bracket that the C code reads past the end of the string is taken to be read as terminators, and no character of a pattern is only a quote bit.
- VarTable.VarTable.Unset1: only patterns on which matching ends for every name; the "no match" message is not modelled.
- VarTable.Madrof: as `Unset1`.
- Gmatch.Gmatch: only patterns and names on which matching ends.
- Braces.Expbrace: the `elp` argument, which only says where the vector ends, is the vector's length.
- Parser.Syntax: the model stops at the first error, while the parser goes on and reports the first one it met; alias expansion rewrites the word list in place and is left out, and words are a sequence instead of a circular list.
- ParsePrint.SyntaxReadsPrinted: trees with `&` and `|&` are left out, because the printer does not write them back in that form (`ParseSource` has them); so is the `!` behind `>`; a word that begins with the mark of a quoted empty word, which `pads` leaves out, is printed as it is.
- ParseAccepts.AcceptsIff: words are as the lexer cuts them, where one that begins with a special character is one of the operators; which of the errors a refused command line gets is said by `Parser.Syntax` only.
- ExprValues.Adds: results that 32 bits do not hold, and shifts by 32 or more, are what C leaves open.
- Expr.SkipIsQuiet: what machine arithmetic computes where C leaves it open (overflow, wide shifts) and the order in which C calls operands are fixed by the environment and by the order the code is written in.
- Jobs.JobList.Pchild: timing, resource usage and the flags that only steer printing.
- Jobs.JobList.PfindIndex: `%+`, `%-` and searching by command text.
- `psavejob` and `prestjob`, which keep a job aside without a hold on its records.
- JobTable.RunKeeps: a fork returns a pid that no record has.
- Dirs.Dirs.Dochngd: path canonicalization and the home directory are not modelled, the new name is a parameter; the field that counts holds is a number, while the source stores it in a pointer-sized field.
- PathHash.PathTable.Iscommand: `dohash` and the lookup see the same path, and file permissions are one predicate; trying the directories by `execve` in `doexec` is not modelled.
- DdConv.Dd.Copy: the truncation count, statistics, a limit on the blocks read, sync and osync padding, swapped bytes, character tables, read errors, positioning of the input, and output that cannot seek.
- YaccParser.Yacc.Yylex: an empty argument is a string; the C code looks one byte past it.
- YaccParser.Yacc.YyParse: regular expressions and the collating order are parameters; the part of the skeleton that only runs after error recovery or with a look-ahead kept past the final state never runs in this grammar.
- Chacha.Context.EncryptBytes: input and output overlap completely or not at all.
- exec.c's `hits` and `misses`, csh history, aliases and `$` substitution, loop control, file completion, and the other utilities, which are input and output plumbing.
