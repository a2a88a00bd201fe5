# Boost.Jam's engine, modelled and verified in Dafny

A model of the C build engine under `windows/boost-build/engine` (Boost.Jam), with proofs of
what its parts are for. The model follows the code branch by branch; where the code changes
things in place, so does the model, and each such method is proved against a specification
about which the main results are then stated.

Verify it with `dafny verify dfyconfig.toml` (Dafny 4.11).

## What is modelled

**The regular expressions** (`regexp.c`). `RegexSyntax` has the grammar that the
recursive-descent parser follows and the flags it passes up, `RegexSpelling` the notation of
patterns and what it stands for, apart from how it is read. `RegexLayout` has the byte
program of a pattern, with its relative next offsets. `RegexCompiler` runs the parser over
global cursors, twice: counting bytes, then emitting, moving and patching them in one buffer.
`RegexMeaning` says what a pattern means (spans and traces of group boundaries) and what the
backtracking search for a match does. `RegexMatcher` is the matcher over the byte program,
`Regexp` is regcomp with its shortcuts, regtry and regexec. The main results:

* `RegexSpelling.PatternIff`, `RegexSpelling.ReadsPattern`: a text is accepted exactly if it is
  a pattern written out, and is read as what its spelling stands for.
* `Regexps.RegComp`: both passes agree, the program is the pattern's, and every shortcut is
  true of all matches.
* `RegexMatcher.Matcher.RegMatch` with `RegexMeaning.SearchMeans`: on every program that
  regcomp emits, the matcher terminates and succeeds at a position exactly when the pattern
  has a match there.
* `Regexps.Regexp.RegExec`: with regstart, reganch, regmust and the one-character lookahead,
  the verdict is that of trying every position, and the match found is the leftmost.
* `Regexps.CaughtSpans`: what the captures mean after a success.
* `RegexNodes.EveryNextIsANode`: no offset leads into the middle of a node.

**The asynchronous scheduler** (`make1.c`). `Make1State` has the transitions 1A, 1ATAIL, 1B,
1C and 1D over an explicit stack, and the completion of any running command at any moment,
also during the call that starts another. The invariants are in `Make1Counters` (what
asynccnt counts), `Make1Waits` (who waits on whom), `Make1Semaphores` and `Make1Launch`;
`Make1Runs` puts them together over whole runs, `Make1Commands` and `Make1Ran` say which
commands are run and what their endings make of the targets, `Make1Failures` what the result
means and `Make1Verdict` which calls leave a failure behind, `Make1Measure` shows that runs end, and `Make1Engine` is make1() itself over target objects
changed in place. The main results:

* `Make1Runs.NoDeadlock`: over any graph, cycles included, a run that has come to rest has
  everything done that the root reaches, each target released exactly once.
* `Make1Runs.LaunchedWell`: on an acyclic graph commands run only when all dependencies are
  done, each with success or NOCARE.
* `Make1Semaphores.NextSems`, `Make1Semaphores.GiveC`: one holder at a time, no lost wake-up,
  and the assertion at the release never fires.
* `Make1Engine.Engine.Make1`, `Make1Failures.FailedMeans`, `Make1Failures.BuiltWhen`: make1() returns,
  and its result tells whether a target that commands were run for in this call failed.
* `Make1Ran.CommandsRun`, `Make1Commands.BuiltFails`, `Make1Verdict.ResultMeans`: the commands of a
  target are run in order until one fails, and the statuses they end with decide the target's
  status and the result.
* `Make1Verdict.FailsWhen` with `Make1Verdict.DealtWith`: the call deals with what the root reaches
  and no call has dealt with before, and one of those ends as a failure exactly when a command
  has failed or one of them was doomed before the call.

**The up-to-date analysis** (`make.c`). `Make0` is the depth-first visit that gives each
target a fate and a time, `MakeRebuilds` the backward propagation along dependants, `MakeSort`
the in-place sort of a chain, `Make` what make1 makes of the fates. The main results:
`Make0.Maker.Survey` (every target gets the fate that files, flags and chains of dependencies
call for), `Make.BuiltIfDue`, `MakeRebuilds.Fates.UpdateDependants`,
`MakeRebuilds.Fates.ForceRebuilds` with `MakeRebuilds.AllRaised`, and `MakeSort.Make0Sort`.

**The hash table** (`hash.c`), as a finite map with stable addresses; **glob** (`glob.c`), as a
relation between patterns and strings, with the notation of patterns in `GlobSpelling`; **MD5**
(`md5.c`), the streaming shell around an arbitrary compression function; **NORMALIZE_PATH**
(`builtins.c`), as forward reduction of a path with a stack, and what that means for its result;
and **the header cache file** (`hcache.c`), as a round trip, with what is made of files cut off
or written otherwise.

## Where the code differs from what is said about it

* `glob.c:14-15` says that `[a-z]` is any character in the range. The closing bracket is
  handed to globchars too: it is one more character of the group (one less of a negated one),
  or, in a group like `[a-]`, the end of a range. `Glob.GroupAsDocumented` says for which groups
  this changes nothing; `Glob.GroupHasItsBracket`, `Glob.NegatedLosesItsBracket`,
  `Glob.OpenRangeIsEmpty` and `Glob.OpenRangeIsWider` are groups for which it does.
* `regexp.c:168` says that SPSTART means "starts with * or +". The code sets it for `*` and
  `?`, and not for `+` (line 435; `RegexSyntax.SpStartMeans`).
* `make.c:211-213` says that all rebuilds get rebuilt with their dependants. A rebuild still
  being made that an earlier one leads to does not pass this on. `MakeRebuilds.CutShort` is such
  a state, which takes a dependency cycle; `MakeRebuilds.AllRaised` says exactly when nothing is
  missed.
* `hash.c:331-335` leaves out the last `more` slots of the last block, which count freed slots
  as well. It misses entries unless those freed are the last that were handed out
  (`Hash.MissesOne`), and, with more slots free than the last block has, its count starts below
  zero (`Hash.RunsOff`). `Hash.HashTable.Enumerate` says exactly when either happens.
* `hcache.c:37-39` describes another file format than the one that is read and written.
* `hcache.c:252-260` reads the count of the hdrscan list but tests the other count for NULL; a file
  that ends there has atoi called on NULL. The model calls this ending `Undefined`:
  `HeaderCache.EndsUndefined` is such a file, and `HeaderCache.CutFile` says exactly which cuts of
  a written file end so.
* The result of make1() counts only targets that commands were run for. A target that cannot be
  found, or is skipped because a dependency failed, ends as a failure without being counted
  (`Make1Failures.LostIsNotCounted`), as does one whose action another target shares and an
  earlier call saw fail (`Make1Verdict.SharedFails`). `Make1Verdict.FailsWhen` says exactly when
  something fails that the result does not tell. make() adds what make0 has counted.

## Model

| member | source | states |
|---|---|---|
| `RegexSyntax.ClassHasNoNul` | windows/boost-build/engine/regexp.c:498-532 | No bracket group, however its ranges run, ever contains the NUL character; so `strchr` over the operand string sees the whole set. |
| `RegexSyntax.MultFollowsOneChar` | windows/boost-build/engine/regexp.c:567-646 | The literal-run loop with its one-character backup: a multiplier is never left standing after a run of several characters, so `*`, `+` and `?` apply to exactly the one character before them. |
| `RegexSyntax.ParsedAtom` | windows/boost-build/engine/regexp.c:478-650 | Every accepted atom is well formed and has its own range of group numbers; when a multiplier comes next it is a single operand, not a longer run. |
| `RegexSyntax.ParsedP` | windows/boost-build/engine/regexp.c:415-468 | Every accepted piece is well formed: `*` and `+` are only ever applied to something flagged HASWIDTH, multipliers are never nested, and its groups are numbered without gaps or repeats. |
| `RegexSyntax.ParsedB` | windows/boost-build/engine/regexp.c:376-404 | The same for a branch. |
| `RegexSyntax.ParsedA` | windows/boost-build/engine/regexp.c:304-369 | The same for the alternatives of a group or of the whole pattern. |
| `RegexSyntax.SpStartMeans` | windows/boost-build/engine/regexp.c:435 | SPSTART is set for `*` and `?`, and not for `+`. |
| `RegexSpelling.ReadsClass` | windows/boost-build/engine/regexp.c:498-532 | A bracket group is read as the set of its single characters and of all from one end of each range to the other, complemented after a caret. |
| `RegexSpelling.ReadsRun` | windows/boost-build/engine/regexp.c:571-645 | A run of literal characters, escaped or not, is read up to what stops it; a character with a multiplier of its own is left for the next piece. |
| `RegexSpelling.ReadsAtom` | windows/boost-build/engine/regexp.c:478-650 | Every term written without a multiplier is read as what it stands for, its groups numbered in the order in which they open. |
| `RegexSpelling.ReadsTerm` | windows/boost-build/engine/regexp.c:415-468 | So is every term with one. |
| `RegexSpelling.ReadsTerms` | windows/boost-build/engine/regexp.c:376-404 | So is every branch. |
| `RegexSpelling.ReadsAlts` | windows/boost-build/engine/regexp.c:304-369 | So are alternatives, separated by bars or newlines. |
| `RegexSpelling.SpelledAlts` | windows/boost-build/engine/regexp.c:304-369 | Conversely, whatever is accepted is such alternatives, written out. |
| `RegexSpelling.ReadsPattern` | windows/boost-build/engine/regexp.c:296-369 | Reading a whole pattern gives what its spelling stands for. |
| `RegexSpelling.PatternIff` | windows/boost-build/engine/regexp.c:296-369 | A text is accepted if and only if it can be spelled so: no text that is no pattern is accepted, and none that is one is refused. |
| `RegexSpelling.Refused` | windows/boost-build/engine/regexp.c:296-650 | Texts that are refused, and the error that each gives. |
| `RegexLayout.ReachP` | windows/boost-build/engine/regexp.c:92-125 | A piece whose tail is linked leads, along next offsets from its first node, to exactly what follows it; BACK offsets are never on that way. |
| `RegexLayout.WalkP` | windows/boost-build/engine/regexp.c:722-741 | regtail's walk over a piece whose tail still dangles stops at the one node that carries the tail. |
| `RegexLayout.PatchP` | windows/boost-build/engine/regexp.c:743-748 | Setting the offset found by that walk turns the code of the dangling piece into the code of the linked one, with no other byte changed. |
| `RegexLayout.PatchA` | windows/boost-build/engine/regexp.c:331-353 | Linking the last BRANCH of a chain of alternatives to what follows it, with no other byte changed. |
| `RegexLayout.PatchBody` | windows/boost-build/engine/regexp.c:351-353 | Linking the body of one alternative to the closing node changes only that body's tail. |
| `RegexLayout.SnocPs` | windows/boost-build/engine/regexp.c:388-399 | Chaining one more piece on to a branch gives the code of the longer branch. |
| `RegexCompiler.Compiler.constructor` | windows/boost-build/engine/regexp.c:231-235 | The counting pass starts with nothing emitted and the cursor at the start of the pattern. |
| `RegexCompiler.Compiler.Restart` | windows/boost-build/engine/regexp.c:243-252 | The second pass starts over in a buffer of exactly the size that the first one counted. |
| `RegexCompiler.Compiler.RegC` | windows/boost-build/engine/regexp.c:679-686 | Emits, or while counting counts, one byte. |
| `RegexCompiler.Compiler.RegNode` | windows/boost-build/engine/regexp.c:655-674 | Emits, or counts, a node with an empty next offset, and returns where it is. |
| `RegexCompiler.Compiler.RegNext` | windows/boost-build/engine/regexp.c:1146-1162 | Where a node's offset leads: forward, or backward for BACK, or nowhere. |
| `RegexCompiler.Compiler.RegInsert` | windows/boost-build/engine/regexp.c:693-717 | A node is put before the operand already emitted; the operand moves up by three bytes, unchanged, and nothing before it moves. |
| `RegexCompiler.Compiler.RegTail` | windows/boost-build/engine/regexp.c:722-749 | Exactly one offset changes: that of the last node of the chain; afterwards it leads to the node given, backward if that last node is a BACK. |
| `RegexCompiler.Compiler.RegOpTail` | windows/boost-build/engine/regexp.c:755-764 | The same for the operand of a BRANCH; nothing at all for any other node. |
| `RegexCompiler.Compiler.RegClass` | windows/boost-build/engine/regexp.c:498-532 | Fails exactly when the grammar rejects the bracket group, with the same error; otherwise emits, or counts, its node and set. |
| `RegexCompiler.Compiler.RegClassRest` | windows/boost-build/engine/regexp.c:510-531 | The loop of the bracket group, ranges included. |
| `RegexCompiler.Compiler.RegRun` | windows/boost-build/engine/regexp.c:559-646 | A literal run: the string, where the cursor stops, and SIMPLE exactly when no backup point was set. |
| `RegexCompiler.Compiler.EmitStar` | windows/boost-build/engine/regexp.c:439-445 | `x*` of a wide operand becomes (x&\|): operand moved, loop closed with BACK, empty alternative added, all links right. |
| `RegexCompiler.Compiler.EmitPlus` | windows/boost-build/engine/regexp.c:448-454 | `x+` of a wide operand becomes x(&\|). |
| `RegexCompiler.Compiler.EmitOpt` | windows/boost-build/engine/regexp.c:455-462 | `x?` becomes (x\|). |
| `RegexCompiler.Compiler.RegAtom` | windows/boost-build/engine/regexp.c:478-650 | Both passes alike: fails exactly when the grammar rejects the atom, with the same error; otherwise the same cursor and group count, exactly the atom's code, and the flags that the syntax says. |
| `RegexCompiler.Compiler.RegPiece` | windows/boost-build/engine/regexp.c:415-468 | The same for an atom and its multiplier. |
| `RegexCompiler.Compiler.RegBranch` | windows/boost-build/engine/regexp.c:376-404 | The same for a branch. |
| `RegexCompiler.Compiler.RegAlts` | windows/boost-build/engine/regexp.c:325-349 | The loop over the alternatives: their BRANCH nodes end up chained in order. |
| `RegexCompiler.Compiler.Reg` | windows/boost-build/engine/regexp.c:304-369 | The same for all alternatives of a group or of the pattern: every body linked to the closing node; fails in the counting pass exactly when it would in the emitting pass. |
| `RegexNodes.LandsP` | windows/boost-build/engine/regexp.c:139-144 | Every node of a piece's code leads to a node of the piece or to what follows it. |
| `RegexNodes.EveryNextIsANode` | windows/boost-build/engine/regexp.c:131-144 | In a whole program every next offset, forward or back, leads to the first byte of a node; only END and the operands of STAR and PLUS lead nowhere. |
| `RegexMeaning.WidthSoundP` | windows/boost-build/engine/regexp.c:163-169 | A piece flagged HASWIDTH never matches the empty string. |
| `RegexMeaning.WidthSoundA` | windows/boost-build/engine/regexp.c:163-169 | The same for alternatives: HASWIDTH only if each of them has it. |
| `RegexMeaning.IterAdvances` | windows/boost-build/engine/regexp.c:433-454 | n rounds of a loop whose operand has width use up at least n characters; this is why every trip through a BACK node makes progress. |
| `RegexMeaning.Sound` | windows/boost-build/engine/regexp.c:890-1096 | Whatever the backtracking search finds is a match in the declarative sense, with the trace of group boundaries it reports. |
| `RegexMeaning.Complete` | windows/boost-build/engine/regexp.c:890-1096 | Where there is a match at all, the search finds one. |
| `RegexMeaning.SearchMeans` | windows/boost-build/engine/regexp.c:890-1096 | The search over a whole pattern succeeds at a position if and only if the pattern's meaning has a match there. |
| `RegexCaptures.SpanOfGroup` | windows/boost-build/engine/regexp.c:983-1030 | In the trace of any match, each group is either absent or its last boundaries are the two ends of one complete match of that group's own alternatives, inside the whole match, with nothing later about the group. |
| `RegexCode.Unfold` | windows/boost-build/engine/regexp.c:112-130 | Code seen as the goal of its first node: the same outcome, and no more work ahead. |
| `RegexCode.ChoiceView` | windows/boost-build/engine/regexp.c:112-125 | A BRANCH chain in the program, be it of alternatives, `*`, `+` or `?`, offers exactly the alternatives of the goal it encodes, in order. |
| `RegexCode.StarView` | windows/boost-build/engine/regexp.c:439-445 | The looped code of `x*` offers x and the loop again, or nothing. |
| `RegexMatcher.StarIsDown` | windows/boost-build/engine/regexp.c:1049-1076 | Counting the longest run and then backing up one character at a time is the search for `x*`. |
| `RegexMatcher.PlusIsDown` | windows/boost-build/engine/regexp.c:1049-1076 | The same for `x+`, down to one. |
| `RegexMatcher.LiteralFirst` | windows/boost-build/engine/regexp.c:1056-1070 | The lookahead is safe: where the next node is EXACTLY, the rest cannot match unless its first character comes next. |
| `RegexMatcher.Matcher.MatchAtom` | windows/boost-build/engine/regexp.c:918-974 | Each node without recursion succeeds exactly when its piece matches at the cursor, and moves it by what the piece uses up. |
| `RegexMatcher.Matcher.MatchExactly` | windows/boost-build/engine/regexp.c:947-960 | The inlined first character and the string comparison together: equal to the next characters of the subject. |
| `RegexMatcher.Matcher.RegRepeat` | windows/boost-build/engine/regexp.c:1101-1141 | The greatest number of times that the one-character operand matches in a row. |
| `RegexMatcher.Matcher.RepeatExactly` | windows/boost-build/engine/regexp.c:1115-1120 | The same, for a literal character. |
| `RegexMatcher.Matcher.RepeatClass` | windows/boost-build/engine/regexp.c:1121-1132 | The same, for a set and for its complement. |
| `RegexMatcher.Matcher.MatchOpen` | windows/boost-build/engine/regexp.c:975-1002 | A group's start is recorded only if the rest matches and no later round has recorded one. |
| `RegexMatcher.Matcher.MatchClose` | windows/boost-build/engine/regexp.c:1003-1030 | The same for its end. |
| `RegexMatcher.Matcher.MatchBranch` | windows/boost-build/engine/regexp.c:1031-1048 | Alternatives are tried in order from the same position; one that fails leaves nothing behind. |
| `RegexMatcher.Matcher.MatchRepeat` | windows/boost-build/engine/regexp.c:1049-1077 | STAR and PLUS with the lookahead succeed exactly when the search does. |
| `RegexMatcher.Matcher.RegMatch` | windows/boost-build/engine/regexp.c:900-1096 | Running a program from any node terminates and does exactly what the search over the remaining pattern does: verdict, end of match and captures; on failure no capture is set. |
| `RegexProgram.PassGroup` | windows/boost-build/engine/regexp.c:279-289 | A match that must pass a group must pass its alternatives and its closing. |
| `RegexProgram.MustStep` | windows/boost-build/engine/regexp.c:279-286 | On the walk along next offsets, a literal met is one that every match must have, and each step comes closer to the end of the program. |
| `Regexps.ProgramRuns` | windows/boost-build/engine/regexp.c:252-254 | The emitted program carries out the pattern from its first node. |
| `Regexps.TopNode` | windows/boost-build/engine/regexp.c:261-262 | The first BRANCH leads to END exactly when there is one alternative. |
| `Regexps.FirstNodeIs` | windows/boost-build/engine/regexp.c:263-269 | The operand of that BRANCH is EXACTLY, or BOL, exactly when the pattern starts with a literal, or with `^`. |
| `Regexps.FirstTells` | windows/boost-build/engine/regexp.c:265-269 | Then every match starts with that character, or at the beginning of the subject. |
| `Regexps.Regexp.constructor` | windows/boost-build/engine/regexp.c:256-260 | All shortcuts start out unset. |
| `Regexps.Regexp.DigOut` | windows/boost-build/engine/regexp.c:256-290 | What regstart, reganch and regmust are set to, and that each is true of every match. |
| `Regexps.Regexp.FindMust` | windows/boost-build/engine/regexp.c:279-289 | regmust is the longest literal on the walk, the last of several as long, and every string the pattern matches in contains it. |
| `Regexps.Regexp.RegTry` | windows/boost-build/engine/regexp.c:859-887 | Succeeds at a position exactly when the pattern matches there; captures are those of that match, or all NULL after a failure. |
| `Regexps.Regexp.StartScan` | windows/boost-build/engine/regexp.c:836-842 | Skipping to each occurrence of regstart misses no match. |
| `Regexps.Regexp.LookFor` | windows/boost-build/engine/regexp.c:813-825 | Finds the required string exactly when it occurs. |
| `Regexps.Regexp.RegExec` | windows/boost-build/engine/regexp.c:794-852 | With all shortcuts: succeeds if and only if the pattern matches at some position, and then at the leftmost one, with the captures of the match found there. |
| `Regexps.CaughtSpans` | windows/boost-build/engine/regexp.c:859-887 | After success, every pair of captures is NULL twice or an ordered span inside the whole match: the last round of that group, a match of the group's own alternatives. |
| `Regexps.RegComp` | windows/boost-build/engine/regexp.c:215-293 | Fails exactly when the grammar rejects the pattern, with that error, or its program has 32767 bytes or more; otherwise the second pass fills exactly the bytes the first one counted with the pattern's program. It succeeds only for a text that can be spelled as a pattern, and the program is that of what the spelling stands for. |
| `Make1Counters.KeepA` | windows/boost-build/engine/make1.c:264-325 | After 1A, each target's asynccnt is still its own 1ATAIL or 1B entries plus what unfinished targets owe it plus its places in semaphore queues. |
| `Make1Counters.KeepB` | windows/boost-build/engine/make1.c:351-493 | The same after 1B. |
| `Make1Counters.KeepFinish` | windows/boost-build/engine/make1.c:536-650 | The same after a target is done: what it owed its parents has become 1B entries. |
| `Make1Counters.KeepD` | windows/boost-build/engine/make1.c:798-865 | The same after 1D; the target whose command finished always still has that command at the head of its chain. |
| `Make1Counters.NoAsksLeft` | windows/boost-build/engine/make1.c:303-340 | When a target's 1ATAIL comes up, all its dependencies have been asked for. |
| `Make1Steps.StepKeeps` | windows/boost-build/engine/make1.c:217-232 | Every step of the loop keeps the counters conserved. |
| `Make1Steps.ClosureKeeps` | windows/boost-build/engine/make1.c:768-786 | So does a command that finishes at any moment. |
| `Make1Steps.NextKeeps` | windows/boost-build/engine/make1.c:208-251 | Whatever happens next, the counting invariant holds; in particular each target is released at most once. |
| `Make1Waits.NextOrdered` | windows/boost-build/engine/make1.c:273-340 | Whatever happens next: a target waits only on targets whose 1ATAIL came, or comes, earlier; every dependency of a visited target is visited or about to be. |
| `Make1Waits.TopIsLast` | windows/boost-build/engine/make1.c:273-340 | When a target's 1ATAIL comes up, nothing still being visited has it to tell. |
| `Make1Semaphores.GiveC` | windows/boost-build/engine/make1.c:616-642 | When a target that has a semaphore is done, the semaphore's asynccnt is 1: the assertion never fires. |
| `Make1Semaphores.QueueB` | windows/boost-build/engine/make1.c:370-383 | A target that finds its semaphore taken joins its queue, and the semaphore's invariant is kept. |
| `Make1Semaphores.TakeB` | windows/boost-build/engine/make1.c:481-490 | A released target is the only holder of its semaphore. |
| `Make1Semaphores.NextSems` | windows/boost-build/engine/make1.c:370-642 | Whatever happens next: at most one target holds a semaphore, and if one is free while others queue for it, a 1B entry on the stack is about to take it. |
| `Make1Launch.NotOnStack` | windows/boost-build/engine/make1.c:273-291 | On an acyclic graph nothing asked for is being visited already. |
| `Make1Launch.AllDue` | windows/boost-build/engine/make1.c:351-365 | On an acyclic graph a target is let go only when all its dependencies are done. |
| `Make1Launch.NextLaunch` | windows/boost-build/engine/make1.c:264-652 | The invariant behind this is kept by whatever happens next. |
| `Make1Launch.LaunchSafe` | windows/boost-build/engine/make1.c:385-534 | A command that runs, or is about to be started, belongs to a target all of whose dependencies are done, each with success or NOCARE. |
| `Make1Runs.NextTallied` | windows/boost-build/engine/make1.c:541-555 | Targets set out to be built are always made, failed or still running; actions of finished targets know of a failure. |
| `Make1Runs.NextSound` | windows/boost-build/engine/make1.c:217-235 | All invariants together are kept by whatever happens next. |
| `Make1Runs.NotStuck` | windows/boost-build/engine/make1.c:351-365 | With an empty stack and nothing running, no target waits: the one whose 1ATAIL came first would have to wait for an earlier one. |
| `Make1Runs.QuietIsDone` | windows/boost-build/engine/make1.c:217-250 | In such a state every target is untouched or done and released exactly once, a done target's dependencies are done, all semaphores are free, and total is made plus failed. |
| `Make1Runs.ReachedDone` | windows/boost-build/engine/make1.c:217-250 | And everything reachable from a visited target is done. |
| `Make1Runs.BeginSound` | windows/boost-build/engine/make1.c:212-215 | A call of make1 after earlier ones starts from a state in which all invariants hold. |
| `Make1Runs.RunSound` | windows/boost-build/engine/make1.c:217-235 | All invariants hold throughout any run. |
| `Make1Runs.NoDeadlock` | windows/boost-build/engine/make1.c:208-251 | Deadlock freedom: over any graph, cycles included, and however commands finish, when a run comes to an empty stack with nothing running, everything the root reaches is done and was released exactly once. |
| `Make1Runs.LaunchedWell` | windows/boost-build/engine/make1.c:385-534 | Anywhere on any run over an acyclic graph, whoever has a command running has all dependencies done, each with success or NOCARE. |
| `Make1Runs.FreshLaunch` | windows/boost-build/engine/make1.c:385-534 | What this rests on holds before anything is built. |
| `Make1Failures.BuiltMeans` | windows/boost-build/engine/make1.c:454-466 | The targets built in a run are those that were in the state RUNNING at some point of it. |
| `Make1Failures.NextBooked` | windows/boost-build/engine/make1.c:541-555 | Whatever happens next: total counts the targets built, made those of them that ended well and failed those that did not. |
| `Make1Failures.FailedMeans` | windows/boost-build/engine/make1.c:541-555 | When a run has come to rest, total, made and failed are the numbers of targets built, of those that succeeded and of those that failed; total differs from made exactly when one failed. |
| `Make1Failures.BuiltWhen` | windows/boost-build/engine/make1.c:385-466 | On an acyclic graph a target dealt with in a run was built if and only if it has actions, its fate asks for them, and no dependency other than NOCARE ones failed. |
| `Make1Failures.LostIsNotCounted` | windows/boost-build/engine/make1.c:432-435 | A root that cannot be found ends as a failure, yet total and made are both 0: the result is that of a success. |
| `Make1Commands.NextLinked` | windows/boost-build/engine/make1.c:798-865 | Whatever happens next: a 1D entry agrees with whether the command that has ended counts as a failure, and the status of a target built is a failure exactly if one of its commands failed or, once done, one of its actions had. |
| `Make1Commands.FailedInMeans` | windows/boost-build/engine/make1.c:768-817 | The targets with a failed command are those for which, somewhere in the run, a command ends with a status that counts as a failure: FAIL, or OK where failure is expected, unless it is ignored; with noexec a command that is passed over counts as ending with OK. |
| `Make1Commands.BuiltFails` | windows/boost-build/engine/make1.c:798-865 | At rest, a target that was built has failed if and only if one of its commands ended so, or one of its actions, which it may share, had failed when it was done. |
| `Make1Ran.CommandsRun` | windows/boost-build/engine/make1.c:505-534 | At rest, the commands that have ended for a target that was built are those prepared for it, in order: all of them, unless one failed; for any other target none has. |
| `Make1Ran.FailureIsLast` | windows/boost-build/engine/make1.c:509 | No command of a target ends after one of them has failed. |
| `Make1Failures.FreshClean` | windows/boost-build/engine/make1.c:385-466 | So does what `BuiltWhen` and `FailsWhen` ask of the state before a call; `FailsWhen` says that every call leaves it so. |
| `Make1Verdict.ReleasedFails` | windows/boost-build/engine/make1.c:387-435 | A target that 1B releases has failed from then on exactly when it cannot be made or a dependency that it cares about has failed. |
| `Make1Verdict.FinishedFails` | windows/boost-build/engine/make1.c:541-547 | A target that 1C finishes ends as a failure exactly when it had failed or one of its actions had; its actions then know of it. |
| `Make1Verdict.NextJudged` | windows/boost-build/engine/make1.c:385-547 | Whatever happens next: every failure since the call began has a cause in it, every doomed target that is done has failed, and whoever has a command going has not failed yet. |
| `Make1Verdict.DealtWith` | windows/boost-build/engine/make1.c:264-325 | A call deals with exactly those targets that the root reaches and no earlier call has dealt with. |
| `Make1Verdict.FailsWhen` | windows/boost-build/engine/make1.c:208-251 | Over any graph: one of those targets ends as a failure if and only if a command has ended in the call so that it counts as a failure, or one of them was doomed before it, by its fate, a failed dependency that it cares about, or a failed action. |
| `Make1Verdict.ResultMeans` | windows/boost-build/engine/make1.c:208-251 | The result is a failure if a command has failed, and, unless something was doomed before the call, only then. |
| `Make1Verdict.SkippedMeans` | windows/boost-build/engine/make1.c:405-417 | skipped is the number of targets with actions that were released in the call while a dependency they care about had failed. |
| `Make1Verdict.SharedFails` | windows/boost-build/engine/make1.c:541-547 | However a call goes for a target whose only action, shared with another, failed in an earlier call: it ends as a failure with nothing run. |
| `Make1Measure.NextLess` | windows/boost-build/engine/make1.c:217-235 | Every step, and every command that finishes, leaves less to be done in a well-founded order: no run is infinite. |
| `Make1Engine.Engine.constructor` | windows/boost-build/engine/make1.c:117-119 | Nothing built yet, nothing on the stack, and no failure known. |
| `Make1Engine.Engine.PushStackOnStack` | windows/boost-build/engine/make1.c:190-199 | The source stack comes out on top in reverse. |
| `Make1Engine.Engine.Make1a` | windows/boost-build/engine/make1.c:264-325 | Changes targets and stack exactly as the 1A transition says. |
| `Make1Engine.Engine.Make1aTail` | windows/boost-build/engine/make1.c:332-340 | Exactly the 1ATAIL transition. |
| `Make1Engine.Engine.Make1b` | windows/boost-build/engine/make1.c:351-493 | Exactly the 1B transition, semaphore or not. |
| `Make1Engine.Engine.Make1c` | windows/boost-build/engine/make1.c:505-652 | Exactly the 1C transition: the next command is launched, or the target closed up; while exec_cmd runs, other commands may finish, each leaving one 1D entry, and nothing else happens. |
| `Make1Engine.Engine.CloseUp` | windows/boost-build/engine/make1.c:536-651 | Exactly the transition of a target that is done. |
| `Make1Engine.Engine.SettleActions` | windows/boost-build/engine/make1.c:541-547 | The worst status of the actions is collected and then distributed to all of them. |
| `Make1Engine.Engine.FreeSemaphore` | windows/boost-build/engine/make1.c:616-642 | The semaphore is freed and the first that waits gets a 1B entry. |
| `Make1Engine.Engine.MakeClosure` | windows/boost-build/engine/make1.c:768-786 | A finished command becomes a 1D entry on top of whatever the stack holds. |
| `Make1Engine.OneFinishes` | windows/boost-build/engine/make1.c:768-786 | Commands that finish one after another leave one 1D entry each and change nothing else. |
| `Make1Engine.Engine.ExecWait` | windows/boost-build/engine/make1.c:234-235 | Without running commands, false and nothing changes; else true, and at least one command has finished. |
| `Make1Engine.Engine.Make1d` | windows/boost-build/engine/make1.c:798-865 | Exactly the 1D transition: FAIL_EXPECTED inverts, IGNORE forgives, the command leaves the chain. |
| `Make1Engine.Engine.Dispatch` | windows/boost-build/engine/make1.c:219-232 | One turn of the loop runs the entry on top, and nothing else but that commands may finish; it is a step of a run and leaves less to be done. |
| `Make1Engine.Engine.Make1` | windows/boost-build/engine/make1.c:208-251 | Returns, however commands finish; then everything the root depends on is done, nothing is left on the stack or running, and the result is nonzero exactly when some target that commands were run for in this call ended with a failure: always when a command has failed, and, where nothing was doomed before, only then and exactly when anything dealt with has failed. |
| `MakeRebuilds.PathJoin` | windows/boost-build/engine/make.c:194-204 | Chains of dependants go on through targets that make0 is done with. |
| `MakeRebuilds.Fates.UpdateDependants` | windows/boost-build/engine/make.c:179-208 | Terminates on any graph; raises to UPDATE exactly the targets that a chain of dependants leads to, whose inner members have a finished fate below BUILD and whose last member has at least begun; changes nothing else. |
| `MakeRebuilds.DependantsBuilt` | windows/boost-build/engine/make.c:178-208 | Afterwards no dependant that has been begun is left below BUILD, neither of the target nor of any finished one that was raised; only targets begun and below BUILD have been raised. |
| `MakeRebuilds.RebuildsBuilt` | windows/boost-build/engine/make.c:215-237 | After force_rebuilds every rebuild has a fate of BUILD or above. |
| `MakeRebuilds.Fates.ForceRebuilds` | windows/boost-build/engine/make.c:215-237 | Raises exactly the rebuilds that were below BUILD and what those that go on lead to: to REBUILD the rebuilds that none before them leads to, to UPDATE the rest; lowers no fate. |
| `MakeRebuilds.ForcedSettles` | windows/boost-build/engine/make.c:215-237 | That description leaves no fate open: only one outcome fits it. |
| `MakeRebuilds.AllRaised` | windows/boost-build/engine/make.c:215-237 | All that the rebuilds lead to is raised if and only if whatever a rebuild still being made, and led to by an earlier one, leads to is covered by the other rebuilds. |
| `MakeRebuilds.CutShort` | windows/boost-build/engine/make.c:194-235 | An input on which it is not: the second rebuild, still being made, is raised as a dependant of the first and then passed over, and its own dependant, finished already as on a dependency cycle, stays as it is. |
| `MakeSort.SortedOrdered` | windows/boost-build/engine/make.c:761-792 | The sorted chain is newest first and a permutation of the chain. |
| `MakeSort.SortedReverses` | windows/boost-build/engine/make.c:775-777 | Entries of the same time come out in the opposite order. |
| `MakeSort.Spliced` | windows/boost-build/engine/make.c:779-787 | After one insertion, at the head, in the middle or at the end, every next and every tail is right. |
| `MakeSort.Relink` | windows/boost-build/engine/make.c:779-787 | The six assignments, as they stand, put c in front of s. |
| `MakeSort.Make0Sort` | windows/boost-build/engine/make.c:761-792 | Relinks the chain in place into its sorted order, null-terminated, every tail the true predecessor and the head's tail the last entry. |
| `Make0.BrokenMeans` | windows/boost-build/engine/make.c:486-576 | Among judged targets over an acyclic graph, BROKEN or worse is the fate of exactly those that reach a missing source that nothing makes and somebody cares about. |
| `Make0.SpoiledMeans` | windows/boost-build/engine/make.c:486-576 | SPOIL or worse is the fate of exactly those that reach, or are, something missing, touched, or older than a file that it depends on directly or through NOTFILE targets. |
| `Make0.FateMeans` | windows/boost-build/engine/make.c:461-576 | Which fate each target gets, in terms of files, flags and chains of dependencies: CANTMAKE, CANTFIND, UPDATE, MISSING, OUTDATED, TOUCHED, or none of these. |
| `Make0.BuildMeans` | windows/boost-build/engine/make.c:461-576 | BUILD or worse is the fate of exactly those that reach, or are, something due; BROKEN or worse of those that reach something lost; none has the fate SPOIL. |
| `Make.BuiltIfDue` | windows/boost-build/engine/make1.c:419-462 | The fates for which make1 runs actions are exactly those of the targets that reach something due and nothing lost. |
| `Make0.OldMeans` | windows/boost-build/engine/make.c:498-504 | "A dependency's propagated time is newer" means: older than some file seen directly or through NOTFILE targets, as long as no dependency needs updating. |
| `Make0.TimeFrom` | windows/boost-build/engine/make.c:581 | A target that needs no updating takes its time from a file that it is or sees. |
| `Make0.Maker.Bind` | windows/boost-build/engine/make.c:289-303 | The time and binding of the file, for what is a file. |
| `Make0.Maker.PickUp` | windows/boost-build/engine/make.c:399-459 | The greatest time and fate among the dependencies, none of them for NOUPDATE. |
| `Make0.Maker.Judge` | windows/boost-build/engine/make.c:486-576 | The fate that time, binding and flags decide, missing files and NOCARE included. |
| `Make0.Maker.Conclude` | windows/boost-build/engine/make.c:578-596 | Time and fate are propagated, a fate raised meanwhile is kept, and rebuilds are forced for BUILD up to below BROKEN. |
| `Make0.Maker.Make0` | windows/boost-build/engine/make.c:246-596 | On any graph: terminates, gives every target it visits a fate, lowers none, leaves the time and binding of targets visited before. With no REBUILDS it visits all dependencies; if also acyclic, every target visited is judged by what it depends on. |
| `Make0.Maker.Survey` | windows/boost-build/engine/make.c:368-596 | One run from a fresh root on an acyclic graph without REBUILDS: everything the root depends on is visited and gets the fate that files, flags and chains of dependencies call for; BROKEN or worse goes exactly to what reaches an unfindable source, BUILD or worse exactly to what reaches something due. |
| `Hash.FreedOk` | windows/boost-build/engine/hash.c:189-200 | Unlinking an item, from the front of its bucket or from behind another, keeps the table right: one key fewer, one free slot more. |
| `Hash.EnteredOk` | windows/boost-build/engine/hash.c:249-268 | A record put into a free slot and in front of its bucket keeps the table right. |
| `Hash.LinkOne` | windows/boost-build/engine/hash.c:312-321 | Rebuilding, item by item, puts each into the bucket of its key. |
| `Hash.RehashedOk` | windows/boost-build/engine/hash.c:288-323 | Once all items are in, the table is as good as before and every key has its item where it was. |
| `Hash.NotThere` | windows/boost-build/engine/hash.c:154-168 | A key whose bucket has no item for it is not in the table. |
| `Hash.Full` | windows/boost-build/engine/hash.c:225-226 | With `more` at 0 there are no free slots, so the assertion in hashrehash never fires. |
| `Hash.ReachedIff` | windows/boost-build/engine/hash.c:325-342 | Leaving out as many of the slots handed out as have been freed, from the last one on, leaves out no entry if and only if the freed slots are those last ones. |
| `Hash.HashTable.constructor` | windows/boost-build/engine/hash.c:352-372 | An empty map. |
| `Hash.HashTable.Search` | windows/boost-build/engine/hash.c:145-169 | Finds the item of a key exactly when the map has the key, and the one before it in its bucket. |
| `Hash.HashTable.Free` | windows/boost-build/engine/hash.c:177-203 | Removes exactly that key from the map; no other record moves or changes; the slot heads the free list. |
| `Hash.HashTable.HashItem` | windows/boost-build/engine/hash.c:209-282 | Checks for, or enters, a key: the map gains exactly that entry, in the slot freed last or else the next unused one, and no other record moves or changes. |
| `Hash.HashTable.Rehash` | windows/boost-build/engine/hash.c:288-323 | Two more blocks' worth of slots; nothing lost, duplicated or moved. |
| `Hash.HashTable.Relink` | windows/boost-build/engine/hash.c:307-322 | All old items are put into new buckets, block by block, keys and records unchanged. |
| `Hash.HashTable.Enumerate` | windows/boost-build/engine/hash.c:325-342 | Every entry is visited, each once and in order, if and only if every freed slot is among the last that were handed out, as many as there are freed ones; in particular when none is free. The count for the last block starts below zero, and runs off it, exactly when `more` exceeds that block. |
| `Hash.MissesOne` | windows/boost-build/engine/hash.c:325-342 | An input on which an entry is missed: of two entered, with the first freed, the second is not visited. |
| `Hash.RunsOff` | windows/boost-build/engine/hash.c:331-335 | An input on which the count starts below zero: twelve entered, two of the first block freed. |
| `Hash.FreesFit` | windows/boost-build/engine/hash.c:331-333 | There are never more free slots than have been handed out. |
| `Glob.NoneEndingStep` | windows/boost-build/engine/glob.c:78-93 | "Too long for what is left of the pattern" carries over past an item that takes one character. |
| `Glob.CutOff` | windows/boost-build/engine/glob.c:81-93 | Giving up on a star at the first -1 loses no match: longer rests cannot match, shorter ones have been tried. |
| `Glob.BitsOr` | windows/boost-build/engine/glob.c:132-140 | Setting one bit of the list sets that character and no other. |
| `Glob.GlobChars` | windows/boost-build/engine/glob.c:114-152 | The bit list holds exactly the characters the group lists, complemented after `^`, never NUL. |
| `Glob.Group` | windows/boost-build/engine/glob.c:55-70 | Where a group ends, and whether it has the next character. |
| `Glob.TryBack` | windows/boost-build/engine/glob.c:72-94 | Positions after a star from the end backwards: a match, a reason to give up, or no match at any position but the first. |
| `Glob.Glob` | windows/boost-build/engine/glob.c:39-107 | Returns 0 if and only if the pattern matches the whole string; a negative result means that nothing ending with the string matches. |
| `GlobSpelling.PatternStands` | windows/boost-build/engine/glob.c:11-19 | A pattern matches a string if and only if its parts stand for it: `?` for one character, `*` for any stretch, a group for one of its members, a quoted or plain character for itself. |
| `GlobSpelling.SpelledParts` | windows/boost-build/engine/glob.c:39-107 | A text that cannot be spelled so, with a group not closed or a backslash at its end, matches nothing. |
| `GlobSpelling.ListsItems` | windows/boost-build/engine/glob.c:127-140 | The characters listed in a group are its single ones and those between the ends of its ranges. |
| `Glob.WithBracket` | windows/boost-build/engine/glob.c:55-65 | What the closing bracket does to a group when it is read with it: one more character, or the end of a range left open. |
| `Glob.GroupAsDocumented` | windows/boost-build/engine/glob.c:12-15 | A group, negated or not, has exactly the characters that are documented if and only if its closing bracket is harmless: listed already, or, after an open range, with the whole range from there to the bracket listed. |
| `Glob.GroupHasItsBracket` | windows/boost-build/engine/glob.c:55-70 | `[a-z]` matches `]` too. |
| `Glob.NegatedLosesItsBracket` | windows/boost-build/engine/glob.c:55-70 | `[^a-z]` does not match `]`. |
| `Glob.OpenRangeIsEmpty` | windows/boost-build/engine/glob.c:130-135 | `[a-]` matches no string at all, where it is documented to match a and `-`. |
| `Glob.OpenRangeIsWider` | windows/boost-build/engine/glob.c:130-135 | `[X-]` matches Z. |
| `Md5.PaddingFits` | windows/boost-build/engine/md5.c:375-376 | The padding brings the length to 56 modulo 64 bytes and nothing shorter does (section 3.1 of RFC 1321). |
| `Md5.PaddedIsWhole` | windows/boost-build/engine/md5.c:372-378 | The padded message is a whole number of blocks. |
| `Md5.PaddedMeans` | windows/boost-build/engine/md5.c:360-381 | What is digested is the message, the byte 80, zeros, and in the last eight bytes, low-order first, the length in bits modulo 2^64 (sections 3.1 and 3.2 of RFC 1321). |
| `Md5.InitBytes` | windows/boost-build/engine/md5.c:312-320 | The registers begin with the bytes that section 3.3 of RFC 1321 gives. |
| `Md5.DigestedAppend` | windows/boost-build/engine/md5.c:351-353 | Digesting two pieces one after the other is digesting them joined. |
| `Md5.CountMore` | windows/boost-build/engine/md5.c:333-337 | The two count words, with their carry, hold the length in bits modulo 2^64. |
| `Md5.State.constructor` | windows/boost-build/engine/md5.c:312-320 | The initial registers of RFC 1321 and an empty message. |
| `Md5.State.Append` | windows/boost-build/engine/md5.c:322-358 | However a message is cut into pieces, the state stands for all of it: full blocks digested, the rest in buf, the bit count right. |
| `Md5.State.CountUp` | windows/boost-build/engine/md5.c:333-337 | The new count stands for the longer message. |
| `Md5.State.Fill` | windows/boost-build/engine/md5.c:339-349 | A block begun is filled up, and digested once it is full. |
| `Md5.State.Blocks` | windows/boost-build/engine/md5.c:351-357 | Full blocks are digested; what is left over is kept in buf. |
| `Md5.State.SaveLength` | windows/boost-build/engine/md5.c:372-374 | The length in bits modulo 2^64, low-order byte first. |
| `Md5.State.Finish` | windows/boost-build/engine/md5.c:360-381 | The digest of the message padded and with its length appended as sections 3.1 and 3.2 of RFC 1321 say. |
| `Md5.SameMessage` | windows/boost-build/engine/md5.c:322-358 | Two states that stand for the same message are equal in everything that counts. |
| `NormalizePath.BackwardStep` | windows/boost-build/engine/builtins.c:1505-1535 | One element of the backward pass, whatever it is, keeps this: what is still to be looked at, with so many names taken back, and what has been kept make up the forward reduction. |
| `NormalizePath.BackwardEnd` | windows/boost-build/engine/builtins.c:1505-1535 | At the start of the string the count of `..` and what has been kept are the forward stack reduction of the path. |
| `NormalizePath.MarkBackward` | windows/boost-build/engine/builtins.c:1505-1535 | The marking pass over the buffer leaves unmarked exactly the elements kept, and counts the `..` left over. |
| `NormalizePath.Gather` | windows/boost-build/engine/builtins.c:1477-1490 | The nonempty arguments with a slash before each, and whether the first of them is rooted. |
| `NormalizePath.DropMarks` | windows/boost-build/engine/builtins.c:1553-1556 | Drops the marked characters and no others. |
| `NormalizePath.NormalizePath` | windows/boost-build/engine/builtins.c:1451-1570 | The result is never empty, starts with a slash exactly if the first argument that is not empty starts with either kind of slash, is `.` exactly if the path is not rooted and its elements come to nothing, and else consists of exactly the steps up and names that the arguments' elements reduce to; there is none exactly when a rooted path has, somewhere along it, more steps up than names. |
| `NormalizePath.NormalSays` | windows/boost-build/engine/builtins.c:1451-1570 | The specification says all of that. |
| `NormalizePath.AboveMeans` | windows/boost-build/engine/builtins.c:1505-1543 | Steps up are left over exactly if, somewhere along the elements, there have been more of them than names. |
| `NormalizePath.ElementsMean` | windows/boost-build/engine/builtins.c:1475-1495 | The elements are those of the arguments that are not empty, one after the other, split at slashes and backslashes. |
| `NormalizePath.SplitFlat` | windows/boost-build/engine/builtins.c:1505-1508 | Elements joined by slashes split into the same elements. |
| `NormalizePath.Idempotent` | windows/boost-build/engine/builtins.c:1451-1570 | Normalising a result again returns it unchanged. |
| `HeaderCache.ScanDec` | windows/boost-build/engine/hcache.c:130-133 | A length of at most nine digits that was written is the length read. |
| `HeaderCache.NetBack` | windows/boost-build/engine/hcache.c:124-170 | read_netstring undoes write_netstring for strings of at most 65536 bytes, also after a stray newline. |
| `HeaderCache.NetRefused` | windows/boost-build/engine/hcache.c:130-149 | What write_netstring wrote is refused exactly if it is longer than that, or is empty and the first ever read. |
| `HeaderCache.NetsBack` | windows/boost-build/engine/hcache.c:239-250 | A counted list of strings comes back in order. |
| `HeaderCache.RecordBack` | windows/boost-build/engine/hcache.c:225-271 | A record comes back whole, one older. |
| `HeaderCache.NetCut` | windows/boost-build/engine/hcache.c:130-154 | A netstring that ends too soon is refused. |
| `HeaderCache.RecordCut` | windows/boost-build/engine/hcache.c:208-271 | A record that ends too soon is dropped, unless only its last newline is missing; what came before stays. |
| `HeaderCache.CutFile` | windows/boost-build/engine/hcache.c:197-291 | Reading a written file cut off anywhere: atoi is called on NULL if and only if the cut is in the count of the hdrscan list of a written record; otherwise the file is invalid, unless all of it is there. Exactly the entries whose records are whole, but for a last newline, are kept. |
| `HeaderCache.EndsUndefined` | windows/boost-build/engine/hcache.c:252-260 | A file with one record that ends before the count of its hdrscan list has atoi called on NULL. |
| `HeaderCache.RoundTrip` | windows/boost-build/engine/hcache.c:173-355 | Loading what hcache_done wrote gives the entries not older than maxage, last first, includes and hdrscan intact, each with its age one greater, or 1 when maxage is 0. |
| `HeaderCache.BackHas` | windows/boost-build/engine/hcache.c:314-320 | What comes back are the entries not older than maxage, each one older; with a maxage of 0 all entries, with age 1. |
| `HeaderCache.WrittenFile` | windows/boost-build/engine/hcache.c:294-355 | The bytes of a file with one record. |
| `HeaderCache.OtherVersion` | windows/boost-build/engine/hcache.c:190-195 | Nothing is taken from a file whose first netstring is not this version, or that begins with none. |
| `HeaderCache.OtherRecord` | windows/boost-build/engine/hcache.c:207-221 | A record type other than the header and the end mark ends the reading; exactly the entries before it are kept. |
| `HeaderCache.SameName` | windows/boost-build/engine/hcache.c:273-278 | So does a record whose name has been read already. |
| `HeaderCache.Cache.ReadNetstring` | windows/boost-build/engine/hcache.c:124-158 | Reads one netstring, or nothing, as the format says, with its reused buffer. |
| `HeaderCache.Cache.ReadList` | windows/boost-build/engine/hcache.c:239-250 | The counted loop of netstrings. |
| `HeaderCache.Cache.ReadOne` | windows/boost-build/engine/hcache.c:223-271 | One record; a missing hdrscan count is not noticed, because the test looks at the other count. |
| `HeaderCache.Cache.HcacheInit` | windows/boost-build/engine/hcache.c:173-291 | The list it builds and how it ends are what the file means; it stops at the first bad or repeated record and keeps those before it. |
| `HeaderCache.Cache.WriteNetstring` | windows/boost-build/engine/hcache.c:165-170 | Appends one netstring. |
| `HeaderCache.Cache.WriteOne` | windows/boost-build/engine/hcache.c:330-345 | Appends one record, its lists counted. |
| `HeaderCache.Cache.HcacheDone` | windows/boost-build/engine/hcache.c:294-355 | Writes exactly the file of the list, leaving out entries older than maxage; with a maxage of 0 resets the ages in the list itself. |

## Left out

Whole parts:

- Running processes, files, clocks and directories (`exec*.c`, `file*.c`, `timestamp.c`): a
  command is something that may finish at any moment with success or failure; the time found
  for a file is an input.
- The language: parser, rules, variables, modules, lists, the Jambase, the Python bindings.
- Printing, debugging, profiling, timing and action rules; running out of memory.
- Overflow of C integers, except where wrap-around is part of the algorithm (the MD5 counts,
  the unsigned numbers of the header cache). Addresses are unbounded; next offsets are proved
  to fit their 16 bits.
- Characters above 127 where `char` may be signed: glob is stated for 7-bit characters,
  isalnum for the C locale.

In regexp.c:

- NULL arguments and the check of the program's magic number in regexec; regdump and regprop.
  The default branches of regmatch and regrepeat and the end of regmatch's loop without END
  are proved to be unreachable on compiled programs, so they have no counterpart.

In make1.c:

- Interrupts and quitquick: the loop pops an entry and then still runs it
  (`make1.c:221-231`). EXEC_CMD_INTR does not occur.
- Rescanning for headers after a build (`make1.c:303-310, 565-611`): it adds dependencies to
  targets already past 1ATAIL.
- make1cmds and what it groups together: a released target may get any chain of commands.
  Removing targets (RMOLD, and after a failure) has no effect on the state modelled.
- Make1Engine.Engine.Make1a: does not add the includes of rescanned dependencies
  (`make1.c:303-310`), for the same reason.
- Make1Engine.Engine.Make1c: does not rescan a target that has been built (`make1.c:565-611`).
- Make1Engine.Engine.CloseUp: leaves out the same rescan.
- A semaphore is a target of its own here, which is not itself built. The free list of stack
  entries is not modelled; entries are values.

In make.c:

- Make0.Maker.Survey: is about one fresh root on an acyclic graph without REBUILDS, because times
  already propagated and visits skipped would make the fates of later roots depend on the order
  of visits; with REBUILDS or cycles only what Make0.Maker.Make0 says in general is proved.
- Make0.Maker.Bind: does not model that search() may find another target, which becomes an
  include (`make.c:295-300`).
- Make0.Maker.PickUp: does not model LEAVES, nor the time of included headers (`make.c:405-414, 435`).
- Make0.Maker.Judge: has no NEEDTMP and no ISTMP, which take TEMPORARY targets (`make.c:505-515, 524-527`).
- Make0.Maker.Make0: leaves out includes, LEAVES, TEMPORARY targets and the sorting of step 5.
- LEAVES, TEMPORARY targets and those taken from their parents, INTERNAL nodes, includes and
  headers() (steps 2c, 3b, 3c, 4b), another target found by search(), and ISTMP and NEEDTMP, which
  only these give rise to.
- The call of make0sort for newestfirst, and the counting of step 6: make0sort is proved by itself.
- make() around make0 and make1, and dependency graph output.

In hash.c:

- The hash function is arbitrary; the limit MAX_LISTS on the number of blocks, alignment and
  the garbage collector's finalizer are not modelled. Items are slots of one pool, numbered
  through all blocks, instead of memory addresses.
- Hash.HashTable.Free: needs a table that has had an entry, since hash_search divides by the number of
  buckets.
- Hash.HashTable.Enumerate: when the count starts below zero, what is read beyond the block is not
  modelled; the method tells that it happens. The callback is the sequence of visited slots.

In md5.c:

- The 64 steps of md5_process: the compression function is a parameter. Any is allowed.
- Md5.State.Append: takes at most 2^31 - 1 bytes at a time, the range of its int argument; a
  negative count, which the code ignores, is not an input. The overflow of `nbytes << 3` in int
  arithmetic from 2^28 bytes on, and of `offset + nbytes` near the limit, is not modelled: the
  product is taken modulo 2^32, as it comes out where int arithmetic wraps.

In builtins.c:

- Every builtin except NORMALIZE_PATH; inputs with the byte 1, which the code uses as its marker.

In hcache.c:

- hcache(), which looks entries up and adds new ones; the name and opening of the file; the
  value of HCACHEMAXAGE, which is an input. fscanf, atoi and fprintf follow the C standard; the
  hash table is represented by its set of keys, `Hash` being its own model.
- HeaderCache.RoundTrip: is about names that differ, strings of at most 65536 bytes, and times,
  ages and counts below 2^31, which is what the format can hold; `HeaderCache.NetRefused` shows
  that longer strings are not read back. `HeaderCache.CutFile` is about the same files, cut off.
