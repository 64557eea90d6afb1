# Fleet tools: a verified model

The repository is a toolbox for running a fleet of agents. Its hard parts are small algorithms inside large scripts:
a JavaScript lexer, a launch protocol over a shared log, a patch that can be switched off again, a stream reader, a wake
gate with two watermarks, a three-way union, a card board, a diff scanner, a landing check, index arithmetic and two
alert machines. Each module here models one of them with the code's own branches and constants and proves what the
code's comments promise. Loops and updated objects are methods with invariants, each proved equal to a function of its
inputs or of the old state; the lemmas are about those functions, over every input or every run.

| file | models |
|---|---|
| JsScanner, JsTokens, JsCodeOnly | `js_scan`, `blank_spans`, `js_code_only` (scripts/hook-load-watch.py) |
| DependencyMap | `dependency_map` (scripts/hook-load-watch.py) |
| HookAlerts | `tick` (scripts/hook-load-watch.py) |
| HelperLog, HelperQuota, HelperRuns, HelperSummary | the log, the lock, the quota, the launch, what a run says of one call, and the summary's counts (scripts/seged-hivo.py) |
| TopicsPatch, TopicsLines, TopicsWrites, TopicsSteps, TextLines | `apply_topics`, `remove_topics` (scripts/patch-telegram-plugin.py) |
| BatchStream | `readAll` (scripts/secret-gate.ts) |
| WakeGate | the two watermarks (scripts/memoria_heartbeat_gate.py) |
| ReadmeUnion | `decide` (store/readme-bullet-union.py) |
| CardMove, CardNote | a field move, its event rows, its ancestors, its note (scripts/kartya-es-ertesites.py) |
| DiffScan | `scanDiff` (scripts/pre-pr-review-scan.ts) |
| CardLanding | `verifyCardLanding` (src/card-landing-ancestry.ts) |
| DocContent | `set-content` (scripts/gdocs.py) |
| UsageAlerts | `compute_pace`, `_should_fire`, `compute_alerts` (scripts/usage-collect.py) |
| Options, Sequences, Strings, Lines, Decimals | shared: an option type, sequences, parts of texts, lines, decimal numerals |

Where the code and what it says about itself part, the model follows the code:

- Daily quotas (HelperQuota). The row is stamped and the quota is checked under one lock, but each reads the clock. A
  call stamped just before midnight and checked just after is counted on a day nobody checked. So a day can hold one
  call more than its limit, and never two (`DailyLimits`); it does exactly when some call was launched onto it when it
  was full (`OverExactlyWhenOverfilled`), and such a call was checked on another day (`OverfillingIsLate`).
  `OverTheLimit` is such a run.
- Switching the topics patch off (TopicsPatch). The text comes back character by character exactly if none of its lines
  already started with the prefix of a kept line (`OffUndoesOn`). Every text the seven steps go on gives one that does
  not come back, the same text behind a line that holds the prefix only (`KeptLineIsLost`), and there are such texts
  (`SomeTextIsPatched`).
- A batch stream cut short (BatchStream). A cut between records or inside a header is reported; a cut inside a blob's
  content is not: the shorter content passes for the whole (`CutContentPasses`).
- The file of a hunk (DiffScan). Without a `+++` path the name is cut out of the git header at its last ` b/`. So the
  hunks get the new path exactly if a `+++` line names it or it does not contain ` b/` (`HunkFileIsNewPath`);
  `DeletionMisnamed` is a deletion that does.
- The wake gate's summary says `--mark-seen` sets both watermarks to the current maximum. Only the tool mark is; the
  conversation mark goes no further than the id the agent names. Over every run no message is swallowed if and only if
  each named id lies below every message that is in front of the mark and of all that a wake has shown
  (`NothingSwallowed`, one mark at a time `MarkIsSafe`). The id the wake message asks for is such an id, and so is any
  id below it (`ShownIdIsSafe`); the current maximum need not be one (`UnshownIdSwallows`).
- The landing check's summary speaks of a commit subject in a range. The code looks at the merge's own message, and its
  separate ancestor test turns nothing away that the second-parent test lets through (`OkExactlyWhenLanded`).
- OVERUSE has two tests. The second adds to the first exactly this: the reset has not passed, or
  length < used * (length - time since the reset), with the used share as a fraction (`OveruseTests`). So it follows
  from the first while the time left lies inside the window (`OverusedExactly`), and just after the reset too, but not
  for a five-hour window at 150 percent that is still not renewed 6000 seconds later (`LateWindowDiffers`).
- The hook watcher promises one alert per changed set of findings, repeated no sooner than a cooldown. A run keeps that
  promise, and keeps it whatever comes next, if and only if no tick delivered a message and then failed to write the
  state file (`WorthSayingExactly`); until then the state is what the reader was told (`StateAgreesExactly`).

Comments and literals are those of section 12.4 and section 12.9 of ECMA-262, 14th edition, with one difference in the
scanner: a line comment, a string and a regex literal end at a line feed only, where section 12.3 names three line
terminators more. Printed diffs have the form of the POSIX diff utility, section "Diff -u or -U n Output Format".

## Model

| member | source | states |
|---|---|---|
| JsScanner.JsScan | scripts/hook-load-watch.py:337-436 | the scanner's loop with its cursor, stack and span lists computes the walk `Scan`, on any text |
| JsScanner.ScanRegex | scripts/hook-load-watch.py:337-436 | the inner loop over a regex literal ends where its class-aware closing slash and flags end |
| JsTokens.ScanInvertsPrint | scripts/hook-load-watch.py:337-436 | on the printed text of any token tree that fits (template literals nested to any depth, strings with escapes, both comment forms, regex literals, a hashbang line) the comment spans are exactly the places of the comment tokens and the literal spans those of the literals |
| JsTokens.ScanParts | scripts/hook-load-watch.py:337-436 | from inside a template literal the scanner reaches the state behind its closing backtick, having reported what its expressions hold and nothing of its text |
| JsTokens.ScanHole | scripts/hook-load-watch.py:337-436 | the code of one `${...}` is scanned up to the brace that closes it, whatever braces, strings and templates it holds |
| JsTokens.RegexEndIs | scripts/hook-load-watch.py:337-436 | a regex body ends at its first unescaped slash outside a class |
| JsTokens.StringEndIs | scripts/hook-load-watch.py:337-436 | a string ends at its own quote, not at an escaped one or another kind |
| JsTokens.OpenComment | scripts/hook-load-watch.py:337-436 | behind any printed source a comment that nothing closes is a comment span to the end of the text |
| JsTokens.OpenString | scripts/hook-load-watch.py:337-436 | a string that nothing closes is a literal span to the end of the text |
| JsTokens.OpenTemplate | scripts/hook-load-watch.py:434-435 | a template literal that nothing closes is a literal span to the end of the text |
| JsCodeOnly.BlankSpans | scripts/hook-load-watch.py:275-282 | in place: a character inside a span that is no line break becomes a space, every line break and every character outside all spans stays |
| JsCodeOnly.SpansOrdered | scripts/hook-load-watch.py:337-436 | on any text at all the comment spans are non-empty, in bounds, ordered and disjoint |
| JsCodeOnly.JsCodeOnly | scripts/hook-load-watch.py:333-334 | the code-only text: spaces inside the scanner's comment spans, every line break and every other character as in the source |
| JsCodeOnly.CodeOnlyOfPrint | scripts/hook-load-watch.py:333-436 | blanking a printed source prints the same tokens with the comments blanked and nothing else changed |
| JsCodeOnly.CommentsReadBlank | scripts/hook-load-watch.py:333-436 | by place: in a printed source the comment tokens, wherever they stand, read as spaces but for their line breaks, and every other character is the one printed |
| HelperLog.CallsOf | scripts/seged-hivo.py:1198-1205 | filling the dictionary row by row keeps the last row of each call and no ratings |
| HelperLog.IdleRow | scripts/seged-hivo.py:1198-1205 | a rating, a blocked row and the final row of a call change none of the counts |
| HelperLog.LaunchRow | scripts/seged-hivo.py:1160-1172 | a started row counts once, for its caller and its engine, on the day it is stamped with |
| HelperQuota.StepKeepsInv | scripts/seged-hivo.py:1389-1449 | every step of every caller, in any interleaving and with a kill at any point, keeps the invariant of the lock, the log, the days, the quotas and the numbers; the rows of HelperRuns say what each check's answer leads to |
| HelperQuota.OneHelperAtATime | scripts/seged-hivo.py:1175-1195 | in every reachable world at most one helper runs, and its caller holds the lock |
| HelperQuota.DailyLimits | scripts/seged-hivo.py:1160-1172 | in every reachable world no caller and no engine has more than its limit on a day, unless one call was checked after midnight, and then exactly one more |
| HelperQuota.CheckedDayHasRoom | scripts/seged-hivo.py:1396-1403 | at every launch that was checked on the day it is stamped with, that day still has room for its caller and its engine |
| HelperQuota.LaunchWithinLimits | scripts/seged-hivo.py:1396-1403 | a launch keeps its day inside both limits if and only if the day had room, as it had when the check read that day |
| HelperQuota.OverExactlyWhenOverfilled | scripts/seged-hivo.py:1160-1172 | over every run, for callers and for engines: a day is over its limit if and only if some call was launched onto it when it was full |
| HelperQuota.OverfillingIsLate | scripts/seged-hivo.py:1396-1403 | a call launched onto a full day was checked on another day than the one it is stamped with |
| HelperQuota.OverTheLimit | scripts/seged-hivo.py:1396-1403 | a run over midnight that puts two calls on a day with a limit of one |
| HelperQuota.LaunchesNumbered | scripts/seged-hivo.py:1424-1432 | over every run the launches count 1, 2, 3 without gap or repeat, across kills, and exactly each fifth is A/B marked |
| HelperRuns.LaunchedExactly | scripts/seged-hivo.py:1389-1432 | over every run a call has a started row if and only if its own steps began, in this order: start, no STOP flag, the lock, the stamp, the quota check, a clean gate, the number, the launch; the row names its caller and engine |
| HelperRuns.LaunchIsCleared | scripts/seged-hivo.py:1389-1422 | before each launch the call found no STOP flag, and after that its gate was clean |
| HelperRuns.RefusedForGood | scripts/seged-hivo.py:1389-1422 | a call that saw the STOP flag, gave up on the lock or was refused by the gate is never launched, before or after, has no started row, and its last row is a blocked one for good |
| HelperRuns.ClearedStaysFree | scripts/seged-hivo.py:1410-1432 | a call whose gate was clean can take its number and be launched, whatever the others do, until it is launched or killed |
| HelperRuns.WaitingExactly | scripts/seged-hivo.py:1175-1195 | a waiting call can take the lock if and only if no call is under way with it, and gives up if and only if one is |
| HelperRuns.AdmittedExactly | scripts/seged-hivo.py:1160-1172 | the quota check lets a call through if and only if the day's started rows of its caller and of its engine are below their limits; otherwise a blocked row is all it leaves |
| HelperRuns.CountedAreStarted | scripts/seged-hivo.py:1160-1172 | in every reachable log the calls counted against a limit on a day are that day's started rows themselves |
| HelperRuns.FinishedForGood | scripts/seged-hivo.py:1434-1449 | when a helper has finished, the call's last row says how, whatever comes later |
| HelperRuns.KilledStaysStarted | scripts/seged-hivo.py:1430-1432 | a call that was launched and never finished, killed at any point, keeps its started row as its last |
| HelperSummary.Summary | scripts/seged-hivo.py:1258-1288 | the passes over the ratings and the calls fill the two dictionaries |
| HelperSummary.GroupAddsUp | scripts/seged-hivo.py:1264-1286 | a helper has a group if and only if it has a call; its status counts add up to its calls, its verdict counts and the unrated to its ok calls |
| HelperSummary.GroupCounts | scripts/seged-hivo.py:1264-1286 | each of a helper's ten counters is the number of its calls of that kind: by status, A/B marked, and the ok ones by verdict or unrated |
| HelperSummary.TypeCounts | scripts/seged-hivo.py:1271-1280 | each counter under a task type and helper is the number of ok calls with that text of that kind |
| HelperSummary.LastRatingWins | scripts/seged-hivo.py:1259-1262 | a call has a verdict if and only if some row rates it, and it is that of the last such row |
| HelperSummary.SummaryAddsUp | scripts/seged-hivo.py:1264-1286 | the ok counts by task type and helper and the ok counts by helper add up to the same, the ok calls; the call counts to all calls |
| HelperSummary.HelperAddsUpOnOwnRows | scripts/seged-hivo.py:1271-1280 | on the rows the script writes each helper's task types add up to its own ok count |
| HelperSummary.ListedTypesAreSlashFree | scripts/seged-hivo.py:1065 | no task type that the command line accepts, nor the one for none, holds a slash, which is all the row above asks of the rows |
| HelperSummary.HelperAddsUp | scripts/seged-hivo.py:1271-1280 | on any rows, foreign ones included, one helper's task types add up to its ok count if and only if no other helper's ok call shares one of its keys |
| HelperSummary.SharedKey | scripts/seged-hivo.py:1272-1273 | two foreign rows, which the script itself does not write, of two helpers with one key |
| TopicsPatch.ApplyTopics | scripts/patch-telegram-plugin.py:220-239 | all steps, or the text untouched with the name of the first anchor that is not there exactly once |
| TopicsPatch.RemoveTopics | scripts/patch-telegram-plugin.py:242-251 | the line loop drops the tagged lines and unkeeps the kept ones |
| TopicsWrites.StepExactly | scripts/patch-telegram-plugin.py:220-239 | a step goes on if and only if its anchor's lines stand in the text once, at a line start, and then it writes its lines, indented as the anchor and tagged, before it, behind it, or behind its own lines kept behind the prefix |
| TopicsWrites.ApplyExactly | scripts/patch-telegram-plugin.py:220-239 | the patch writes all steps in turn on a text without the tag, or names the first step whose anchor does not stand there once |
| TopicsSteps.SwitchExactly | scripts/patch-telegram-plugin.py:157-239 | the same for the seven steps of the table |
| TopicsPatch.StepLeavesNoTrace | scripts/patch-telegram-plugin.py:220-251 | whichever mode a step has, removal gives the same from the text after it as from the text before it |
| TopicsPatch.OffUndoesOn | scripts/patch-telegram-plugin.py:142-146 | off gives back the text it was put on if and only if no line of it started with the kept prefix; on again then gives the patched text |
| TopicsPatch.TopicsRoundTrip | scripts/patch-telegram-plugin.py:142-146 | on an unmarked text: on, off is the original, on again is the patched text, on a patched text changes nothing |
| TopicsSteps.StepsAreGood | scripts/patch-telegram-plugin.py:157-189 | each of the seven steps of the table, with its own anchor and mode and any inserted lines without a line break, leaves no trace |
| TopicsSteps.TopicsSwitch | scripts/patch-telegram-plugin.py:142-146 | with the seven steps, on any unmarked text: on, off is the original, on again the patched text, on a patched text nothing |
| TopicsLines.KeptLineIsLost | scripts/patch-telegram-plugin.py:242-251 | every text that good steps go on gives one that does not come back: the same text behind a line that holds the kept prefix only |
| TopicsSteps.KeptLineIsLost | scripts/patch-telegram-plugin.py:157-251 | the same for the seven steps of the table |
| TopicsSteps.SomeTextIsPatched | scripts/patch-telegram-plugin.py:157-239 | an unmarked text that the seven steps go on, and the text made of it that does not come back |
| TopicsLines.StepsGoOn | scripts/patch-telegram-plugin.py:220-239 | the steps go on a text that holds the lines of each anchor once, in the order of the steps |
| TopicsPatch.OffTwice | scripts/patch-telegram-plugin.py:242-251 | taking it off twice is taking it off once if and only if no line of what came back starts with the kept prefix |
| BatchStream.ReadStream | scripts/secret-gate.ts:176-203 | the cursor loop reads one record for each line sent, whatever comes back |
| BatchStream.ReadAllInvertsBatch | scripts/secret-gate.ts:165-217 | every entry gets the content of its own object, byte for byte and line feeds included, or the reason it has none; order and paths kept, shared objects served to every entry |
| BatchStream.ReadCutStream | scripts/secret-gate.ts:180-203 | on a stream cut after any number of bytes every object is still reported, as what of its record has come |
| BatchStream.CutContentPasses | scripts/secret-gate.ts:197-202 | a blob is taken for a different content if and only if the cut falls inside its content |
| BatchStream.OtherKind | scripts/secret-gate.ts:189-195 | an answer of any other kind than a blob is reported by its header, and the reader goes on behind the header |
| DependencyMap.Walk | scripts/hook-load-watch.py:519-540 | one gate's worklist terminates: exactly the files and missing names the gate leads to gain the gate and the owners, nothing else changes |
| DependencyMap.DependencyMap | scripts/hook-load-watch.py:515-540 | the map is the exact closure over the commands: an entry exists if and only if some script of some command that ends in .py, .mjs, .cjs or .js leads to it, and lists exactly those scripts and the union of the owners of their commands |
| DependencyMap.ClosedHolds | scripts/hook-load-watch.py:523-531 | a set that holds the start and everything its members load holds all that is reached |
| HookAlerts.Watcher.RunTick | scripts/hook-load-watch.py:963-986 | one tick on the state file: what is sent, what is stored, and exit code 1 if and only if an owed message was not delivered |
| HookAlerts.StateAgreesExactly | scripts/hook-load-watch.py:963-986 | over every run the state is what a reader of the delivered messages knows after every tick if and only if no tick delivered a message it owed and lost the write |
| HookAlerts.StateIsWhatWasSaid | scripts/hook-load-watch.py:963-986 | while no write is lost, whatever fails to be delivered: no message repeats the one before inside the cooldown; each recovery closes an open stretch of alerts and names its first time |
| HookAlerts.ExitZeroIsUpToDate | scripts/hook-load-watch.py:963-986 | after any run without a lost write, a tick exits with 0 if and only if it leaves the reader told of exactly these findings less than a cooldown ago, or of nothing open; with 1 it has changed nothing |
| HookAlerts.WorthSayingExactly | scripts/hook-load-watch.py:963-986 | over every run: no message repeats the one before inside the cooldown and recoveries and alerts pair up, whatever delivered and written tick follows any part of the run, if and only if no tick of it loses its write |
| HookAlerts.LostWriteRepeats | scripts/hook-load-watch.py:952-986 | after any lost write the next tick with the same findings that gets through says it again; inside the cooldown that breaks the promise |
| HookAlerts.LostWriteExample | scripts/hook-load-watch.py:952-986 | such a run of two ticks |
| WakeGate.Gate.MarkSeen | scripts/memoria_heartbeat_gate.py:297-335 | the new marks; nothing is written without an id or when the database cannot be read |
| WakeGate.Gate.Check | scripts/memoria_heartbeat_gate.py:338-356 | a wake goes out if and only if the database can be read, the message gets through, and a mark is negative or some row in front of its log's mark is an inbound message of picard or one of its tool calls that nowhere spells the mark-seen command; it shows the marks and how many such rows there are |
| WakeGate.SilentExactly | scripts/memoria_heartbeat_gate.py:228-260 | the comparison of maxima is silent if and only if both counts it would show are zero and no mark is negative |
| WakeGate.SilentWithoutNews | scripts/memoria_heartbeat_gate.py:154-168 | the same on the rows' own fields and on what the marker file holds, in either format |
| WakeGate.OwnMarkSeenExactly | scripts/memoria_heartbeat_gate.py:154-156 | a tool call is left out if and only if some part of its summary is the mark-seen command, in either case and with any character for an underscore |
| WakeGate.StaysInFront | scripts/memoria_heartbeat_gate.py:321-333 | a message in front of the mark stays in front if and only if its id is above the one the agent names |
| WakeGate.WatermarksOnlyAdvance | scripts/memoria_heartbeat_gate.py:297-335 | over every run neither watermark goes back or passes the end of its log |
| WakeGate.MarkGoesBack | scripts/memoria_heartbeat_gate.py:321-333 | from any marker file the conversation mark does not go back, and the tool mark does if and only if it was past the end of its log |
| WakeGate.MarkIsSafe | scripts/memoria_heartbeat_gate.py:321-333 | every message one mark passes has been shown if and only if each message in front of the mark and of all that was shown is above the id named |
| WakeGate.NothingSwallowed | scripts/memoria_heartbeat_gate.py:297-335 | over every run each message behind the mark was inside the window of a delivered wake if and only if every mark written named a safe id |
| WakeGate.NothingSwallowedOnTheWay | scripts/memoria_heartbeat_gate.py:297-335 | the same at every moment of the run |
| WakeGate.ShownIdIsSafe | scripts/memoria_heartbeat_gate.py:174-197 | any id up to the end of a window that a wake showed is safe |
| WakeGate.HonestIsCareful | scripts/memoria_heartbeat_gate.py:174-197 | an agent that always names the id a wake showed it names safe ids only |
| WakeGate.UnshownIdSwallows | scripts/memoria_heartbeat_gate.py:297-335 | a run that names an unsafe id, the current maximum, and the message it loses |
| WakeGate.DeadTurn | scripts/memoria_heartbeat_gate.py:338-356 | without a mark-seen the marks do not move and a check that would have woken the agent still would |
| WakeGate.NoSelfFeeding | scripts/memoria_heartbeat_gate.py:154-168 | after a mark a check is silent if and only if the run has logged only outbound messages, rows of other agents and mark-seen calls and the mark took in every message; then no check on the way has woken the agent |
| WakeGate.OwnCallNotCounted | scripts/memoria_heartbeat_gate.py:154-156 | the logged mark-seen call is not counted, whatever stands around it on the command line |
| ReadmeUnion.DecideFile | store/readme-bullet-union.py:79-126 | the allowlist, the two lengths, the surround check and the bullet loops compute the decision |
| ReadmeUnion.CommonSuffixLen | store/readme-bullet-union.py:66-76 | the loop finds the longest common tail that does not reach into the common head |
| ReadmeUnion.DecideExactly | store/readme-bullet-union.py:79-126 | resolves to u if and only if both sides are one text with one block of bullets inserted at the same point, that text is the base line by line but for blank lines and rules, and u is it with both blocks there |
| ReadmeUnion.RefusedExactly | store/readme-bullet-union.py:79-117 | each refusal names what is wrong: one side is the other with a block put in or with none; the text around is not the base; a line of a block is no bullet |
| ReadmeUnion.FileExactly | store/readme-bullet-union.py:79-87 | a text is written if and only if the file is README.md and the lines resolve, and it is their join |
| ReadmeUnion.DecideSymmetric | store/readme-bullet-union.py:79-126 | the sides may be swapped: same success, same lines; the union holds every line of both sides as often as they do, the shared text once |
| ReadmeUnion.UnionReadsBack | store/readme-bullet-union.py:79-126 | the written file splits back into the decided lines |
| CardMove.Board.StampAncestors | scripts/kartya-es-ertesites.py:272-298 | the walk stamps the visited ancestors with the move's time, changes no other card, and lists those that exist |
| CardMove.Board.AddRows | scripts/kartya-es-ertesites.py:223-245 | a new status appends its one row; a new assignee and behind it a new priority append one row each, with the card, the field, the old and the new value, the actor and the time; nothing else does |
| CardMove.Board.MoveFields | scripts/kartya-es-ertesites.py:890-905 | one move takes the board to the next state: fields, dispatch stamp, ancestors and rows together, or nothing |
| CardMove.StampsTheAncestors | scripts/kartya-es-ertesites.py:272-298 | the stamped ids are the first distinct proper ancestors, at most sixteen, and below sixteen all of them, cycles or not |
| CardMove.MoveTouches | scripts/kartya-es-ertesites.py:890-905 | exactly the card and the stamped ancestors get the move's time; another card keeps everything else |
| CardMove.MoveExactly | scripts/kartya-es-ertesites.py:223-265 | one move, field by field: nothing at all when it asks for nothing new; otherwise the values asked for, the stamp null unless the card is then in_progress, the move's time, and exactly the rows above |
| CardMove.RowsReplay | scripts/kartya-es-ertesites.py:223-245 | over every run the rows of a card's status, of its assignee and of its priority chain from old to new value and end at the value the card has |
| CardMove.DispatchIsCleared | scripts/kartya-es-ertesites.py:262-265 | after any run a card outside in_progress has no dispatch stamp if and only if the run changed it or it had none at the start |
| CardNote.FooterParsesBack | scripts/kartya-es-ertesites.py:1054-1096 | behind any text, forged footers included, the last match gives the mover, the fields and the time that were written |
| CardNote.WarningNamesTheMover | scripts/kartya-es-ertesites.py:1058-1104 | the report on the note names its mover, and warns if and only if the note is younger than half an hour and the next author's name differs |
| CardNote.MoverIsTidy | scripts/kartya-es-ertesites.py:967-973 | the sanitised name has no bar and no white space but single inner spaces |
| CardNote.MoverTwice | scripts/kartya-es-ertesites.py:967-973 | a sanitised name is sanitised to itself |
| CardNote.MoverIsAuthor | scripts/kartya-es-ertesites.py:967-973 | a name without bars and superfluous white space is written as it is; an empty one as (ismeretlen) |
| CardNote.MoverKeepsWords | scripts/kartya-es-ertesites.py:967-973 | any other name keeps its words, its bars made slashes |
| CardNote.NoteWithoutFooter | scripts/kartya-es-ertesites.py:1075-1093 | a note without a footer names nobody; the report only says whether it is younger than half an hour |
| DiffScan.ScanDiff | scripts/pre-pr-review-scan.ts:104-147 | the loop with its file and four counters computes the walk |
| DiffScan.EveryLineIsScanned | scripts/pre-pr-review-scan.ts:139-146 | on any text, well formed or not, the content rules run on every line, once and in order |
| DiffScan.ScanInvertsPrint | scripts/pre-pr-review-scan.ts:104-147 | on every printed diff each line gets its number on its own side and the file of its hunk, and path rules run on the paths of real headers and on nothing else; the rows below say when these are the file's own |
| DiffScan.HunkFileIsNewPath | scripts/pre-pr-review-scan.ts:124-136 | the hunks get the new path if and only if a `+++` line names it or it does not contain ` b/` |
| DiffScan.DeletionMisnamed | scripts/pre-pr-review-scan.ts:124-136 | a printed deletion of `a b/x` whose hunk is given the file `x` |
| DiffScan.GitPathsExactly | scripts/pre-pr-review-scan.ts:124-128 | the path rules of the git header run on the file's two paths if and only if its cut gives the new path |
| DiffScan.HeadPathExactly | scripts/pre-pr-review-scan.ts:131-135 | a line has a header path if and only if it is one of the six prefixes followed by that path |
| DiffScan.ExtraLine | scripts/pre-pr-review-scan.ts:131-137 | between the git header and the hunks such a line gets the path rules on its path, and any other line only the content rules |
| DiffScan.ScanBody | scripts/pre-pr-review-scan.ts:107-115 | the counters end a hunk exactly at its last line; no line of it, not even a removed `-- a/x`, is taken for a header |
| DiffScan.HunkHeaderParses | scripts/pre-pr-review-scan.ts:119-123 | a printed hunk header parses back to its four numbers, with a left-out count read as one |
| DiffScan.GitFileIsPath | scripts/pre-pr-review-scan.ts:124-128 | the name cut from the git header is the new path if and only if that path does not contain ` b/` |
| DiffScan.PlusNames | scripts/pre-pr-review-scan.ts:131-136 | outside a hunk a `+++` line names the file behind `b/`, with or without quotes, or as it stands; only /dev/null names none |
| DiffScan.BeforeAnyHeader | scripts/pre-pr-review-scan.ts:104-137 | before any header the lines belong to `(diff header)` |
| CardLanding.MergeMessageNamesCard | src/card-landing-ancestry.ts:160-177 | the search loop answers true if and only if some occurrence of the id has no hex digit on either side |
| CardLanding.OkMeansLanded | src/card-landing-ancestry.ts:192-241 | whatever git calls fail, ok means: the merge has a second parent and it is the work, both are reachable from the branch tip, and the merge's message names the card |
| CardLanding.OkExactlyWhenLanded | src/card-landing-ancestry.ts:192-241 | ok if and only if every git call answers and the claim gives such a landing, in one of the two repositories, by the full names of its commits; the separate ancestor check is implied |
| CardLanding.RefusedExactly | src/card-landing-ancestry.ts:192-241 | a refusal names the first of the ten checks that fails |
| CardLanding.OkStaysOk | src/card-landing-ancestry.ts:117-143 | ok stays ok while the graph only grows and the tip only moves to descendants |
| DocContent.ReadParagraphs | scripts/gdocs.py:119-131 | the loop keeps and classifies the lines that are not blank |
| DocContent.LineReads | scripts/gdocs.py:119-131 | a line is left out if and only if it is blank; any other one becomes the paragraph it stands for: `## ` a second heading, `# ` a first one, `- ` behind any white space a bullet, else itself |
| DocContent.StyleRanges | scripts/gdocs.py:142-152 | the running index gives every heading and every bullet the range of its own paragraph |
| DocContent.HeadingsExactly | scripts/gdocs.py:142-152 | exactly the first and second headings are styled, in order, each over its own text and with its own style |
| DocContent.MergeBullets | scripts/gdocs.py:153-158 | lengthening the last span in place computes the spans of the runs |
| DocContent.RangeCutsParagraph | scripts/gdocs.py:132-152 | each range cuts exactly its own paragraph out of the inserted text |
| DocContent.SpansAreTheRuns | scripts/gdocs.py:153-158 | the spans are exactly the maximal runs of consecutive bullets, with another paragraph between any two |
| DocContent.KeptParagraphs | scripts/gdocs.py:119-131 | every kept paragraph has a text, on one line, so no range is empty |
| UsageAlerts.AlertState.ShouldFire | scripts/usage-collect.py:809-832 | one evaluation of one key: fires or not, and the key's new entry, no other key touched |
| UsageAlerts.AlertState.ComputeAlerts | scripts/usage-collect.py:835-915 | one poll over all windows: the new entries and the alerts |
| UsageAlerts.KindsAgree | scripts/usage-collect.py:809-832 | the two refiring kinds behave alike over every run |
| UsageAlerts.KindsAgreeExactly | scripts/usage-collect.py:809-832 | on one entry they agree at all times if and only if it is active exactly when it has a last-fired time |
| UsageAlerts.ActiveExactlyWhenFired | scripts/usage-collect.py:809-832 | after every run a key is active if and only if it has a last-fired time, which is its last alert |
| UsageAlerts.AlertBudget | scripts/usage-collect.py:809-832 | over a run of length T with n unbroken stretches a key fires at most n + T / refire times; one stretch, at most 1 + T / refire |
| UsageAlerts.StretchIsCovered | scripts/usage-collect.py:809-832 | in a stretch that starts a run the alerts are at least the refire time apart and the last one is never older than that |
| UsageAlerts.GateRestartsAfterFalse | scripts/usage-collect.py:809-832 | a false evaluation parts a run: what follows fires as if it started afresh |
| UsageAlerts.StretchAnywhere | scripts/usage-collect.py:809-832 | an unbroken true stretch anywhere in a run: the first alert at once, gaps of at least the refire time, the last never older, and at most 1 + T / refire of them over its length T |
| UsageAlerts.AlertsAreGated | scripts/usage-collect.py:861-915 | over any polls each key's alerts are those of the gate on its own observations, refiring after 12 hours for UNDERUSE and after 45 minutes for the others; windows and alarms do not disturb one another |
| UsageAlerts.ElapsedIsAShare | scripts/usage-collect.py:228-277 | the elapsed share lies between 0 and 1 |
| UsageAlerts.ExhaustsBeforeReset | scripts/usage-collect.py:260-269 | exhaustion is projected before the reset if and only if the elapsed time is below the used share of elapsed and remaining time; inside the window, if and only if the pace is above 1 |
| UsageAlerts.OveruseTests | scripts/usage-collect.py:889-895 | for every window at every time OVERUSE is exactly: a pace of at least 1.5 after the early part, some time elapsed, and the reset not passed or length < used * (length - time since the reset) |
| UsageAlerts.AlarmsExactly | scripts/usage-collect.py:861-915 | the three alarms in numbers, for every window of a second or more at every time: 92 percent used; after 15 percent of the time at least one and a half times the elapsed share used, and the reset not passed or length < used * (length - time since the reset); after 15 percent of a window of a day or more at most half the elapsed share used |
| UsageAlerts.OverusedExactly | scripts/usage-collect.py:889-895 | inside the window OVERUSE is exactly a pace of at least 1.5 after the early part; the second test follows |
| UsageAlerts.LateWindowDiffers | scripts/usage-collect.py:889-895 | a five-hour window at 150 percent for which it does not follow 6000 seconds past the reset, and does a second past it |

## Left out

- JsTokens.ScanInvertsPrint: whether a slash is a division or opens a regex literal is the scanner's own rule, which a
  source must fit; that the rule agrees with the language is not claimed. Which characters are letters, digits and white
  space is a parameter.
- HelperQuota.DailyLimits: allows the one late call described above, because the code does. The limits are constant,
  the day never goes back and call ids are fresh; the STOP flag and the gate are the environment's choice; how the log
  line reaches the disk in one piece, the pauses between calls and the parsing of the limits are not modelled.
- TopicsSteps.TopicsSwitch: the inserted lines are any lines without a line break, not the script's own. Whole-file
  reading and writing, with its newline translation, is not modelled, nor are the four patches that cannot be switched
  off.
- BatchStream.ReadAllInvertsBatch: answers are blobs or `missing`; the reader steps over the header of another object
  and not over its body. A size field that is not made of digits is read as no number; the wording of a reason is not
  modelled.
- DependencyMap.DependencyMap: what one file loads (`local_deps`, its patterns and the installed modules) is a
  parameter; the reason shown for a missing name and the sorted order of the walk are not modelled.
- DiffScan.ScanInvertsPrint: path and content rules are events with their text and place; their pattern lists, the
  clean-up of a path before its rules, the NUL test and the removal of repeated findings are not modelled. Quoted paths
  and paths that end in white space are outside the printed diffs; what a quoted `+++` line names is `PlusNames`.
- WakeGate.Gate.Check: the counts in the message are those at the check; rows that arrive between the two reads are not
  modelled. A marker object whose values are no integers is not modelled.
- CardMove.Board.MoveFields: the card, its chain and its rows; comments, messages, the gates in front of a move, other
  writers of the same card and a crash between the move and its note are not modelled.
- CardNote.FooterParsesBack: the note's free text is arbitrary, so its wording is not modelled.
- CardLanding.Verify: ancestry is reachability in the commit graph after the fetch; each git call may fail, and a
  failure counts against the claim. Lower-casing and trimming of the message happen before the model.
- DocContent.ReadParagraphs: lengths are counted in characters of the text as given, not in UTF-16 code units.
- UsageAlerts.ComputePace: exact real arithmetic, without rounding; reading and restamping cached usage numbers and the
  alert texts are not modelled.
- HookAlerts.Watcher.RunTick: a fingerprint is the bag of finding lines; measuring the hooks, the message texts and the
  stamp file are not modelled.
- HelperSummary.Summary: works on the calls since the day asked for and on well-formed rows with the three verdicts
  that `--ertekel` accepts; durations, tokens, scores, their averages and the printed table are not modelled.
- `call_args`, `py_top_level_code`, `denies`, and the small parsers beside `readAll` (`parseLsTree`, `parseLsFiles`,
  `reconcile`, `splitZ`, `headOfRange`) are not modelled.
- The helper sandbox and its network proxy, the secret patterns, delivery over the network, and the installers.
