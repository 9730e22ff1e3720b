# director, modelled in Dafny

director runs a script of shell commands arranged in nested sequential
groups (`[ ... ]`) and parallel groups (`{ ... }`). Each step can carry options
(`-title=...`) and environment entries (`env NAME=value`), and a
parenthesised prefix `( options step )` applies options to a single step.
This project models the two halves of the core:

- **Script translation** (`parser.dfy`, module `Parser`). The transformer
  callbacks build a `Node` tree from the grammar's parse tree: `opt`, `env`,
  `options`, `command`, `step`, `sequential` and `parallel`. `convert` then
  turns that tree into step objects, and a scanner models the `CMD` token
  rule. The parse tree that Lark produces is the `StepTree` datatype, after
  the grammar's `?` rules are applied. `Transform` is the transformer's
  bottom-up walk over it, and its `Grammar` argument says whether `?steps`
  inlines a one-step body.
- **The step engine** (`groups.dfy`, module `Groups`). It holds the
  command, sequential-group and parallel-group steps and their state: the
  status, exit code, kill flag, process, resolved environment, running
  step, shut-down flag and queue. The three Python classes are one Dafny
  class `Step` with a `kind` tag. A step tree's shape is fixed at
  construction; its run-time fields are updated in place by the following
  methods:
  - `run` for each kind;
  - `kill` and `shutdown`;
  - `taskEnded`;
  - `update_run_env`.

  `dump_state` reads them and changes nothing.

  Its contracts state the outcome of a run as a function of every
  command's return code:
  - which children ran and which stayed pending;
  - each step's status and exit code;
  - the stop-on-failure of a sequential group;
  - the cancel-on-failure of a parallel group: its first failing child
    empties the queue and stops every active sibling whose status is still
    unset.

  They also state what `kill` leaves (and that a second `kill` changes
  nothing), the environment every step resolves, and the status snapshot
  before and after a run.
- **Helpers**:
  - `environment.dfy`: `combine_env` and `parse_env`;
  - `timing.dfy`: `pretty_time` on whole seconds;
  - `strings.dfy`: Python's `strip`, `in` and `replace`;
  - `wrappers.dfy`: `Option` and `Result`.

Outside effects appear as parameters:
- **A command's return code:** `exitOf: Step -> int`, or `rc` for one command.
- **A kill that arrives while the process runs:** `killedMeanwhile`.
- **The process environment seen by `parse_env`:** `environ`.
- **`id(self) % 256` in a group's default title:** an arbitrary number below 256.

Behaviour of the source worth knowing:
- A parallel group sets its status to "failed" on every non-"ok" child,
  already shut down or not (groups.py:249-250).
- A parallel group's snapshot has type "sequential" (groups.py:227).
- A parallel group's failure never stops a nested parallel group that is
  running. That group set its status to "ok" on entry (groups.py:276), and
  `shutdown` only kills children whose status is still unset (groups.py:269).
- Declared environments are never expanded against the process
  environment at load time, because `parse_env` has no caller; the only
  resolution is `combine_env` at run time.
- A group of one step loses that step (see Findings).

## Model

| member | source | states |
|---|---|---|
| Strings.StripIsTrim | director/parser.py:145-149 | `strip()` removes exactly the whitespace runs at both ends; the result neither starts nor ends with whitespace |
| Strings.StripIdempotent | director/parser.py:126-128 | stripping a stripped command or name changes nothing |
| Parser.OptOf | director/parser.py:152-158 | `opt` yields an `opt` node with the single key stripped name; its value is a quoted token's text without its first and last characters (empty below two), else the stripped token |
| Parser.EnvOf | director/parser.py:143-150 | `env` yields an `env` node with the single key stripped name; its value is a quoted token's text without its first and last characters (empty below two), else the stripped token |
| Parser.QuotedValue | director/parser.py:146-147 | a quoted value is exactly the text between its quotes, with no unescaping |
| Parser.WordValue | director/parser.py:148-149 | a bare value is its token with the surrounding whitespace removed |
| Parser.Options | director/parser.py:164-172 | the loop builds the options map from the `opt` nodes and the environment map from the `env` nodes, each laid over the earlier ones |
| Parser.CollectLastWins | director/parser.py:164-172 | a name is declared iff some node of the matching kind declares it, and its value is the one the last such node gives; `opt` and `env` names never mix |
| Parser.CommandOf | director/parser.py:120-129 | the command is the CMD token's text, stripped, with no options; a leading `options` node supplies options and environment and the token follows it; a missing or non-token argument is the `IndexError`/`AttributeError` raised |
| Parser.StepOf | director/parser.py:131-141 | the inner step comes back with its options and environment laid over the outer ones (keys are the union, the inner value wins, an unset inner map counts as empty); all else unchanged |
| Parser.Group | director/parser.py:96-118 | the loop sets the group's children from a `steps` argument and its options and environment from an `options` argument; defaults are no options, no environment and no children |
| Parser.StepsArgIsLast | director/parser.py:104-105 | children come only from the last `steps` argument; with none, the group has no children whatever step nodes the arguments hold |
| Parser.OptionsArgIsLast | director/parser.py:101-103 | options and environment come from the last `options` argument; with none, both are unset |
| Parser.Transform | director/parser.py:7-20 | the transformer's walk over a parse tree always yields a step node |
| Parser.TransformKeepsCommands | director/parser.py:14-20 | with `steps` not inlined, the node tree has exactly as many command nodes as the script has commands |
| Parser.SingleStepGroupIsEmpty | director/parser.py:20 | as written, a group whose body is one step has no children, whatever its options |
| Parser.SingleCommandLost | director/parser.py:20 | the script `[`, `echo hi`, `]` on three lines has one command but yields a tree with none as written, and one when `steps` is not inlined |
| Parser.TransformConverts | director/parser.py:177-192 | every tree the walk yields is accepted by `convert` |
| Parser.Convert | director/parser.py:177-192 | succeeds iff every node is a command, sequential or parallel node; otherwise fails with "convert: unknown node type: " and the type of the first such node in visiting order; on success, returns a fresh, well-formed, not yet run step tree with the node tree's kinds, commands, options and environment (unset as `{}`); a command's title is the configured one, else its command line, and a group's the configured one, else its kind's default, and each child of a node at `level` at `level + 1`, in order |
| Parser.ConvertGroup | director/parser.py:185-190 | a group node becomes a group step of its kind around its converted children, or the first child's error |
| Parser.ConvertChildren | director/parser.py:186-189 | the children convert in order to pairwise disjoint fresh step trees, stopping at the first failure |
| Parser.MirrorsCommands | director/parser.py:183-190 | a converted tree has one command step per command node |
| Parser.ScanCommand | director/parser.py:33 | the CMD token is empty unless the text starts with a letter, digit, `.` or `/`; otherwise it is the longest prefix free of `\r`, `\n` and `#` after its first character |
| Environment.CombineEnv | director/groups.py:60-67 | the copy-and-overwrite loop yields `Combined` in whatever order the declared names are visited |
| Environment.CombinedInherits | director/groups.py:60-67 | the resolved keys are the parent's plus the declared ones; an undeclared name keeps the parent's value |
| Environment.CombinedLiteral | director/groups.py:62-66 | a declared value with no `$name` of its own name is taken literally |
| Environment.PathExample | director/groups.py:60-67 | `PATH=$PATH:/extra` over `PATH=/usr/bin` resolves to `/usr/bin:/extra` and leaves other names alone |
| Environment.ParseEnv | director/groups.py:49-58 | no `env` entry gives none; otherwise each value is expanded until `$name` is gone, or the run is reported as diverging when the loop cannot end within the fuel |
| Environment.ExpandRemovesToken | director/groups.py:55-56 | when the inner loop ends, the value no longer contains `$name` |
| Environment.ExpandDiverges | director/groups.py:55-56 | if the substituted value itself contains `$name`, no number of passes ends the loop |
| Environment.ExpandTerminates | director/groups.py:54-56 | an environment value shorter than `$name` (an unset one included) ends the loop within `len(value)` passes |
| Environment.ExpandMoreFuel | director/groups.py:55-56 | once the loop ends within some number of passes, more passes give the same value |
| Environment.ParseEnvLoopsForever | director/groups.py:55-56 | `A=$A` declared, with `A=$A` in the process environment, never returns |
| Environment.ParsedEnvOnceAgrees | director/groups.py:49-58 | a single substitution per name agrees with `combine_env` on every declared name, and with the loop whenever one pass removes the token |
| Timing.ShapeForms | director/groups.py:94-105 | hours and minutes iff above 3600 s, bare seconds (the remainder modulo 60) iff at most 60 s, minutes and seconds between; the text never overstates the time and, away from 60 s and 3600 s, is exact to its precision |
| Timing.PrettyTimeExamples | director/groups.py:94-105 | 59 s prints "59.00s", 61 s "1m 1s", 3661 s "1h 1m" |
| Timing.ShapeAtBoundaries | director/groups.py:100-105 | exactly 60 s prints "0.00s" and exactly 3600 s prints "0m 0s", each below the elapsed time by a whole unit |
| Timing.ShapeCorrectedReadsBack | director/groups.py:93-105 | with `>=` cut-overs the text reads back as the elapsed time to its precision, with minutes and seconds below 60 |
| Timing.ShapeAgreesElsewhere | director/groups.py:93-105 | away from exactly 60 s and 3600 s the code prints the corrected text |
| Groups.ObjectId | director/groups.py:210 | the number in a default group title is below 256 |
| Groups.Step.Command | director/groups.py:119-125 | a command starts with no status, exit code 0, not killed, no process and no resolved environment; its title is the configured one, else the command line |
| Groups.Step.Group | director/groups.py:293-299 | a group starts with all children pending; its title is the configured one, else its kind's prefix with a four-digit hex number below 256 |
| Groups.Step.MarkKilled | director/groups.py:34-37 | status killed, exit code unset, kill flag set |
| Groups.Step.Kill | director/groups.py:191-204 | every kind ends disarmed. A command is killed and its process signalled once, only if one exists. A sequential group kills its running step (an already disarmed one stays exactly as it was, any other ends `Stopped`), becomes killed and clears it. A parallel group is shut down and killed, and each active child whose status is unset, not yet killed and with something to stop ends `Stopped` (for a command, its process signalled). A second `kill` changes nothing, every other child is untouched, and no step's resolved environment changes |
| Groups.Step.KillCommand | director/groups.py:191-204 | the process is signalled only if the command was not yet killed and has one; the command ends killed with no exit code; a second call changes nothing |
| Groups.Step.KillSequential | director/groups.py:342-347 | with a running step: that step is left exactly as it was if already disarmed and otherwise ends `Stopped` (status killed; a command flagged and its process signalled; a sequential group with no running step; a parallel group shut down and empty), the group becomes killed, the running step is cleared, the other children are untouched; without one nothing changes |
| Groups.Step.KillParallel | director/groups.py:257-259 | the queue is shut down and the status set to killed; each active child whose status is unset, not yet killed and with something to stop ends `Stopped` (a command's process signalled), and every other child is untouched; exit code unchanged |
| Groups.Step.Shutdown | director/groups.py:261-273 | nothing waits, `ShotDown` is set, and every active child is settled. Each active child whose status is unset, not yet killed and with something to stop ends `Stopped`: marked killed; a command flagged killed with its process, if any, signalled; a sequential group with no running step; a parallel group shut down and empty. Status and exit code unchanged; every other child (status already set, already killed, or a sequential group with nothing running) is untouched |
| Groups.Step.StopActive | director/groups.py:267-271 | every active child ends settled, and each one whose status was unset, not yet killed and with something to stop ends `Stopped` (a command's process signalled); the others are untouched |
| Groups.Step.StopChild | director/groups.py:268-271 | a child whose status is unset, not yet killed and with something to stop ends `Stopped`: status killed, and by kind its kill flag set with its process, if any, signalled, its running step cleared, or its queue shut down and empty; any other is left as it is |
| Groups.Step.RunningParallelOutOfReach | director/groups.py:269-276 | a parallel group that is running has status "ok", so it is not killable and `shutdown` leaves it and its children as they were |
| Groups.Step.UpdateRunEnv | director/groups.py:229-232 | every step of the tree holds `combine_env` of its own declarations over its parent's resolved environment, the root over `outer`; lines 135-136 and 313-316 are the same for commands and sequential groups; nothing else changes, and a pending tree stays pending |
| Groups.Step.ResolvedInherits | director/groups.py:313-316 | a variable no step declares reaches every step with its value from outside |
| Groups.Step.Spawn | director/groups.py:144-152 | a process is started with the command line and the resolved environment unless the command is already killed |
| Groups.Step.Reap | director/groups.py:162-169 | status ok on return code 0, failed otherwise; killed with no exit code if a kill came in |
| Groups.Step.RunCommand | director/groups.py:143-169 | an already killed command keeps its state; a normal run ends ok or failed with the return code; a kill while it runs ends it killed with no exit code and the process signalled |
| Groups.Step.Run | director/groups.py:24-29 | a pending tree runs to the state `Ran` describes, its status is the result returned, and no step's resolved environment changes |
| Groups.Step.RunSequential | director/groups.py:318-340 | the children run in order up to and including the first non-"ok" one, the rest stay pending; the status is killed after a failure, else ok; the exit code is the last defined one among the children that ran |
| Groups.Step.SequentialLoop | director/groups.py:322-331 | after all passes, the children up to the first failure have run and the rest are pending; the running step is the last one started |
| Groups.Step.SequentialPass | director/groups.py:323-331 | the child at `i` runs only while the status is unset; its exit code is adopted if defined, and a non-"ok" result sets the status to killed |
| Groups.Step.RunChild | director/groups.py:327-329 | running one child leaves it run and every other child as it was |
| Groups.Step.RunParallel | director/groups.py:275-291 | the status starts ok; the children run up to the first non-"ok" one; that one fails the group and shuts the queue down, leaving the rest pending; the exit code is the failing child's unless it was killed or has none; no step's resolved environment changes |
| Groups.Step.ParallelPass | director/groups.py:280-282 | one queued child goes through the worker and `taskEnded` |
| Groups.Step.RunHead | director/groups.py:281-282 | the worker takes the first waiting child, runs it, and it leaves the active set |
| Groups.Step.TaskEnded | director/groups.py:245-255 | an "ok" child changes nothing. Any other sets the status to failed, adopts the child's exit code unless the child was killed or has none, and, unless already shut down, shuts down: the queue is emptied and every active sibling whose status is unset, not yet killed and with something to stop ends `Stopped` (a command's process signalled), while every other child is untouched |
| Groups.Step.DumpState | director/groups.py:301-311 | the snapshot loop builds `Dump()`, including the overrides of lines 215-227 |
| Groups.Step.ListedDump | director/groups.py:305-309 | a child's listed snapshot is its own `dump_state` with the status replaced by "running" if it is the group's running step (an active task for a parallel group, lines 221-222), else by "pending" if its status is unset, else kept |
| Groups.Step.DumpPending | director/groups.py:127-133 | before a run a command shows "pending", a group shows no status, and every child is listed as "pending" with its title |
| Groups.Step.DumpAfterRun | director/groups.py:301-311 | after a run a step shows its outcome. Each child started is listed with its outcome, each later one as "pending". A sequential group still lists its last started child as "running", since `RunningStep` is never cleared |
| Groups.Step.RanInv | director/groups.py:318-340 | a completed run keeps every structural invariant of the tree |

## Left out

- The Lark engine (director/parser.py:6-53, 91-94): tokenising, Earley parsing and the `?step`, `?value` and `?option` inlining are represented by the `StepTree` datatype rather than computed; the `?steps` inlining is computed by `Transform`. Syntax errors are therefore not modelled; `ScanCommand` models only the `CMD` token rule.
- `Node.format`, `Node.pretty` and `__str__` (director/parser.py:72-87): debugging output.
- `Parser.concurrency` (director/parser.py:160-162): no grammar rule reaches it.
- Parser.CommandOf: the options-first branch (director/parser.py:123-126) is modelled, but the grammar's `command: CMD` never produces it.
- Parser.StepOf: Python's `assert` on its arguments is a precondition. The grammar always meets it, and the inner node is required to be a step node.
- pythreader's locks, `TaskQueue` internals and the `multiplicity` cap (director/groups.py:211): a parallel group runs its children one at a time, in list order.
- Groups.Step.Shutdown: `Stopped` is stated for the active children themselves; what a stop does further down their trees is stated one level at a time, by each child's own `Kill` contract (its running step or active children `Stopped`), and not as one property of every descendant.
- Groups.Step.RunParallel: with that single worker, the bounded-concurrency property and interleavings of several active children are not covered. `TaskEnded`, `Shutdown` and `Kill` are specified as separate atomic operations over any set of active children.
- Groups.Step.Run: wall-clock timing (`StartT`, `EndT`, `Elapsed`, director/groups.py:25-28) and all logging are left out.
- Popen, `communicate`, `os.killpg`, signals and UTF-8 decoding of the output (director/groups.py:149-161, 196-203): a process is a record of its command line, environment and whether it was signalled, and its return code comes from `exitOf`.
- Groups.Step.RunCommand: the lock released during `communicate` is represented by the `killedMeanwhile` flag, a kill between start and reap, rather than by real concurrency.
- `ParallelGroup.taskFailed` (director/groups.py:234-243): it depends on exceptions in pythreader workers, and its `Failed` attribute is never read.
- `self.StatusCoce = None` (director/groups.py:289-290): a misspelt attribute that no code reads.
- Environment.ParseEnv: the inner `while` loop is bounded by `fuel` passes, and `Diverges` stands for a loop that never ends. `parse_env` has no caller.
- Timing (`Shape`, `PrettyTime` and every lemma about them): `pretty_time` is modelled on whole seconds only. The fractional `%.2f` branch for non-integral times is left out (floating point).
- Groups.Step.Group: `id(self) % 256` is an arbitrary number below 256, so only the title's form is stated.
- `Step.exception`, `format_status`, `indent`, `log` and `is_killed`, and `StepTask` (director/groups.py:39-47, 69-91, 107-115): bookkeeping, output, or a one-line wrapper. `StepTask.run` is `RunChild`.
- director/director.py, director/script.py and setup.py are not part of this model.

## Findings

| source | as written | input that shows it | evidently intended | confidence | as-written member | corrected member |
|---|---|---|---|---|---|---|
| director/parser.py:20 | `?steps` inlines a one-step body, and `sequential`/`parallel` then find no `steps` argument, so the group has no children | the script `[`, `echo hi`, `]` on three lines (a `CMD` runs to the end of its line) | the group contains its single step, and there is one command step per command | high, not executed | Parser.SingleCommandLost | Parser.TransformKeepsCommands |
| director/groups.py:100-102 | the cut-overs use `>`, so exactly one minute prints as seconds and exactly one hour as minutes | 60 s prints "0.00s"; 3600 s prints "0m 0s" | "1m 0s" and "1h 0m" (`>=`) | medium, not executed | Timing.ShapeAtBoundaries | Timing.ShapeCorrectedReadsBack |
| director/groups.py:55-56 | the expansion `while` loop re-substitutes until `$name` is gone, and never ends when the environment's value contains `$name` | `env A=$A` with `A=$A` in the process environment | a single substitution per name, as `combine_env` does | high, not executed | Environment.ParseEnvLoopsForever | Environment.ParsedEnvOnceAgrees |
