/**
 * The step engine of director/groups.py: a tree of steps, each a command
 * or a sequential or parallel group, whose run and kill operations update
 * status fields in place.
 *
 * The three Python classes share one Dafny class `Step` with a `kind` tag.
 * The shape of the tree (kind, configuration, children) never changes after
 * construction and is held in `const` fields; the run-time state is held
 * in `var` fields.
 *
 * A spawned process is abstracted to the return code it ends with: `exitOf`
 * gives that code for every command. A parallel group's worker pool runs its
 * children one at a time, in list order, and its delegate callbacks
 * (`TaskEnded`, `Shutdown`) are atomic updates.
 */
module Groups {
  import opened Wrappers
  import opened Strings
  import opened Environment

  /** The three values `Step.Status` takes once it is set. */
  datatype Status = Ok | Failed | Killed

  function StatusText(s: Status): string {
    match s
    case Ok => "ok"
    case Failed => "failed"
    case Killed => "killed"
  }

  datatype Kind = CommandKind | SequentialKind | ParallelKind

  /**
   * A spawned process: the command line, the environment it was started
   * with, and whether `kill` has signalled its process group.
   */
  datatype Process = Process(command: string, env: Option<Env>, signalled: bool)

  /** The dictionary `dump_state` returns; `steps` is absent for a command. */
  datatype Snapshot = Snapshot(stepType: string, status: Option<string>, title: string, steps: Option<seq<Snapshot>>)

  /** `config.get("title")` as used under `or`: an empty title counts as none. */
  function ConfiguredTitle(config: map<string, string>): Option<string> {
    if "title" in config && config["title"] != "" then Some(config["title"]) else None
  }

  /** The header of a group without a configured title, before its `%04x` suffix. */
  function GroupPrefix(kind: Kind): string {
    if kind.ParallelKind? then "parallel group #" else "sequential group #"
  }

  /** Every object owned by some step of `cs`. */
  ghost function ReprOfSeq(cs: seq<Step>): set<Step> {
    set c, o | c in cs && o in c.Repr :: o
  }

  /** One more than the largest height among `cs` (0 for no steps). */
  ghost function HeightAbove(cs: seq<Step>): (h: nat)
    ensures forall c :: c in cs ==> c.height < h
  {
    if cs == [] then 0
    else
      var rest := HeightAbove(cs[1..]);
      assert forall c :: c in cs ==> c == cs[0] || c in cs[1..];
      if cs[0].height < rest then rest else cs[0].height + 1
  }

  function Min(a: int, b: int): int {
    if a < b then a else b
  }

  /** Python's `id(self) % 256`: some number below 256. */
  method ObjectId() returns (n: nat)
    ensures n < 256
  {
    n :| n < 256;
  }

  class Step {
    const kind: Kind
    const config: map<string, string>
    /** The `env` entries this step declares (`Step.Env`). */
    const env: Env
    const level: nat
    /** The shell command line of a command step; empty for a group. */
    const command: string
    const title: string
    /** The children of a group, in order; empty for a command. */
    const steps: seq<Step>
    ghost const Repr: set<Step>
    ghost const height: nat

    var status: Option<Status>
    var exitCode: Option<int>
    var killed: bool
    var runEnv: Option<Env>
    var process: Option<Process>
    /** A sequential group's `RunningStep`. */
    var runningStep: Step?
    /** A parallel group's `ShotDown`. */
    var shotDown: bool
    /** A parallel group's queue: children not yet started, and children being run. */
    var waiting: seq<Step>
    var active: seq<Step>

    /** The tree is well formed: children own disjoint parts of `Repr`, and the parent is none of them. */
    ghost predicate Valid()
      decreases height
    {
      && this in Repr
      && (kind.CommandKind? ==> steps == [])
      && (forall c :: c in steps ==>
            c in Repr && c.Repr <= Repr && this !in c.Repr && c.height < height && c.Valid())
      && (forall i, j :: 0 <= i < j < |steps| ==> steps[i].Repr !! steps[j].Repr)
    }

    /** What each step keeps true of its own fields. */
    ghost predicate LocalInv()
      reads this
    {
      && (killed ==> kind.CommandKind? && status == Some(Killed) && exitCode == None)
      && (runningStep != null ==> runningStep in steps)
      && (forall c :: c in waiting ==> c in steps)
      && (forall c :: c in active ==> c in steps)
      && (forall i, j :: 0 <= i < j < |active| ==> active[i] != active[j])
    }

    /** The invariant of a parallel group's own fields and of the children it is running. */
    ghost predicate ActiveInv()
      requires Valid()
      reads this, ReprOfSeq(active)
    {
      LocalInv() && forall c :: c in active ==> c.Inv()
    }

    ghost predicate Inv()
      requires Valid()
      reads Repr
      decreases height
    {
      LocalInv() && forall c :: c in steps ==> c.Inv()
    }

    /** The state `__init__` leaves, throughout the tree. */
    ghost predicate Pending()
      requires Valid()
      reads Repr
      decreases height
    {
      && status == None && exitCode == Some(0) && !killed && process == None
      && runningStep == null && !shotDown && waiting == [] && active == []
      && forall c :: c in steps ==> c.Pending()
    }

    /** Python's `not step.Killed and step.Status is None`: what `shutdown` kills. */
    predicate Killable()
      reads this
    {
      !killed && status.None?
    }

    /** A step that `shutdown` would leave as it is: not killable, or killable with nothing to kill. */
    ghost predicate Settled()
      reads this
    {
      !Killable() || (kind.SequentialKind? && runningStep == null)
    }

    /** What `shutdown` leaves: nothing waiting, `ShotDown` set, every active child settled. */
    ghost predicate ShutDownState()
      reads this, active
    {
      waiting == [] && shotDown && forall c :: c in active ==> c.Settled()
    }

    /** The state `kill` leaves; `kill` changes nothing in it. */
    ghost predicate Disarmed()
      reads this, active
    {
      match kind
      case CommandKind => killed
      case SequentialKind => runningStep == null
      case ParallelKind => ShutDownState() && status == Some(Killed)
    }

    /**
     * What `kill` leaves in a step that had something to stop: marked
     * killed; a command flagged killed with its process, if any, signalled;
     * a sequential group with no running step; a parallel group with its
     * queue shut down and nothing waiting.
     */
    predicate Stopped()
      reads this
    {
      && status == Some(Killed)
      && match kind
         case CommandKind => killed && (process.Some? ==> process.value.signalled)
         case SequentialKind => runningStep == null
         case ParallelKind => shotDown && waiting == []
    }

    /**
     * A parallel group sets its status to "ok" as it starts running, so a
     * parent's `shutdown` finds it not killable: `StopChild` leaves it, and
     * every child it is running, exactly as they were.
     */
    lemma RunningParallelOutOfReach()
      requires kind.ParallelKind? && status == Some(Ok)
      ensures !Killable() && Settled() && !Stopped()
    {
    }

    lemma SiblingsDisjoint()
      requires Valid()
      ensures forall c, d :: c in steps && d in steps && c != d ==> c.Repr !! d.Repr
    {
      forall c, d | c in steps && d in steps && c != d
        ensures c.Repr !! d.Repr
      {
        var i :| 0 <= i < |steps| && steps[i] == c;
        var j :| 0 <= j < |steps| && steps[j] == d;
        if i > j {
          assert steps[j].Repr !! steps[i].Repr;
        }
      }
    }

    lemma ApartFrom(c: Step)
      requires Valid() && c in steps
      ensures forall d :: d in steps && d != c ==> d.Repr !! c.Repr
    {
      SiblingsDisjoint();
    }

    lemma {:induction false} PendingInv()
      requires Valid() && Pending()
      ensures Inv()
      decreases height
    {
      forall c | c in steps
        ensures c.Inv()
      {
        c.PendingInv();
      }
    }

    /** `Command.__init__`: the title defaults to the command line. */
    constructor Command(config: map<string, string>, env: Env, level: nat, command: string)
      ensures kind == CommandKind && steps == []
      ensures this.config == config && this.env == env && this.level == level && this.command == command
      ensures title == ConfiguredTitle(config).GetOr(command)
      ensures Valid() && Pending() && Inv() && runEnv == None && Repr == {this}
    {
      kind := CommandKind;
      this.config := config;
      this.env := env;
      this.level := level;
      this.command := command;
      title := ConfiguredTitle(config).GetOr(command);
      steps := [];
      Repr := {this};
      height := 0;
      status := None;
      exitCode := Some(0);
      killed := false;
      runEnv := None;
      process := None;
      runningStep := null;
      shotDown := false;
      waiting := [];
      active := [];
    }

    /**
     * `SequentialGroup.__init__` and `ParallelGroup.__init__`: the title
     * defaults to `"<kind> group #%04x" % (id(self) % 256)`.
     */
    constructor Group(kind: Kind, config: map<string, string>, env: Env, level: nat, steps: seq<Step>)
      requires !kind.CommandKind?
      requires forall c :: c in steps ==> c.Valid() && c.Pending()
      requires forall i, j :: 0 <= i < j < |steps| ==> steps[i].Repr !! steps[j].Repr
      ensures this.kind == kind && this.config == config && this.env == env && this.level == level
      ensures this.steps == steps && command == ""
      ensures ConfiguredTitle(config).Some? ==> title == ConfiguredTitle(config).value
      ensures ConfiguredTitle(config).None? ==>
        exists n :: 0 <= n < 256 && title == GroupPrefix(kind) + Hex4(n)
      ensures Valid() && Pending() && Inv() && runEnv == None
      ensures Repr == {this} + ReprOfSeq(steps)
    {
      var id := ObjectId();
      this.kind := kind;
      this.config := config;
      this.env := env;
      this.level := level;
      command := "";
      title := ConfiguredTitle(config).GetOr(GroupPrefix(kind) + Hex4(id));
      this.steps := steps;
      Repr := {this} + ReprOfSeq(steps);
      height := HeightAbove(steps);
      status := None;
      exitCode := Some(0);
      killed := false;
      runEnv := None;
      process := None;
      runningStep := null;
      shotDown := false;
      waiting := [];
      active := [];
      new;
      forall c | c in steps
        ensures c.Inv()
      {
        c.PendingInv();
      }
    }
      /** `Step.killed()`. */
    method MarkKilled()
      modifies this`status, this`exitCode, this`killed
      ensures status == Some(Killed) && exitCode == None && killed
    {
      status := Some(Killed);
      exitCode := None;
      killed := true;
    }

    /**
     * `kill` of each class. A command signals its process once, and only if
     * one exists, then marks itself killed; a sequential group forwards to
     * its running step; a parallel group shuts its queue down. The result
     * is `Disarmed`, and a disarmed step is left exactly as it is.
     */
    method Kill()
      requires Valid() && Inv()
      modifies Repr`status, Repr`exitCode, Repr`killed, Repr`process, Repr`runningStep, Repr`shotDown, Repr`waiting, Repr`active
      ensures Inv() && Disarmed()
      ensures old(Disarmed()) ==> unchanged(Repr)
      ensures kind.CommandKind? ==>
        && killed && status == Some(Killed) && exitCode == None
        && process == (if !old(killed) && old(process).Some? then Some(old(process).value.(signalled := true)) else old(process))
      ensures kind.SequentialKind? && old(runningStep) != null ==>
        && status == Some(Killed) && runningStep == null && exitCode == old(exitCode)
        && old(runningStep).Disarmed()
        && (old(runningStep.Disarmed()) ==> unchanged(old(runningStep).Repr))
        && (!old(runningStep.Disarmed()) ==> old(runningStep).Stopped())
        && forall c :: c in steps && c != old(runningStep) ==> unchanged(c.Repr)
      ensures kind.ParallelKind? ==>
        && status == Some(Killed) && exitCode == old(exitCode) && active == old(active)
        && waiting == [] && shotDown
        && (forall c :: c in active && old(c.Killable()) && !old(c.Settled()) ==> c.Stopped())
        && forall c :: c in steps && !(c in old(active) && old(c.Killable()) && !old(c.Settled())) ==> unchanged(c.Repr)
      ensures forall s :: s in Repr ==> s.runEnv == old(s.runEnv)
      decreases height, 3
    {
      match kind
      case CommandKind => KillCommand();
      case SequentialKind => KillSequential();
      case ParallelKind => KillParallel();
    }

    /** `Command.kill`. */
    method KillCommand()
      requires LocalInv() && kind.CommandKind?
      modifies this`process, this`status, this`exitCode, this`killed
      ensures LocalInv() && killed && status == Some(Killed) && exitCode == None
      ensures process == (if !old(killed) && old(process).Some? then Some(old(process).value.(signalled := true)) else old(process))
      ensures old(killed) ==> unchanged(this)
    {
      if !killed && process.Some? {
        process := Some(process.value.(signalled := true));
      }
      MarkKilled();
    }

    /** `SequentialGroup.kill`. */
    method KillSequential()
      requires Valid() && Inv() && kind.SequentialKind?
      modifies Repr`status, Repr`exitCode, Repr`killed, Repr`process, Repr`runningStep, Repr`shotDown, Repr`waiting, Repr`active
      ensures Inv() && runningStep == null
      ensures old(runningStep) == null ==> unchanged(Repr)
      ensures old(runningStep) != null ==>
        && status == Some(Killed) && old(runningStep).Disarmed()
        && (old(runningStep.Disarmed()) ==> unchanged(old(runningStep).Repr))
        && (!old(runningStep.Disarmed()) ==> old(runningStep).Stopped())
        && forall c :: c in steps && c != old(runningStep) ==> unchanged(c.Repr)
      ensures old(runningStep) != null ==> unchanged(this`exitCode, this`killed, this`runEnv, this`waiting, this`active)
      decreases height, 2
    {
      if runningStep != null {
        var r := runningStep;
        ApartFrom(r);
        r.Kill();
        status := Some(Killed);
        runningStep := null;
      }
    }

    /** `ParallelGroup.kill`. */
    method KillParallel()
      requires Valid() && Inv() && kind.ParallelKind?
      modifies Repr`status, Repr`exitCode, Repr`killed, Repr`process, Repr`runningStep, Repr`shotDown, Repr`waiting, Repr`active
      ensures Inv() && ShutDownState() && status == Some(Killed)
      ensures old(ShutDownState() && status == Some(Killed)) ==> unchanged(Repr)
      ensures exitCode == old(exitCode) && active == old(active) && killed == old(killed) && runEnv == old(runEnv)
      ensures forall c :: c in active && old(c.Killable()) && !old(c.Settled()) ==> c.Stopped()
      ensures forall c :: c in steps && !(c in old(active) && old(c.Killable()) && !old(c.Settled())) ==> unchanged(c.Repr)
      decreases height, 2
    {
      Shutdown();
      status := Some(Killed);
    }

    /**
     * `ParallelGroup.shutdown`: cancel every waiting child, kill every active
     * child that is neither killed nor finished, and set `ShotDown`.
     */
    method Shutdown()
      requires Valid() && ActiveInv() && kind.ParallelKind?
      modifies this`waiting, this`shotDown, ReprOfSeq(active)`status, ReprOfSeq(active)`exitCode, ReprOfSeq(active)`killed, ReprOfSeq(active)`process, ReprOfSeq(active)`runningStep, ReprOfSeq(active)`shotDown, ReprOfSeq(active)`waiting, ReprOfSeq(active)`active
      ensures ActiveInv() && ShutDownState()
      ensures old(ShutDownState()) ==> unchanged(Repr)
      ensures status == old(status) && exitCode == old(exitCode) && active == old(active)
      ensures unchanged(this`killed, this`process, this`runEnv, this`runningStep)
      ensures forall c :: c in active && old(c.Killable()) && !old(c.Settled()) ==> c.Stopped()
      ensures forall c :: c in steps && !(c in old(active) && old(c.Killable()) && !old(c.Settled())) ==> unchanged(c.Repr)
      decreases height, 1, 0
    {
      waiting := [];
      StopActive();
      shotDown := true;
    }

    /** `shutdown`'s loop: kill each active child that is killable. */
    method StopActive()
      requires Valid() && ActiveInv()
      modifies ReprOfSeq(active)`status, ReprOfSeq(active)`exitCode, ReprOfSeq(active)`killed, ReprOfSeq(active)`process, ReprOfSeq(active)`runningStep, ReprOfSeq(active)`shotDown, ReprOfSeq(active)`waiting, ReprOfSeq(active)`active
      ensures forall c :: c in active ==> c.Inv()
      ensures forall c :: c in active ==> c.Settled()
      ensures forall c :: c in active && old(c.Killable()) && !old(c.Settled()) ==> c.Stopped()
      ensures forall c :: c in steps && !(c in active && old(c.Killable()) && !old(c.Settled())) ==> unchanged(c.Repr)
      decreases height, 0, 1
    {
      var i := 0;
      while i < |active|
        invariant 0 <= i <= |active|
        invariant forall c :: c in active ==> c.Inv()
        invariant forall k :: 0 <= k < i ==> active[k].Settled()
        invariant forall k :: 0 <= k < i && old(active[k].Killable()) && !old(active[k].Settled()) ==> active[k].Stopped()
        invariant forall c :: c in steps && !(c in active[..i] && old(c.Killable()) && !old(c.Settled())) ==> unchanged(c.Repr)
      {
        ApartFrom(active[i]);
        StopChild(active[i]);
        i := i + 1;
      }
    }

    /** One iteration of `shutdown`'s loop over the active children. */
    method StopChild(c: Step)
      requires Valid() && c in steps && c.Inv()
      modifies c.Repr`status, c.Repr`exitCode, c.Repr`killed, c.Repr`process, c.Repr`runningStep, c.Repr`shotDown, c.Repr`waiting, c.Repr`active
      ensures c.Inv() && c.Settled()
      ensures old(c.Killable()) && !old(c.Settled()) ==> c.Stopped()
      ensures !old(c.Killable()) || old(c.Settled()) ==> unchanged(c.Repr)
      decreases height, 0, 0
    {
      if !c.killed && c.status.None? {
        assert c.Settled() ==> c.Disarmed();
        c.Kill();
      }
    }

    /** Every step of the tree holds the environment `combine_env` resolves for it below `outer`. */
    ghost predicate EnvResolved(outer: Option<Env>)
      requires Valid()
      reads Repr
      decreases height
    {
      runEnv == Some(Combined(env, outer)) && forall c :: c in steps ==> c.EnvResolved(runEnv)
    }

    /**
     * `update_run_env` of each class: resolve this step's own environment
     * against `outer`, then each child's against the result. Nothing but
     * `RunEnv` changes anywhere in the tree.
     */
    method UpdateRunEnv(outer: Option<Env>)
      requires Valid()
      modifies Repr`runEnv
      ensures EnvResolved(outer)
      ensures old(Pending()) ==> Pending()
      decreases height
    {
      var e := CombineEnv(env, outer);
      runEnv := Some(e);
      var i := 0;
      while i < |steps|
        invariant 0 <= i <= |steps| && runEnv == Some(e)
        invariant forall k :: 0 <= k < i ==> steps[k].EnvResolved(Some(e))
        invariant forall k :: 0 <= k < |steps| ==> old(steps[k].Pending()) ==> steps[k].Pending()
      {
        ApartFrom(steps[i]);
        steps[i].UpdateRunEnv(Some(e));
        i := i + 1;
      }
    }

    /** No step of the tree declares `name`. */
    ghost predicate NeverDeclares(name: string)
      requires Valid()
      decreases height
    {
      name !in env && forall c :: c in steps ==> c.NeverDeclares(name)
    }

    /** `name` has the value `v` in the resolved environment of every step of the tree. */
    ghost predicate CarriesEverywhere(name: string, v: string)
      requires Valid()
      reads Repr
      decreases height
    {
      runEnv.Some? && name in runEnv.value && runEnv.value[name] == v
      && forall c :: c in steps ==> c.CarriesEverywhere(name, v)
    }

    /** A variable no step declares reaches every command with the value it has outside. */
    lemma {:induction false} ResolvedInherits(outer: Env, name: string)
      requires Valid() && EnvResolved(Some(outer)) && name in outer && NeverDeclares(name)
      ensures CarriesEverywhere(name, outer[name])
      decreases height
    {
      CombinedInherits(env, outer, name);
      forall c | c in steps
        ensures c.CarriesEverywhere(name, outer[name])
      {
        c.ResolvedInherits(runEnv.value, name);
      }
    }

    /** Where a run of this step stops, rather than how: what `run` returns. */
    ghost function Outcome(exitOf: Step -> int): Status
      requires Valid()
      decreases height, 1
    {
      match kind
      case CommandKind => if exitOf(this) == 0 then Ok else Failed
      case SequentialKind => if FirstFailure(exitOf, 0) < |steps| then Killed else Ok
      case ParallelKind => if FirstFailure(exitOf, 0) < |steps| then Failed else Ok
    }

    /** The index of the first child from `i` on whose outcome is not `Ok`; `|steps|` if there is none. */
    ghost function FirstFailure(exitOf: Step -> int, i: nat): (r: nat)
      requires Valid() && i <= |steps|
      ensures i <= r <= |steps|
      decreases height, 0, |steps| - i
    {
      if i == |steps| then |steps|
      else if steps[i].Outcome(exitOf) != Ok then i
      else FirstFailure(exitOf, i + 1)
    }

    /** The `ExitCode` a run leaves. */
    ghost function ExitSpec(exitOf: Step -> int): Option<int>
      requires Valid()
      decreases height, 1
    {
      match kind
      case CommandKind => Some(exitOf(this))
      case SequentialKind => SeqExit(exitOf, |steps|)
      case ParallelKind =>
        var f := FirstFailure(exitOf, 0);
        if f < |steps| && steps[f].Outcome(exitOf) != Killed && steps[f].ExitSpec(exitOf).Some?
        then steps[f].ExitSpec(exitOf)
        else Some(0)
    }

    /** A sequential group's `ExitCode` once its loop has passed the first `k` children. */
    ghost function SeqExit(exitOf: Step -> int, k: nat): Option<int>
      requires Valid() && k <= |steps|
      decreases height, 0, k
    {
      if k == 0 then Some(0)
      else if k - 1 <= FirstFailure(exitOf, 0) && steps[k - 1].ExitSpec(exitOf).Some? then steps[k - 1].ExitSpec(exitOf)
      else SeqExit(exitOf, k - 1)
    }

    /** The child a sequential group's `RunningStep` holds once its loop has passed the first `i` children. */
    ghost function StartedUpTo(exitOf: Step -> int, i: nat): Step?
      requires Valid() && i <= |steps|
    {
      var f := FirstFailure(exitOf, 0);
      if i == 0 then null else if i - 1 <= f then steps[i - 1] else steps[f]
    }

    /**
     * The state a run leaves: the children up to and including the first
     * failing one have run, the later ones are untouched.
     */
    ghost predicate Ran(exitOf: Step -> int)
      requires Valid()
      reads Repr
      decreases height
    {
      && status == Some(Outcome(exitOf)) && exitCode == ExitSpec(exitOf) && !killed
      && (kind.CommandKind? ==> process == Some(Process(command, runEnv, false)))
      && runningStep == (if kind.SequentialKind? then StartedUpTo(exitOf, |steps|) else null)
      && waiting == [] && active == []
      && (kind.ParallelKind? ==> shotDown == (FirstFailure(exitOf, 0) < |steps|))
      && forall i :: 0 <= i < |steps| ==>
           if i <= FirstFailure(exitOf, 0) then steps[i].Ran(exitOf) else steps[i].Pending()
    }

    lemma {:induction false} FirstFailureIs(exitOf: Step -> int, i: nat)
      requires Valid() && i <= |steps|
      ensures forall k :: i <= k < FirstFailure(exitOf, i) ==> steps[k].Outcome(exitOf) == Ok
      ensures FirstFailure(exitOf, i) < |steps| ==> steps[FirstFailure(exitOf, i)].Outcome(exitOf) != Ok
      decreases |steps| - i
    {
      if i < |steps| && steps[i].Outcome(exitOf) == Ok {
        FirstFailureIs(exitOf, i + 1);
      }
    }

    /**
     * The children of a group once its loop has reached index `i`: those
     * before `i`, up to the first failure, have run; the rest are untouched.
     */
    ghost predicate ChildrenRan(exitOf: Step -> int, i: nat)
      requires Valid()
      reads Repr - {this}
    {
      forall k :: 0 <= k < |steps| ==>
        if k < i && k <= FirstFailure(exitOf, 0) then steps[k].Ran(exitOf) else steps[k].Pending()
    }

    /** A sequential group whose own fields and children are as a run leaves them has run. */
    lemma SequentialRan(exitOf: Step -> int)
      requires Valid() && kind.SequentialKind?
      requires status == Some(Outcome(exitOf)) && exitCode == ExitSpec(exitOf) && !killed
      requires runningStep == StartedUpTo(exitOf, |steps|) && waiting == [] && active == []
      requires ChildrenRan(exitOf, |steps|)
      ensures Ran(exitOf)
    {
    }

    /** A parallel group whose own fields and children are as a run leaves them has run. */
    lemma ParallelRan(exitOf: Step -> int)
      requires Valid() && kind.ParallelKind?
      requires status == Some(Outcome(exitOf)) && exitCode == ExitSpec(exitOf) && !killed && runningStep == null
      requires waiting == [] && active == [] && shotDown == (FirstFailure(exitOf, 0) < |steps|)
      requires ChildrenRan(exitOf, |steps|)
      ensures Ran(exitOf)
    {
    }

    /** A step that has run keeps the invariant. */
    lemma {:induction false} RanInv(exitOf: Step -> int)
      requires Valid() && Ran(exitOf)
      ensures Inv()
      decreases height
    {
      if kind.SequentialKind? && steps != [] {
        assert StartedUpTo(exitOf, |steps|) in steps;
      }
      forall c | c in steps
        ensures c.Inv()
      {
        var k :| 0 <= k < |steps| && steps[k] == c;
        if k <= FirstFailure(exitOf, 0) {
          c.RanInv(exitOf);
        } else {
          c.PendingInv();
        }
      }
    }

    /** The first half of `Command._run`: start the process unless the command is already killed. */
    method Spawn() returns (spawned: bool)
      requires kind.CommandKind?
      modifies this`process
      ensures spawned == !killed
      ensures process == if killed then old(process) else Some(Process(command, runEnv, false))
    {
      if killed {
        return false;
      }
      process := Some(Process(command, runEnv, false));
      return true;
    }

    /**
     * The second half of `Command._run`, once the process has ended with
     * return code `rc`: a kill in the meantime makes the result "killed".
     */
    method Reap(rc: int) returns (st: Status)
      requires LocalInv() && kind.CommandKind?
      modifies this`status, this`exitCode
      ensures st == (if killed then Killed else if rc != 0 then Failed else Ok)
      ensures status == Some(st) && exitCode == (if killed then None else Some(rc))
      ensures LocalInv()
    {
      exitCode := Some(rc);
      st := Ok;
      if killed {
        st := Killed;
        exitCode := None;
      } else if rc != 0 {
        st := Failed;
      }
      status := Some(st);
    }

    /**
     * `Command._run`. The lock is released while the process runs, so a
     * `kill` can come in between starting and reaping it; `killedMeanwhile`
     * says whether one does.
     */
    method RunCommand(rc: int, killedMeanwhile: bool) returns (st: Status)
      requires LocalInv() && kind.CommandKind?
      modifies this`process, this`status, this`exitCode, this`killed
      ensures old(killed) ==> st == Killed && unchanged(this)
      ensures !old(killed) && !killedMeanwhile ==>
        && process == Some(Process(command, runEnv, false)) && !killed
        && st == (if rc == 0 then Ok else Failed) && status == Some(st) && exitCode == Some(rc)
      ensures !old(killed) && killedMeanwhile ==>
        && process == Some(Process(command, runEnv, true)) && killed
        && st == Killed && status == Some(Killed) && exitCode == None
      ensures LocalInv()
    {
      var spawned := Spawn();
      if !spawned {
        return status.value;
      }
      if killedMeanwhile {
        KillCommand();
      }
      st := Reap(rc);
    }

    /** `Step.run`: run the kind's `_run` and record what it returns in `Status`. */
    method Run(exitOf: Step -> int) returns (st: Status)
      requires Valid() && Pending()
      modifies Repr`status, Repr`exitCode, Repr`killed, Repr`process, Repr`runningStep, Repr`shotDown, Repr`waiting, Repr`active
      ensures st == Outcome(exitOf) && Ran(exitOf) && status == Some(st)
      ensures forall s :: s in Repr ==> s.runEnv == old(s.runEnv)
      decreases height, 2
    {
      match kind {
        case CommandKind => st := RunCommand(exitOf(this), false);
        case SequentialKind => st := RunSequential(exitOf);
        case ParallelKind => st := RunParallel(exitOf);
      }
      status := Some(st);
    }

    /**
     * `SequentialGroup._run`: visit the children in order and run each one
     * while the group's status is still unset; the first non-"ok" result
     * sets it to "killed".
     */
    method RunSequential(exitOf: Step -> int) returns (st: Status)
      requires Valid() && Pending() && kind.SequentialKind?
      modifies Repr`status, Repr`exitCode, Repr`killed, Repr`process, Repr`runningStep, Repr`shotDown, Repr`waiting, Repr`active
      ensures st == Outcome(exitOf) && Ran(exitOf) && status == Some(st)
      ensures forall s :: s in Repr ==> s.runEnv == old(s.runEnv)
      decreases height, 1
    {
      SequentialLoop(exitOf);
      if status.None? {
        status := Some(Ok);
      }
      st := status.value;
      SequentialRan(exitOf);
    }

    /** A sequential group's own fields and children once its loop has passed the first `i` children. */
    ghost predicate SeqProgress(exitOf: Step -> int, i: nat)
      requires Valid() && i <= |steps|
      reads Repr
    {
      && status == (if FirstFailure(exitOf, 0) < i then Some(Killed) else None)
      && exitCode == SeqExit(exitOf, i)
      && runningStep == StartedUpTo(exitOf, i)
      && ChildrenRan(exitOf, i)
    }

    /** The loop of `SequentialGroup._run`, over all children in list order. */
    method SequentialLoop(exitOf: Step -> int)
      requires Valid() && kind.SequentialKind? && SeqProgress(exitOf, 0)
      modifies this`status, this`exitCode, this`runningStep, (Repr - {this})`status, (Repr - {this})`exitCode, (Repr - {this})`killed, (Repr - {this})`process, (Repr - {this})`runningStep, (Repr - {this})`shotDown, (Repr - {this})`waiting, (Repr - {this})`active
      ensures SeqProgress(exitOf, |steps|)
      decreases height, 0, 2
    {
      var i := 0;
      while i < |steps|
        invariant 0 <= i <= |steps| && SeqProgress(exitOf, i)
      {
        SequentialPass(exitOf, i);
        i := i + 1;
      }
    }

    /** One pass of `SequentialGroup._run`'s loop: the child at `i` runs if the status is still unset. */
    method SequentialPass(exitOf: Step -> int, i: nat)
      requires Valid() && kind.SequentialKind? && i < |steps| && SeqProgress(exitOf, i)
      modifies this`status, this`exitCode, this`runningStep, steps[i].Repr`status, steps[i].Repr`exitCode, steps[i].Repr`killed, steps[i].Repr`process, steps[i].Repr`runningStep, steps[i].Repr`shotDown, steps[i].Repr`waiting, steps[i].Repr`active
      ensures SeqProgress(exitOf, i + 1)
      decreases height, 0, 1
    {
      FirstFailureIs(exitOf, 0);
      if status.None? {
        var c := steps[i];
        runningStep := c;
        var cst := RunChild(exitOf, c, i);
        if c.exitCode.Some? {
          exitCode := c.exitCode;
        }
        if cst != Ok {
          status := Some(Killed);
        }
      }
    }

    /** A group runs its child at `i`, which the loop reached before any failure; no other child changes. */
    method RunChild(exitOf: Step -> int, c: Step, ghost i: nat) returns (st: Status)
      requires Valid() && i < |steps| && c == steps[i] && i <= FirstFailure(exitOf, 0) && ChildrenRan(exitOf, i)
      modifies c.Repr`status, c.Repr`exitCode, c.Repr`killed, c.Repr`process, c.Repr`runningStep, c.Repr`shotDown, c.Repr`waiting, c.Repr`active
      ensures st == c.Outcome(exitOf) && c.Ran(exitOf) && ChildrenRan(exitOf, i + 1)
      decreases height, 0, 0
    {
      ApartFrom(c);
      st := c.Run(exitOf);
    }

    /**
     * `ParallelGroup._run`: set the status to "ok", queue every child and
     * wait for the queue; each finished child goes through `taskEnded`.
     */
    method RunParallel(exitOf: Step -> int) returns (st: Status)
      requires Valid() && Pending() && kind.ParallelKind?
      modifies Repr`status, Repr`exitCode, Repr`killed, Repr`process, Repr`runningStep, Repr`shotDown, Repr`waiting, Repr`active
      ensures st == Outcome(exitOf) && Ran(exitOf) && status == Some(st)
      ensures forall s :: s in Repr ==> s.runEnv == old(s.runEnv)
      decreases height, 1
    {
      status := Some(Ok);
      waiting := steps;
      ghost var i := 0;
      while waiting != []
        invariant i <= |steps| && ParProgress(exitOf, i)
        invariant unchanged(this`killed, this`process, this`runEnv, this`runningStep)
        decreases |steps| - i
      {
        ParallelPass(exitOf, i);
        i := i + 1;
      }
      st := status.value;
      ParallelRan(exitOf);
    }

    /** A parallel group's own fields and children once its worker has finished the first `i` children. */
    ghost predicate ParProgress(exitOf: Step -> int, i: nat)
      requires Valid() && i <= |steps|
      reads Repr
    {
      var f := FirstFailure(exitOf, 0);
      && i <= f + 1
      && waiting == (if f < i then [] else steps[i..])
      && status == Some(if f < i then Failed else Ok)
      && shotDown == (f < i) && active == []
      && exitCode == (if f < i then ExitSpec(exitOf) else Some(0))
      && ChildrenRan(exitOf, i)
    }

    /** One child through the worker pool and `taskEnded`. */
    method ParallelPass(exitOf: Step -> int, ghost i: nat)
      requires Valid() && kind.ParallelKind? && i <= |steps| && ParProgress(exitOf, i)
      requires waiting != [] && !killed && runningStep == null
      modifies Repr`status, Repr`exitCode, Repr`killed, Repr`process, Repr`runningStep, Repr`shotDown, Repr`waiting, Repr`active
      ensures i < |steps| && ParProgress(exitOf, i + 1)
      ensures unchanged(this`killed, this`process, this`runEnv, this`runningStep)
      decreases height, 0, 2
    {
      FirstFailureIs(exitOf, 0);
      ghost var f := FirstFailure(exitOf, 0);
      assert i <= f && waiting == steps[i..];
      var c, cst := RunHead(exitOf, i);
      assert waiting == steps[i + 1..] && active == [];
      TaskEnded(c, cst);
      assert ChildrenRan(exitOf, i + 1);
      if i == f {
        assert cst != Ok && waiting == [] && exitCode == ExitSpec(exitOf);
      } else {
        assert cst == Ok && waiting == steps[i + 1..];
      }
    }

    /** The worker pool takes the first waiting child, runs it and removes it from the active set. */
    method RunHead(exitOf: Step -> int, ghost i: nat) returns (c: Step, st: Status)
      requires Valid() && i < |steps| && i <= FirstFailure(exitOf, 0) && ChildrenRan(exitOf, i)
      requires waiting != [] && waiting[0] == steps[i]
      modifies this`waiting, this`active, steps[i].Repr`status, steps[i].Repr`exitCode, steps[i].Repr`killed, steps[i].Repr`process, steps[i].Repr`runningStep, steps[i].Repr`shotDown, steps[i].Repr`waiting, steps[i].Repr`active
      ensures c == steps[i] && waiting == old(waiting[1..]) && active == []
      ensures c.Ran(exitOf) && st == c.Outcome(exitOf) && c.status == Some(st) && ChildrenRan(exitOf, i + 1)
      decreases height, 0, 1
    {
      c := waiting[0];
      waiting := waiting[1..];
      active := [c];
      st := RunChild(exitOf, c, i);
      active := [];
    }

    /**
     * `ParallelGroup.taskEnded`: a child that did not end "ok" fails the
     * group, shuts the queue down unless that already happened, and passes
     * on its exit code unless it was killed or has none.
     */
    method TaskEnded(c: Step, st: Status)
      requires Valid() && ActiveInv() && kind.ParallelKind? && c in steps && c.status == Some(st)
      modifies this`status, this`exitCode, this`waiting, this`shotDown, ReprOfSeq(active)`status, ReprOfSeq(active)`exitCode, ReprOfSeq(active)`killed, ReprOfSeq(active)`process, ReprOfSeq(active)`runningStep, ReprOfSeq(active)`shotDown, ReprOfSeq(active)`waiting, ReprOfSeq(active)`active
      ensures ActiveInv()
      ensures st == Ok ==> unchanged(Repr)
      ensures st != Ok ==> status == Some(Failed) && shotDown
      ensures st != Ok && !old(shotDown) ==>
        ShutDownState() && forall d :: d in active && old(d.Killable()) && !old(d.Settled()) ==> d.Stopped()
      ensures exitCode == if st != Ok && st != Killed && c.exitCode.Some? then c.exitCode else old(exitCode)
      ensures waiting == if st != Ok && !old(shotDown) then [] else old(waiting)
      ensures old(shotDown) ==> forall d :: d in steps ==> unchanged(d.Repr)
      ensures forall d :: d in steps && !(d in old(active) && old(d.Killable()) && !old(d.Settled())) ==> unchanged(d.Repr)
      ensures unchanged(this`killed, this`process, this`runEnv, this`runningStep, this`active)
      decreases height, 1
    {
      if st != Ok {
        status := Some(Failed);
        if !shotDown {
          Shutdown();
        }
        if st != Killed && c.exitCode.Some? {
          exitCode := c.exitCode;
        }
      }
    }

    /**
     * The status a group lists for its child `c`: "running" for the child it
     * is running (a parallel group's active tasks, a sequential group's
     * `RunningStep`), else "pending" while the child's status is unset, else
     * that status.
     */
    function ListedStatus(c: Step): string
      reads this, c
    {
      if (kind.ParallelKind? && c in active) || (kind.SequentialKind? && c == runningStep) then "running"
      else if c.status.None? then "pending"
      else StatusText(c.status.value)
    }

    /**
     * What `dump_state` reports. A command shows its status, or "running"
     * once it has a process, or "pending"; a group of either kind reports
     * the type "sequential", its own status (possibly unset) and its listed
     * children.
     */
    function Dump(): Snapshot
      requires Valid()
      reads Repr
      decreases height, 1
    {
      if kind.CommandKind? then
        Snapshot("command", Some(if status.Some? then StatusText(status.value) else if process.Some? then "running" else "pending"), title, None)
      else
        Snapshot("sequential", if status.Some? then Some(StatusText(status.value)) else None, title, Some(DumpSteps(|steps|)))
    }

    /** The first `k` children as the group lists them. */
    function DumpSteps(k: nat): seq<Snapshot>
      requires Valid() && k <= |steps|
      reads Repr
      decreases height, 0, k
    {
      if k == 0 then [] else DumpSteps(k - 1) + [steps[k - 1].Dump().(status := Some(ListedStatus(steps[k - 1])))]
    }

    /** `dump_state` of each class: the children's dumps, with the group's overrides of their status. */
    method DumpState() returns (r: Snapshot)
      requires Valid()
      ensures r == Dump()
      decreases height, 1
    {
      if kind.CommandKind? {
        var shown := if status.Some? then StatusText(status.value) else if process.Some? then "running" else "pending";
        return Snapshot("command", Some(shown), title, None);
      }
      var listed: seq<Snapshot> := [];
      var i := 0;
      while i < |steps|
        invariant 0 <= i <= |steps| && listed == DumpSteps(i)
      {
        var d := ListedDump(steps[i]);
        assert DumpSteps(i + 1) == DumpSteps(i) + [d];
        listed := listed + [d];
        i := i + 1;
      }
      r := Snapshot("sequential", if status.Some? then Some(StatusText(status.value)) else None, title, Some(listed));
    }

    /** One child's snapshot with the group's override of its status. */
    method ListedDump(c: Step) returns (d: Snapshot)
      requires Valid() && c in steps
      ensures d == c.Dump().(status := Some(ListedStatus(c)))
      decreases height, 0
    {
      d := c.DumpState();
      if (kind.ParallelKind? && c in active) || (kind.SequentialKind? && c == runningStep) {
        d := d.(status := Some("running"));
      } else if c.status.None? {
        d := d.(status := Some("pending"));
      }
    }

    lemma {:induction false} DumpStepsIndex(n: nat)
      requires Valid() && n <= |steps|
      ensures |DumpSteps(n)| == n
      ensures forall k :: 0 <= k < n ==> DumpSteps(n)[k] == steps[k].Dump().(status := Some(ListedStatus(steps[k])))
      decreases n
    {
      if n > 0 {
        DumpStepsIndex(n - 1);
      }
    }

    /** Before a run, every step is listed as "pending" and a group's own status is unset. */
    lemma DumpPending()
      requires Valid() && Pending()
      ensures Dump().title == title && (Dump().steps.None? <==> kind.CommandKind?)
      ensures Dump().stepType == if kind.CommandKind? then "command" else "sequential"
      ensures Dump().status == if kind.CommandKind? then Some("pending") else None
      ensures !kind.CommandKind? ==>
        && |Dump().steps.value| == |steps|
        && forall k :: 0 <= k < |steps| ==>
             Dump().steps.value[k].status == Some("pending") && Dump().steps.value[k].title == steps[k].title
    {
      DumpStepsIndex(|steps|);
      forall k | 0 <= k < |steps|
        ensures ListedStatus(steps[k]) == "pending"
      {
        assert steps[k].Pending();
      }
    }

    /**
     * After a run, a step shows its outcome and lists each child it started
     * with the child's outcome, the others as "pending". A sequential group
     * still lists its last started child as "running": `_run` never clears
     * `RunningStep`.
     */
    lemma DumpAfterRun(exitOf: Step -> int)
      requires Valid() && Ran(exitOf)
      ensures Dump().status == Some(StatusText(Outcome(exitOf)))
      ensures !kind.CommandKind? ==>
        && |Dump().steps.value| == |steps|
        && forall k :: 0 <= k < |steps| ==>
             Dump().steps.value[k].status == Some(
               if kind.SequentialKind? && k == Min(FirstFailure(exitOf, 0), |steps| - 1) then "running"
               else if k <= FirstFailure(exitOf, 0) then StatusText(steps[k].Outcome(exitOf))
               else "pending")
    {
      DumpStepsIndex(|steps|);
      var f := FirstFailure(exitOf, 0);
      forall k | 0 <= k < |steps|
        ensures Dump().steps.value[k].status == Some(
               if kind.SequentialKind? && k == Min(f, |steps| - 1) then "running"
               else if k <= f then StatusText(steps[k].Outcome(exitOf))
               else "pending")
      {
        if kind.SequentialKind? && k != Min(f, |steps| - 1) {
          var m := Min(f, |steps| - 1);
          assert steps[k] in steps[k].Repr && steps[m] in steps[m].Repr;
          if k < m {
            assert steps[k].Repr !! steps[m].Repr;
          } else {
            assert steps[m].Repr !! steps[k].Repr;
          }
        }
        if k <= f {
          assert steps[k].Ran(exitOf);
        } else {
          assert steps[k].Pending();
        }
      }
    }
  }
}
