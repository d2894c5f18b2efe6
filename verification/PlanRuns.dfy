/**
  Plan runs of 5g-probe/probe/application.py: a thread works through a plan's experiments and writes
  run.json at every change; a crash may come between any two writes or inside one, a cleanup follows the
  next start, and a later pass may resume the latest run that is not over.

  A plan's run.json files are a sequence, in the order of their directory. A run's id is the second in which its pass
  started, and names its file; only the other fields that decide the flow are kept.
  */
module PlanRuns {
  import opened Bytes

  datatype ExpState = Pending | Running | Completed | Failed
  datatype Experiment = Experiment(state: ExpState, result: Option<string>, error: Option<string>)

  datatype Status = InProgress | Done | Partial

  /** What a pass changes in run.json. */
  datatype Snapshot = Snapshot(status: Status, experiments: seq<Experiment>)

  /** What it does not. */
  datatype Head = Head(id: nat, startedAt: nat)

  /** A run's file. It is written in place, so a death inside a write leaves one that nobody can read. */
  datatype Run = Run(head: Head, last: Snapshot) | Unreadable(id: nat)

  function IdOf(r: Run): nat {
    if r.Run? then r.head.id else r.id
  }

  /** What executing one experiment comes to. */
  datatype Outcome =
    | Good(path: string)
    | Unusable(csv: Option<string>, why: string)  // no data, or over too soon
    | Raised(why: string)

  /**
    Everything a pass depends on besides the files: `stamp` is the second in which it starts, `now` the time it gives a
    new run, `checks` how often the running flag is still found set, `writes` how many saves happen before the process
    dies, inside the next one if `torn`. A cleanup that dies has handled the first `files` runs.
    */
  datatype Op =
    | Pass(plan: seq<Experiment>, resume: bool, stamp: nat, now: nat, outcomes: seq<Outcome>, checks: nat,
           writes: nat, torn: bool)
    | Cleanup(files: nat, torn: bool)

  // ---------------------------------------------------------------- one pass, as the writes it makes

  function Reset(es: seq<Experiment>): (r: seq<Experiment>)
    ensures |r| == |es| && forall j | 0 <= j < |r| :: r[j] == Experiment(Pending, None, None)
  {
    seq(|es|, _ => Experiment(Pending, None, None))
  }

  function Unstick(e: Experiment, why: string): Experiment {
    if e.state == Running then e.(state := Failed, error := Some(why)) else e
  }

  function UnstickAll(es: seq<Experiment>, why: string): (r: seq<Experiment>)
    ensures |r| == |es| && forall j | 0 <= j < |r| :: r[j] == Unstick(es[j], why)
  {
    seq(|es|, j requires 0 <= j < |es| => Unstick(es[j], why))
  }

  /** Failing keeps an earlier result when the run raised; completing keeps an earlier error. */
  function Settle(e: Experiment, o: Outcome): Experiment {
    match o
    case Good(path) => e.(state := Completed, result := Some(path))
    case Unusable(csv, why) => e.(state := Failed, result := csv, error := Some(why))
    case Raised(why) => e.(state := Failed, error := Some(why))
  }

  function OutcomeAt(outcomes: seq<Outcome>, i: nat): Outcome {
    if i < |outcomes| then outcomes[i] else Raised("")
  }

  function Count(es: seq<Experiment>, state: ExpState): nat {
    if es == [] then 0 else Count(es[..|es| - 1], state) + if es[|es| - 1].state == state then 1 else 0
  }

  function Close(es: seq<Experiment>): Snapshot {
    Snapshot(if Count(es, Failed) == 0 then Done else Partial, es)
  }

  /** Experiment i marked as running. */
  function Begun(es: seq<Experiment>, i: nat): (r: seq<Experiment>)
    requires i < |es|
    ensures |r| == |es|
  {
    es[i := es[i].(state := Running)]
  }

  /** Experiment i run and settled. */
  function Executed(es: seq<Experiment>, i: nat, outcomes: seq<Outcome>): (r: seq<Experiment>)
    requires i < |es|
    ensures |r| == |es|
  {
    es[i := Settle(es[i].(state := Running), OutcomeAt(outcomes, i))]
  }

  /** The writes from experiment i on: one when it starts, one when it settles, one at the end. */
  function WritesFrom(es: seq<Experiment>, i: nat, resume: bool, outcomes: seq<Outcome>,
                      checks: nat): (w: seq<Snapshot>)
    requires i <= |es|
    ensures w != []
    decreases |es| - i
  {
    if i == |es| || checks == 0 then [Close(es)]
    else if resume && es[i].state == Completed then WritesFrom(es, i + 1, resume, outcomes, checks - 1)
    else
      var settled := Executed(es, i, outcomes);
      [Snapshot(InProgress, Begun(es, i)), Snapshot(InProgress, settled)] +
        if checks == 1 then [Close(settled)] else WritesFrom(settled, i + 1, resume, outcomes, checks - 2)
  }

  /** The writes of an experiment that is run: its start, its end, and what follows. */
  lemma {:induction false} WritesOfOne(es: seq<Experiment>, i: nat, resume: bool, outcomes: seq<Outcome>, checks: nat)
    requires i < |es| && checks > 0 && !(resume && es[i].state == Completed)
    ensures var w, settled := WritesFrom(es, i, resume, outcomes, checks), Executed(es, i, outcomes);
            && |w| > 2 && w[0] == Snapshot(InProgress, Begun(es, i)) && w[1] == Snapshot(InProgress, settled)
            && w[2..] == if checks == 1 then WritesFrom(settled, i, resume, outcomes, 0)
                         else WritesFrom(settled, i + 1, resume, outcomes, checks - 2)
  {
  }

  const RESTARTED := "Interrupted (server restart)"
  const ABORTED := "Interrupted (server restart or prior abort)"

  predicate Resumable(r: Run) {
    r.Run? && (r.last.status == InProgress || r.last.status == Partial)
  }

  /** The run started last among those that are not over. */
  function LatestResumable(runs: seq<Run>): (i: Option<nat>)
    ensures i.Some? ==> i.value < |runs| && Resumable(runs[i.value])
  {
    if runs == [] then None else
    var before, last := LatestResumable(runs[..|runs| - 1]), runs[|runs| - 1];
    if Resumable(last) && (before.None? || runs[before.value].head.startedAt < last.head.startedAt) then
      Some(|runs| - 1)
    else
      before
  }

  lemma {:induction false} LatestIs(runs: seq<Run>)
    ensures var latest := LatestResumable(runs);
            && (latest.None? <==> forall r <- runs :: !Resumable(r))
            && (latest.Some? ==> forall r <- runs :: Resumable(r) ==>
                  r.head.startedAt <= runs[latest.value].head.startedAt)
  {
    if runs != [] {
      LatestIs(runs[..|runs| - 1]);
      assert forall r <- runs :: r in runs[..|runs| - 1] || r == runs[|runs| - 1];
    }
  }

  /** The file with an id, if there is one. */
  function IndexOf(runs: seq<Run>, id: nat): (i: nat)
    ensures i <= |runs| && (i < |runs| ==> IdOf(runs[i]) == id)
    ensures forall j | 0 <= j < i :: IdOf(runs[j]) != id
  {
    if runs == [] then 0
    else if IdOf(runs[0]) == id then 0
    else 1 + IndexOf(runs[1..], id)
  }

  /** The id of the run a pass writes: the one it resumes, or the second it starts in. */
  function RunId(runs: seq<Run>, resume: bool, stamp: nat): nat {
    var latest := LatestResumable(runs);
    if resume && latest.Some? then runs[latest.value].head.id else stamp
  }

  /** Where its file is, or will be. */
  function Target(runs: seq<Run>, op: Op): (i: nat)
    requires op.Pass?
    ensures i <= |runs|
  {
    IndexOf(runs, RunId(runs, op.resume, op.stamp))
  }

  /** A resuming pass takes up the file with its run's id. */
  predicate TakesUp(runs: seq<Run>, op: Op)
    requires op.Pass?
  {
    op.resume && Target(runs, op) < |runs|
  }

  /** It cannot: the pass ends with an exception, before its first write. */
  predicate Refused(runs: seq<Run>, op: Op)
    requires op.Pass?
  {
    TakesUp(runs, op) && runs[Target(runs, op)].Unreadable?
  }

  /** The experiments a pass starts from. */
  function StartFrom(runs: seq<Run>, op: Op): seq<Experiment>
    requires op.Pass? && !Refused(runs, op)
  {
    var es := if !op.resume then Reset(op.plan)
              else if TakesUp(runs, op) then runs[Target(runs, op)].last.experiments
              else op.plan;
    UnstickAll(es, ABORTED)
  }

  function HeadOf(runs: seq<Run>, op: Op): (h: Head)
    requires op.Pass?
    ensures h.id == RunId(runs, op.resume, op.stamp)
  {
    var id := RunId(runs, op.resume, op.stamp);
    if TakesUp(runs, op) && !Refused(runs, op) then Head(id, runs[Target(runs, op)].head.startedAt)
    else Head(id, op.now)
  }

  function PassWrites(runs: seq<Run>, op: Op): (w: seq<Snapshot>)
    requires op.Pass?
    ensures w == [] <==> Refused(runs, op)
  {
    if Refused(runs, op) then [] else
    var es := StartFrom(runs, op);
    [Snapshot(InProgress, es)] + WritesFrom(es, 0, op.resume, op.outcomes, op.checks)
  }

  /** A file written: over the one with its id, or as a new one. */
  function Put(runs: seq<Run>, r: Run): seq<Run> {
    var i := IndexOf(runs, IdOf(r));
    if i == |runs| then runs + [r] else runs[i := r]
  }

  lemma {:induction false} FoundAt(runs: seq<Run>, id: nat, i: nat)
    requires i < |runs| && IdOf(runs[i]) == id && forall j | 0 <= j < i :: IdOf(runs[j]) != id
    ensures IndexOf(runs, id) == i
  {
  }

  lemma {:induction false} PutAgain(runs: seq<Run>, a: Run, b: Run)
    requires IdOf(a) == IdOf(b)
    ensures Put(Put(runs, a), b) == Put(runs, b)
  {
    FoundAt(Put(runs, a), IdOf(b), IndexOf(runs, IdOf(a)));
  }

  /** The files once the first `saved` writes came round, of which a process that dies makes `writes`. */
  function Files(runs: seq<Run>, h: Head, all: seq<Snapshot>, saved: nat, writes: nat, torn: bool): seq<Run>
    requires saved <= |all|
  {
    if torn && writes < saved then Put(runs, Unreadable(h.id)) else
    var n := if writes < saved then writes else saved;
    if n == 0 then runs else Put(runs, Run(h, all[n - 1]))
  }

  /** The files after a pass that got `op.writes` writes done. */
  function AfterPass(runs: seq<Run>, op: Op): seq<Run>
    requires op.Pass?
  {
    Files(runs, HeadOf(runs, op), PassWrites(runs, op), |PassWrites(runs, op)|, op.writes, op.torn)
  }

  predicate IsStuck(r: Run) {
    r.Run? && exists j | 0 <= j < |r.last.experiments| :: r.last.experiments[j].state == Running
  }

  function CleanRun(r: Run): Run {
    if r.Run? then r.(last := r.last.(experiments := UnstickAll(r.last.experiments, RESTARTED))) else r
  }

  /** Run i after a cleanup: only a run with a stuck experiment is written again. */
  function CleanedAt(runs: seq<Run>, files: nat, torn: bool, i: nat): Run
    requires i < |runs|
  {
    if i < files then CleanRun(runs[i])
    else if i == files && torn && IsStuck(runs[i]) then Unreadable(IdOf(runs[i]))
    else runs[i]
  }

  function AfterCleanup(runs: seq<Run>, files: nat, torn: bool): (r: seq<Run>)
    ensures |r| == |runs| && forall i | 0 <= i < |r| :: r[i] == CleanedAt(runs, files, torn, i)
  {
    seq(|runs|, i requires 0 <= i < |runs| => CleanedAt(runs, files, torn, i))
  }

  function After(runs: seq<Run>, op: Op): seq<Run> {
    if op.Cleanup? then AfterCleanup(runs, op.files, op.torn) else AfterPass(runs, op)
  }

  function AfterAll(runs: seq<Run>, ops: seq<Op>): seq<Run> {
    if ops == [] then runs else After(AfterAll(runs, ops[..|ops| - 1]), ops[|ops| - 1])
  }

  /** From the write number `saved` on, `all` is what is written from experiment i on. */
  ghost predicate Ahead(all: seq<Snapshot>, saved: nat, es: seq<Experiment>, i: nat, resume: bool,
                        outcomes: seq<Outcome>, left: nat) {
    saved <= |all| && i <= |es| && all[saved..] == WritesFrom(es, i, resume, outcomes, left)
  }

  lemma {:induction false} AheadOfSkip(all: seq<Snapshot>, saved: nat, es: seq<Experiment>, i: nat, resume: bool,
                                       outcomes: seq<Outcome>, left: nat)
    requires Ahead(all, saved, es, i, resume, outcomes, left)
    requires i < |es| && left > 0 && resume && es[i].state == Completed
    ensures Ahead(all, saved, es, i + 1, resume, outcomes, left - 1)
  {
  }

  lemma {:induction false} AheadOfRun(all: seq<Snapshot>, saved: nat, es: seq<Experiment>, i: nat, resume: bool,
                                      outcomes: seq<Outcome>, left: nat)
    requires Ahead(all, saved, es, i, resume, outcomes, left)
    requires i < |es| && left > 0 && !(resume && es[i].state == Completed)
    ensures saved + 2 <= |all| && all[saved] == Snapshot(InProgress, Begun(es, i))
            && all[saved + 1] == Snapshot(InProgress, Executed(es, i, outcomes))
    ensures var next, left' := if left == 1 then i else i + 1, if left == 1 then 0 else left - 2;
            Ahead(all, saved + 2, Executed(es, i, outcomes), next, resume, outcomes, left')
  {
    WritesOfOne(es, i, resume, outcomes, left);
    var w := all[saved..];
    assert all[saved] == w[0] && all[saved + 1] == w[1] && all[saved + 2..] == w[2..];
  }

  lemma {:induction false} AheadOfEnd(all: seq<Snapshot>, saved: nat, es: seq<Experiment>, i: nat, resume: bool,
                                      outcomes: seq<Outcome>, left: nat)
    requires Ahead(all, saved, es, i, resume, outcomes, left) && (i == |es| || left == 0)
    ensures |all| == saved + 1 && all[saved] == Close(es)
  {
    assert all[saved..][0] == Close(es);
  }

  // ---------------------------------------------------------------- the code

  class Executor {
    var runs: seq<Run>

    /** Save number `saved` of the pass: it overwrites run.json in place, unless the process is already dead. */
    method SaveRun(h: Head, r: Snapshot, saved: nat, writes: nat, torn: bool, ghost before: seq<Run>,
                   ghost all: seq<Snapshot>)
      requires saved < |all| && all[saved] == r
      requires runs == Files(before, h, all, saved, writes, torn)
      modifies this
      ensures runs == Files(before, h, all, saved + 1, writes, torn)
    {
      if saved < writes || (saved == writes && torn) {
        var file := if saved < writes then Run(h, r) else Unreadable(h.id);
        if saved > 0 {
          PutAgain(before, Run(h, all[saved - 1]), file);
        }
        runs := Put(runs, file);
      }
    }

    /** Lines 3730 to 3852: one experiment, saved as it starts and as it settles. */
    method RunExperiment(h: Head, es: seq<Experiment>, i: nat, outcomes: seq<Outcome>, saved: nat, writes: nat,
                         torn: bool, ghost before: seq<Run>, ghost all: seq<Snapshot>)
      returns (es': seq<Experiment>)
      requires i < |es| && saved + 1 < |all|
      requires runs == Files(before, h, all, saved, writes, torn)
      requires all[saved] == Snapshot(InProgress, Begun(es, i))
      requires all[saved + 1] == Snapshot(InProgress, Executed(es, i, outcomes))
      modifies this
      ensures es' == Executed(es, i, outcomes) && runs == Files(before, h, all, saved + 2, writes, torn)
    {
      es' := es[i := es[i].(state := Running)];
      SaveRun(h, Snapshot(InProgress, es'), saved, writes, torn, before, all);
      es' := es'[i := Settle(es'[i], OutcomeAt(outcomes, i))];
      assert es' == Executed(es, i, outcomes);
      SaveRun(h, Snapshot(InProgress, es'), saved + 1, writes, torn, before, all);
    }

    /** Lines 3699 to 3890: the experiments in turn, then the status. */
    method WorkThrough(h: Head, start: seq<Experiment>, resume: bool, outcomes: seq<Outcome>, checks: nat, writes: nat,
                       torn: bool, ghost before: seq<Run>, ghost all: seq<Snapshot>)
      requires |all| > 0 && runs == Files(before, h, all, 1, writes, torn)
      requires all[1..] == WritesFrom(start, 0, resume, outcomes, checks)
      modifies this
      ensures runs == Files(before, h, all, |all|, writes, torn)
    {
      var es, i, left, saved := start, 0, checks, 1;
      // the flag is read before each experiment and after each one that ran
      while i < |es| && left > 0
        invariant 0 < saved <= |all| && Ahead(all, saved, es, i, resume, outcomes, left)
        invariant runs == Files(before, h, all, saved, writes, torn)
        decreases |es| - i, left
      {
        if resume && es[i].state == Completed {
          AheadOfSkip(all, saved, es, i, resume, outcomes, left);
          i, left := i + 1, left - 1;
        } else {
          AheadOfRun(all, saved, es, i, resume, outcomes, left);
          es := RunExperiment(h, es, i, outcomes, saved, writes, torn, before, all);
          i, left, saved := if left == 1 then i else i + 1, if left == 1 then 0 else left - 2, saved + 2;
        }
      }
      AheadOfEnd(all, saved, es, i, resume, outcomes, left);
      SaveRun(h, Close(es), saved, writes, torn, before, all);
    }

    /** _plan_execution_thread; the first `writes` saves happen, and the rest of the pass leaves no trace. */
    method ExecutePlan(plan: seq<Experiment>, resume: bool, stamp: nat, now: nat, outcomes: seq<Outcome>, checks: nat,
                       writes: nat, torn: bool)
      modifies this
      ensures runs == AfterPass(old(runs), Pass(plan, resume, stamp, now, outcomes, checks, writes, torn))
    {
      ghost var before, op := runs, Pass(plan, resume, stamp, now, outcomes, checks, writes, torn);
      ghost var all := PassWrites(runs, op);
      var h, es := Head(RunId(runs, resume, stamp), now), plan;
      var place := IndexOf(runs, h.id);
      if resume && place < |runs| {
        if runs[place].Unreadable? {
          return;
        }
        es, h := runs[place].last.experiments, h.(startedAt := runs[place].head.startedAt);
      }
      if !resume {
        es := Reset(es);
      }
      es := UnstickAll(es, ABORTED);
      assert h == HeadOf(before, op) && es == StartFrom(before, op);
      assert all[1..] == WritesFrom(es, 0, resume, outcomes, checks);
      SaveRun(h, Snapshot(InProgress, es), 0, writes, torn, before, all);
      WorkThrough(h, es, resume, outcomes, checks, writes, torn, before, all);
    }

    /** Lines 4105 to 4109: what is stuck is failed; `changed` tells whether the file is written again. */
    method Unstuck(es: seq<Experiment>) returns (es': seq<Experiment>, changed: bool)
      ensures es' == UnstickAll(es, RESTARTED)
      ensures changed <==> exists j | 0 <= j < |es| :: es[j].state == Running
      ensures !changed ==> es' == es
    {
      es', changed := es, false;
      for j := 0 to |es|
        invariant |es'| == |es|
        invariant forall m | 0 <= m < j :: es'[m] == Unstick(es[m], RESTARTED)
        invariant forall m | j <= m < |es| :: es'[m] == es[m]
        invariant changed <==> exists m | 0 <= m < j :: es[m].state == Running
        invariant !changed ==> es' == es
      {
        if es[j].state == Running {
          es', changed := es'[j := es[j].(state := Failed, error := Some(RESTARTED))], true;
        }
      }
    }

    /** _cleanup_stuck_plans, which skips what it cannot read; it may die before or inside the write of run `files`. */
    method CleanupStuckPlans(files: nat, torn: bool)
      modifies this
      ensures runs == AfterCleanup(old(runs), files, torn)
    {
      for k := 0 to |runs|
        invariant |runs| == |old(runs)|
        invariant forall i | 0 <= i < k :: runs[i] == CleanedAt(old(runs), files, torn, i)
        invariant forall i | k <= i < |runs| :: runs[i] == old(runs)[i]
      {
        var r := runs[k];
        if k <= files && r.Run? {
          var es, changed := Unstuck(r.last.experiments);
          if changed && (k < files || torn) {
            runs := runs[k := if k < files then r.(last := r.last.(experiments := es)) else Unreadable(IdOf(r))];
          }
        }
      }
      assert runs == AfterCleanup(old(runs), files, torn);
    }
  }

  // ---------------------------------------------------------------- snapshots

  ghost predicate NoneRunning(es: seq<Experiment>) {
    forall j | 0 <= j < |es| :: es[j].state != Running
  }

  ghost predicate AtMostOneRunning(es: seq<Experiment>) {
    forall j, k | 0 <= j < k < |es| :: es[j].state != Running || es[k].state != Running
  }

  ghost predicate DistinctIds(runs: seq<Run>) {
    forall i, j | 0 <= i < j < |runs| :: IdOf(runs[i]) != IdOf(runs[j])
  }

  ghost predicate SoundRun(r: Run) {
    r.Run? ==> AtMostOneRunning(r.last.experiments)
  }

  ghost predicate Sound(runs: seq<Run>) {
    DistinctIds(runs) && forall r <- runs :: SoundRun(r)
  }

  /** A completed experiment is left exactly as it is. */
  ghost predicate KeepsCompleted(es: seq<Experiment>, es': seq<Experiment>) {
    |es'| == |es| && forall j | 0 <= j < |es| && es[j].state == Completed :: es'[j] == es[j]
  }

  /** The run is still there, with what was completed. */
  ghost predicate StillThere(r: Run, r': Run) {
    r.Run? && r'.Run? && r'.head == r.head && KeepsCompleted(r.last.experiments, r'.last.experiments)
  }

  /** One experiment settled: nothing runs, the others are as they were. */
  lemma {:induction false} ExecutedIsSettled(es: seq<Experiment>, i: nat, outcomes: seq<Outcome>)
    requires i < |es| && NoneRunning(es)
    ensures NoneRunning(Executed(es, i, outcomes)) && AtMostOneRunning(Begun(es, i))
    ensures Settled(Executed(es, i, outcomes)[i])
    ensures forall j | 0 <= j < |es| && j != i :: Executed(es, i, outcomes)[j] == es[j]
    ensures es[i].state != Completed
            ==> KeepsCompleted(es, Begun(es, i)) && KeepsCompleted(es, Executed(es, i, outcomes))
  {
  }

  ghost predicate SoundWrite(es: seq<Experiment>, w: Snapshot, resume: bool) {
    AtMostOneRunning(w.experiments) && (resume ==> KeepsCompleted(es, w.experiments))
  }

  ghost predicate SoundWrites(es: seq<Experiment>, ws: seq<Snapshot>, resume: bool) {
    forall w <- ws :: SoundWrite(es, w, resume)
  }

  lemma {:induction false} SoundFromSettled(es: seq<Experiment>, settled: seq<Experiment>, ws: seq<Snapshot>,
                                            resume: bool)
    requires SoundWrites(settled, ws, resume) && (resume ==> KeepsCompleted(es, settled))
    ensures SoundWrites(es, ws, resume)
  {
    forall w <- ws ensures SoundWrite(es, w, resume) {
      assert SoundWrite(settled, w, resume);
    }
  }

  lemma {:induction false} SoundTogether(es: seq<Experiment>, a: Snapshot, b: Snapshot, rest: seq<Snapshot>,
                                         resume: bool)
    requires SoundWrite(es, a, resume) && SoundWrite(es, b, resume) && SoundWrites(es, rest, resume)
    ensures SoundWrites(es, [a, b] + rest, resume)
  {
  }

  lemma {:induction false} LastOfThree<T>(a: T, b: T, rest: seq<T>)
    requires rest != []
    ensures LastOf([a, b] + rest) == LastOf(rest)
  {
  }

  lemma {:induction false} LastOfTwo<T>(a: T, rest: seq<T>)
    requires rest != []
    ensures LastOf([a] + rest) == LastOf(rest)
  {
  }

  /** From experiment i on, what holds of every write. */
  lemma {:induction false} WritesAreSound(es: seq<Experiment>, i: nat, resume: bool, outcomes: seq<Outcome>,
                                          checks: nat)
    requires i <= |es| && NoneRunning(es)
    ensures SoundWrites(es, WritesFrom(es, i, resume, outcomes, checks), resume)
    decreases |es| - i
  {
    if i == |es| || checks == 0 {
    } else if resume && es[i].state == Completed {
      WritesAreSound(es, i + 1, resume, outcomes, checks - 1);
    } else {
      var begun, settled := Begun(es, i), Executed(es, i, outcomes);
      ExecutedIsSettled(es, i, outcomes);
      var rest := if checks == 1 then [Close(settled)] else WritesFrom(settled, i + 1, resume, outcomes, checks - 2);
      if checks > 1 {
        WritesAreSound(settled, i + 1, resume, outcomes, checks - 2);
      }
      SoundFromSettled(es, settled, rest, resume);
      SoundTogether(es, Snapshot(InProgress, begun), Snapshot(InProgress, settled), rest, resume);
    }
  }

  /** Every snapshot a pass writes has at most one running experiment, and a resumed one keeps every completed one. */
  lemma {:induction false} PassWritesAreSound(runs: seq<Run>, op: Op)
    requires op.Pass?
    ensures forall w <- PassWrites(runs, op) ::
              && AtMostOneRunning(w.experiments)
              && (TakesUp(runs, op) ==> KeepsCompleted(runs[Target(runs, op)].last.experiments, w.experiments))
  {
    if !Refused(runs, op) {
      var es := StartFrom(runs, op);
      WritesAreSound(es, 0, op.resume, op.outcomes, op.checks);
      if TakesUp(runs, op) {
        assert KeepsCompleted(runs[Target(runs, op)].last.experiments, es);
      }
    }
  }

  /** What a pass that is not resumed writes as completed, it has run itself. */
  ghost predicate RunAnew(es: seq<Experiment>, outcomes: seq<Outcome>) {
    forall j | 0 <= j < |es| && es[j].state == Completed ::
        OutcomeAt(outcomes, j).Good? && es[j].result == Some(OutcomeAt(outcomes, j).path)
  }

  ghost predicate AllRunAnew(ws: seq<Snapshot>, outcomes: seq<Outcome>) {
    forall w <- ws :: RunAnew(w.experiments, outcomes)
  }

  lemma {:induction false} ExecutedAnew(es: seq<Experiment>, i: nat, outcomes: seq<Outcome>)
    requires i < |es| && RunAnew(es, outcomes)
    ensures RunAnew(Begun(es, i), outcomes) && RunAnew(Executed(es, i, outcomes), outcomes)
  {
  }

  lemma {:induction false} AnewTogether(a: Snapshot, b: Snapshot, rest: seq<Snapshot>, outcomes: seq<Outcome>)
    requires RunAnew(a.experiments, outcomes) && RunAnew(b.experiments, outcomes) && AllRunAnew(rest, outcomes)
    ensures AllRunAnew([a, b] + rest, outcomes)
  {
  }

  lemma {:induction false} WritesRunAnew(es: seq<Experiment>, i: nat, outcomes: seq<Outcome>, checks: nat)
    requires i <= |es| && RunAnew(es, outcomes)
    ensures AllRunAnew(WritesFrom(es, i, false, outcomes, checks), outcomes)
    decreases |es| - i
  {
    if i < |es| && checks > 0 {
      var begun, settled := Begun(es, i), Executed(es, i, outcomes);
      ExecutedAnew(es, i, outcomes);
      var rest := if checks == 1 then [Close(settled)] else WritesFrom(settled, i + 1, false, outcomes, checks - 2);
      if checks > 1 {
        WritesRunAnew(settled, i + 1, outcomes, checks - 2);
      }
      AnewTogether(Snapshot(InProgress, begun), Snapshot(InProgress, settled), rest, outcomes);
    }
  }

  /** The operation dies inside a write of run i's file. */
  ghost predicate Tears(runs: seq<Run>, op: Op, i: nat) {
    && op.torn
    && if op.Pass? then op.writes < |PassWrites(runs, op)| && i == Target(runs, op)
       else i == op.files < |runs| && IsStuck(runs[i])
  }

  /** A pass that is not a resume starts in the second of run i, and overwrites it. */
  ghost predicate Replaces(runs: seq<Run>, op: Op, i: nat) {
    op.Pass? && !op.resume && op.writes > 0 && i == Target(runs, op) < |runs|
  }

  /**
    One operation: soundness is kept, and so is every run with its completed experiments, but for one whose write is
    torn or that a new pass replaces. A replaced run holds the new pass's results alone.
    */
  lemma {:induction false} OpKeeps(runs: seq<Run>, op: Op)
    requires Sound(runs)
    ensures Sound(After(runs, op)) && |runs| <= |After(runs, op)|
    ensures forall i | 0 <= i < |runs| :: KeptOrLost(runs, op, i, After(runs, op)[i])
    ensures op.Cleanup? && op.files >= |runs| ==>
              forall i | 0 <= i < |runs| && runs[i].Run? ::
                  After(runs, op)[i].Run? && NoneRunning(After(runs, op)[i].last.experiments)
  {
    if op.Pass? {
      PassKeeps(runs, op);
    } else {
      forall i | 0 <= i < |runs| ensures KeptOrLost(runs, op, i, After(runs, op)[i]) {
      }
    }
  }

  /** What the operation makes of run i. */
  ghost predicate KeptOrLost(runs: seq<Run>, op: Op, i: nat, r: Run)
    requires i < |runs|
  {
    && IdOf(r) == IdOf(runs[i])
    && if Tears(runs, op, i) then r.Unreadable?
       else if Replaces(runs, op, i) then
         r.Run? && r.head.startedAt == op.now && RunAnew(r.last.experiments, op.outcomes)
       else if runs[i].Unreadable? then r.Unreadable?
       else StillThere(runs[i], r)
  }

  lemma {:induction false} PutKeeps(runs: seq<Run>, r: Run)
    requires Sound(runs) && SoundRun(r)
    ensures Sound(Put(runs, r)) && |runs| <= |Put(runs, r)|
    ensures forall i | 0 <= i < |runs| :: Put(runs, r)[i] == if i == IndexOf(runs, IdOf(r)) then r else runs[i]
  {
  }

  /** What a pass leaves in the file it writes. */
  function FileOfPass(runs: seq<Run>, op: Op): (r: Run)
    requires op.Pass? && (op.writes > 0 || op.torn) && !Refused(runs, op)
    ensures IdOf(r) == RunId(runs, op.resume, op.stamp)
  {
    if op.torn && op.writes < |PassWrites(runs, op)| then Unreadable(RunId(runs, op.resume, op.stamp))
    else Run(HeadOf(runs, op), LastMade(PassWrites(runs, op), op.writes))
  }

  /** The last of the first `writes` writes of all. */
  function LastMade(all: seq<Snapshot>, writes: nat): (w: Snapshot)
    requires all != [] && writes > 0
    ensures w in all
  {
    all[(if writes < |all| then writes else |all|) - 1]
  }

  lemma {:induction false} FileIsKeptOrLost(runs: seq<Run>, op: Op)
    requires op.Pass? && (op.writes > 0 || op.torn) && !Refused(runs, op)
    ensures SoundRun(FileOfPass(runs, op))
    ensures Target(runs, op) < |runs| ==> KeptOrLost(runs, op, Target(runs, op), FileOfPass(runs, op))
  {
    PassWritesAreSound(runs, op);
    if !op.resume {
      FreshWritesRunAnew(runs, op);
    }
  }

  lemma {:induction false} FreshWritesRunAnew(runs: seq<Run>, op: Op)
    requires op.Pass? && !op.resume
    ensures AllRunAnew(PassWrites(runs, op), op.outcomes)
  {
    WritesRunAnew(StartFrom(runs, op), 0, op.outcomes, op.checks);
  }

  predicate WritesNothing(runs: seq<Run>, op: Op)
    requires op.Pass?
  {
    Refused(runs, op) || (op.writes == 0 && !op.torn)
  }

  lemma {:induction false} PassIsPut(runs: seq<Run>, op: Op)
    requires op.Pass?
    ensures WritesNothing(runs, op) ==> After(runs, op) == runs
    ensures !WritesNothing(runs, op) ==> After(runs, op) == Put(runs, FileOfPass(runs, op))
  {
  }

  lemma {:induction false} OthersAreKept(runs: seq<Run>, op: Op, i: nat)
    requires op.Pass? && i < |runs| && (WritesNothing(runs, op) || i != Target(runs, op))
    ensures KeptOrLost(runs, op, i, runs[i])
  {
  }

  lemma {:induction false} PassKeeps(runs: seq<Run>, op: Op)
    requires Sound(runs) && op.Pass?
    ensures Sound(After(runs, op)) && |runs| <= |After(runs, op)|
    ensures forall i | 0 <= i < |runs| :: KeptOrLost(runs, op, i, After(runs, op)[i])
  {
    PassIsPut(runs, op);
    if !WritesNothing(runs, op) {
      FileIsKeptOrLost(runs, op);
      PutKeeps(runs, FileOfPass(runs, op));
    }
    forall i | 0 <= i < |runs| ensures KeptOrLost(runs, op, i, After(runs, op)[i]) {
      if WritesNothing(runs, op) || i != Target(runs, op) {
        OthersAreKept(runs, op, i);
      }
    }
  }

  /** Over any sequence of passes, crashes, torn writes, cleanups and resumes. */
  lemma {:induction false} HistoryIsSound(ops: seq<Op>)
    ensures Sound(AfterAll([], ops))
  {
    if ops != [] {
      HistoryIsSound(ops[..|ops| - 1]);
      OpKeeps(AfterAll([], ops[..|ops| - 1]), ops[|ops| - 1]);
    }
  }

  /** The operation dies inside a write of run i's file, or replaces it. */
  ghost predicate Loses(runs: seq<Run>, op: Op, i: nat) {
    Tears(runs, op, i) || Replaces(runs, op, i)
  }

  /** Some operation of a history does. */
  ghost predicate LostIn(runs: seq<Run>, ops: seq<Op>, i: nat) {
    ops != [] &&
    var front := ops[..|ops| - 1];
    LostIn(runs, front, i) || Loses(AfterAll(runs, front), ops[|front|], i)
  }

  /**
    Whatever follows, a run keeps its completed experiments with their results, which are never run again, unless some
    operation dies inside a write of its file or a new pass starts in its second.
    */
  lemma {:induction false} CompletedForEver(runs: seq<Run>, ops: seq<Op>, i: nat)
    requires Sound(runs) && i < |runs| && runs[i].Run?
    ensures Sound(AfterAll(runs, ops)) && i < |AfterAll(runs, ops)|
    ensures !LostIn(runs, ops, i) ==> StillThere(runs[i], AfterAll(runs, ops)[i])
  {
    if ops != [] {
      var before, op := AfterAll(runs, ops[..|ops| - 1]), ops[|ops| - 1];
      CompletedForEver(runs, ops[..|ops| - 1], i);
      OpKeeps(before, op);
      assert KeptOrLost(before, op, i, After(before, op)[i]);
    }
  }

  /** Exactly then: as long as no pass is given the very time the run was started at, it is still there or was lost. */
  lemma {:induction false} LostIff(runs: seq<Run>, ops: seq<Op>, i: nat)
    requires Sound(runs) && i < |runs| && runs[i].Run?
    requires forall k | 0 <= k < |ops| && ops[k].Pass? :: ops[k].now != runs[i].head.startedAt
    ensures i < |AfterAll(runs, ops)|
    ensures StillThere(runs[i], AfterAll(runs, ops)[i]) <==> !LostIn(runs, ops, i)
    ensures LostIn(runs, ops, i) ==> AfterAll(runs, ops)[i].Unreadable? || AfterAll(runs, ops)[i].head != runs[i].head
  {
    CompletedForEver(runs, ops, i);
    if ops != [] {
      var before, op := AfterAll(runs, ops[..|ops| - 1]), ops[|ops| - 1];
      CompletedForEver(runs, ops[..|ops| - 1], i);
      LostIff(runs, ops[..|ops| - 1], i);
      OpKeeps(before, op);
      assert KeptOrLost(before, op, i, After(before, op)[i]);
    }
  }

  /** A resume writes the very file of the run it takes up. */
  lemma {:induction false} ResumeFindsIt(runs: seq<Run>, op: Op)
    requires DistinctIds(runs) && op.Pass? && op.resume && LatestResumable(runs).Some?
    ensures Target(runs, op) == LatestResumable(runs).value
  {
    FoundAt(runs, RunId(runs, op.resume, op.stamp), LatestResumable(runs).value);
  }

  // ---------------------------------------------------------------- the end of a pass

  predicate Settled(e: Experiment) {
    e.state == Completed || e.state == Failed
  }

  lemma {:induction false} CountZero(es: seq<Experiment>, state: ExpState)
    ensures Count(es, state) == 0 <==> forall j | 0 <= j < |es| :: es[j].state != state
  {
    if es != [] {
      CountZero(es[..|es| - 1], state);
    }
  }

  lemma {:induction false} CountsMakeTotal(es: seq<Experiment>)
    requires forall j | 0 <= j < |es| :: Settled(es[j])
    ensures Count(es, Completed) + Count(es, Failed) == |es|
  {
    if es != [] {
      CountsMakeTotal(es[..|es| - 1]);
    }
  }

  /** The status a finished pass stores says whether anything failed, and nothing about what never ran. */
  lemma {:induction false} StatusMeansNoFailure(es: seq<Experiment>)
    ensures Close(es).status == Done <==> forall j | 0 <= j < |es| :: es[j].state != Failed
    ensures Close(es).status != InProgress
  {
    CountZero(es, Failed);
  }

  /** The experiments as the last write has them. */
  function Final(es: seq<Experiment>, i: nat, resume: bool, outcomes: seq<Outcome>,
                 checks: nat): (last: seq<Experiment>)
    requires i <= |es|
    ensures |last| == |es|
    decreases |es| - i
  {
    if i == |es| || checks == 0 then es
    else if resume && es[i].state == Completed then Final(es, i + 1, resume, outcomes, checks - 1)
    else if checks == 1 then Executed(es, i, outcomes)
    else Final(Executed(es, i, outcomes), i + 1, resume, outcomes, checks - 2)
  }

  function LastOf<T>(ws: seq<T>): T
    requires ws != []
  {
    ws[|ws| - 1]
  }

  lemma {:induction false} LastWrite(es: seq<Experiment>, i: nat, resume: bool, outcomes: seq<Outcome>, checks: nat)
    requires i <= |es|
    ensures LastOf(WritesFrom(es, i, resume, outcomes, checks)) == Close(Final(es, i, resume, outcomes, checks))
    decreases |es| - i
  {
    if i == |es| || checks == 0 {
    } else if resume && es[i].state == Completed {
      LastWrite(es, i + 1, resume, outcomes, checks - 1);
    } else {
      var settled := Executed(es, i, outcomes);
      if checks == 1 {
        LastOfThree(Snapshot(InProgress, Begun(es, i)), Snapshot(InProgress, settled), [Close(settled)]);
      } else {
        var rest := WritesFrom(settled, i + 1, resume, outcomes, checks - 2);
        LastOfThree(Snapshot(InProgress, Begun(es, i)), Snapshot(InProgress, settled), rest);
        LastWrite(settled, i + 1, resume, outcomes, checks - 2);
      }
    }
  }

  lemma {:induction false} FinalIsSettled(es: seq<Experiment>, i: nat, resume: bool, outcomes: seq<Outcome>,
                                          checks: nat)
    requires i <= |es| && NoneRunning(es)
    requires forall j | 0 <= j < i :: Settled(es[j])
    ensures var last := Final(es, i, resume, outcomes, checks);
            NoneRunning(last) && (checks >= 2 * (|es| - i) ==> forall j | 0 <= j < |es| :: Settled(last[j]))
    decreases |es| - i
  {
    if i == |es| || checks == 0 {
    } else if resume && es[i].state == Completed {
      FinalIsSettled(es, i + 1, resume, outcomes, checks - 1);
    } else {
      ExecutedIsSettled(es, i, outcomes);
      if checks > 1 {
        FinalIsSettled(Executed(es, i, outcomes), i + 1, resume, outcomes, checks - 2);
      }
    }
  }

  /**
    A pass that writes its last snapshot leaves no experiment running, and its status is "completed" exactly
    when none failed. When it was not aborted, every experiment is settled, the two counts make the total, and
    the status is "completed" exactly when every experiment completed.
    */
  lemma {:induction false} FinishedPass(runs: seq<Run>, op: Op)
    requires op.Pass? && !Refused(runs, op) && op.writes >= |PassWrites(runs, op)|
    ensures Target(runs, op) < |After(runs, op)| && After(runs, op)[Target(runs, op)].Run?
    ensures var last := After(runs, op)[Target(runs, op)].last;
            var es := last.experiments;
            && NoneRunning(es) && last.status != InProgress
            && (last.status == Done <==> forall j | 0 <= j < |es| :: es[j].state != Failed)
            && (op.checks >= 2 * |es| ==>
                  && Count(es, Completed) + Count(es, Failed) == |es|
                  && (last.status == Done <==> forall j | 0 <= j < |es| :: es[j].state == Completed))
  {
    var last := LastOfPass(runs, op);
    StatusMeansNoFailure(last);
    if op.checks >= 2 * |last| {
      CountsMakeTotal(last);
    }
  }

  lemma {:induction false} LastSaved(runs: seq<Run>, op: Op)
    requires op.Pass? && !Refused(runs, op) && op.writes >= |PassWrites(runs, op)|
    ensures Target(runs, op) < |After(runs, op)|
    ensures After(runs, op)[Target(runs, op)] == Run(HeadOf(runs, op), LastOf(PassWrites(runs, op)))
  {
  }

  lemma {:induction false} LastOfPass(runs: seq<Run>, op: Op) returns (last: seq<Experiment>)
    requires op.Pass? && !Refused(runs, op) && op.writes >= |PassWrites(runs, op)|
    ensures last == Final(StartFrom(runs, op), 0, op.resume, op.outcomes, op.checks)
    ensures Target(runs, op) < |After(runs, op)|
    ensures After(runs, op)[Target(runs, op)] == Run(HeadOf(runs, op), Close(last))
    ensures NoneRunning(last) && (op.checks >= 2 * |last| ==> forall j | 0 <= j < |last| :: Settled(last[j]))
  {
    var es := StartFrom(runs, op);
    last := Final(es, 0, op.resume, op.outcomes, op.checks);
    LastSaved(runs, op);
    LastOfTwo(Snapshot(InProgress, es), WritesFrom(es, 0, op.resume, op.outcomes, op.checks));
    LastWrite(es, 0, op.resume, op.outcomes, op.checks);
    FinalIsSettled(es, 0, op.resume, op.outcomes, op.checks);
  }

  // ---------------------------------------------------------------- a pass stored as completed too early

  /** How many experiments a pass comes to, the flag being found set `checks` times. */
  function Reached(es: seq<Experiment>, i: nat, resume: bool, checks: nat): (m: nat)
    requires i <= |es|
    ensures i <= m <= |es|
    decreases |es| - i
  {
    if i == |es| || checks == 0 then i
    else if resume && es[i].state == Completed then Reached(es, i + 1, resume, checks - 1)
    else if checks == 1 then i + 1
    else Reached(es, i + 1, resume, checks - 2)
  }

  lemma {:induction false} ReachedFromTail(es: seq<Experiment>, es': seq<Experiment>, i: nat, resume: bool, checks: nat)
    requires i <= |es| == |es'| && forall j | i <= j < |es| :: es[j] == es'[j]
    ensures Reached(es, i, resume, checks) == Reached(es', i, resume, checks)
    decreases |es| - i
  {
    if i < |es| && checks > 0 {
      if resume && es[i].state == Completed {
        ReachedFromTail(es, es', i + 1, resume, checks - 1);
      } else if checks > 1 {
        ReachedFromTail(es, es', i + 1, resume, checks - 2);
      }
    }
  }

  /** Experiment j at the end of a pass: run and settled if the pass came to it and did not skip it. */
  lemma {:induction false} FinalAt(es: seq<Experiment>, i: nat, resume: bool, outcomes: seq<Outcome>, checks: nat,
                                   j: nat)
    requires i <= |es| && j < |es|
    ensures Final(es, i, resume, outcomes, checks)[j]
         == if i <= j < Reached(es, i, resume, checks) && !(resume && es[j].state == Completed)
            then Settle(es[j].(state := Running), OutcomeAt(outcomes, j)) else es[j]
    decreases |es| - i
  {
    if i < |es| && checks > 0 {
      if resume && es[i].state == Completed {
        FinalAt(es, i + 1, resume, outcomes, checks - 1, j);
      } else if checks > 1 {
        var settled := Executed(es, i, outcomes);
        FinalAt(settled, i + 1, resume, outcomes, checks - 2, j);
        ReachedFromTail(es, settled, i + 1, resume, checks - 2);
      }
    }
  }

  /** The experiment is skipped as completed, or completes. */
  predicate GoesWell(e: Experiment, resume: bool, o: Outcome) {
    (resume && e.state == Completed) || o.Good?
  }

  /** What a pass must be given to be stored as "completed" with something not completed. */
  ghost predicate EndsTooEarly(es: seq<Experiment>, resume: bool, outcomes: seq<Outcome>, checks: nat) {
    var m := Reached(es, 0, resume, checks);
    && (forall j | 0 <= j < m :: GoesWell(es[j], resume, OutcomeAt(outcomes, j)))
    && (forall j | m <= j < |es| :: es[j].state != Failed)
    && (exists j | m <= j < |es| :: es[j].state == Pending)
  }

  ghost predicate DoneButNotAll(s: Snapshot) {
    s.status == Done && exists j | 0 <= j < |s.experiments| :: s.experiments[j].state != Completed
  }

  lemma {:induction false} FinalEndsTooEarly(es: seq<Experiment>, resume: bool, outcomes: seq<Outcome>, checks: nat)
    requires NoneRunning(es)
    ensures DoneButNotAll(Close(Final(es, 0, resume, outcomes, checks))) <==> EndsTooEarly(es, resume, outcomes, checks)
  {
    var last, m := Final(es, 0, resume, outcomes, checks), Reached(es, 0, resume, checks);
    StatusMeansNoFailure(last);
    forall j | 0 <= j < |es|
      ensures last[j].state == if j >= m then es[j].state
                               else if GoesWell(es[j], resume, OutcomeAt(outcomes, j)) then Completed else Failed
    {
      FinalAt(es, 0, resume, outcomes, checks, j);
    }
  }

  /**
    The exact failure: a pass that writes its last snapshot is stored as "completed" with something not completed if and
    only if everything it came to went well, nothing after that had failed before, and something after that never ran.
    No resume takes such a run up again.
    */
  lemma {:induction false} WronglyDoneIff(runs: seq<Run>, op: Op)
    requires op.Pass? && !Refused(runs, op) && op.writes >= |PassWrites(runs, op)|
    ensures Target(runs, op) < |After(runs, op)| && After(runs, op)[Target(runs, op)].Run?
    ensures var r, es := After(runs, op)[Target(runs, op)], StartFrom(runs, op);
            && (DoneButNotAll(r.last) <==> EndsTooEarly(es, op.resume, op.outcomes, op.checks))
            && (DoneButNotAll(r.last) ==> !Resumable(r))
  {
    var last := LastOfPass(runs, op);
    FinalEndsTooEarly(StartFrom(runs, op), op.resume, op.outcomes, op.checks);
  }

  lemma {:induction false} AbortedWrites(runs: seq<Run>, op: Op)
    requires op.Pass? && !Refused(runs, op) && op.checks == 0
    ensures var es := StartFrom(runs, op);
            PassWrites(runs, op) == [Snapshot(InProgress, es), Close(es)]
  {
  }

  /** A new run stopped before its first experiment: it is stored as "completed", with nothing run, and not resumed. */
  lemma {:induction false} AbortedRunStoredAsCompleted(runs: seq<Run>, op: Op)
    requires op.Pass? && !op.resume && op.checks == 0 && op.writes >= 2
    ensures var r := Run(Head(op.stamp, op.now), Snapshot(Done, Reset(op.plan)));
            After(runs, op) == Put(runs, r) && !Resumable(r)
  {
    var es := Reset(op.plan);
    assert StartFrom(runs, op) == es;
    AbortedWrites(runs, op);
    PassIsPut(runs, op);
    StatusMeansNoFailure(es);
  }

  lemma {:induction false} LatestOfOne(r: Run)
    ensures LatestResumable([r]) == if Resumable(r) then Some(0) else None
  {
    assert LatestResumable([r][..0]) == None;
  }

  // ---------------------------------------------------------------- two ways to lose a run

  /** A run that is resumed, lost to a death inside the first save. */
  lemma {:induction false} TornRunIsLost(plan: seq<Experiment>, r: Run, stamp: nat, now: nat)
    requires Resumable(r)
    ensures After([r], Pass(plan, true, stamp, now, [], 0, 0, true)) == [Unreadable(r.head.id)]
  {
    LatestOfOne(r);
  }

  /** A run of one completed experiment, and a second run of the plan that starts in the same second. */
  lemma {:induction false} SameSecondIsLost(plan: seq<Experiment>, r: Run, path: string, now: nat)
    requires r.Run? && r.last == Snapshot(Done, [Experiment(Completed, Some(path), None)]) && |plan| == 1
    ensures After([r], Pass(plan, false, r.head.id, now, [], 0, 1, false))
         == [Run(Head(r.head.id, now), Snapshot(InProgress, [Experiment(Pending, None, None)]))]
  {
    var op := Pass(plan, false, r.head.id, now, [], 0, 1, false);
    assert StartFrom([r], op) == [Experiment(Pending, None, None)];
  }
}
