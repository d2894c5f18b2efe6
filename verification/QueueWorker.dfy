/**
  The run queue of 5g-probe/probe/application.py: a worker thread that runs each queued plan its
  number of times, while REST and socket handlers may replace or clear the queue between any two
  of the worker's lock sections. A state is what the module's globals and the worker's locals hold;
  a run is any sequence of worker and handler steps.

  Queue items are dictionaries that the worker mutates and compares by identity, so an item here is
  a place in `items`, which only grows: every queue that a handler sets gets places of its own.
  */
module QueueWorker {
  import opened Numbers

  datatype Item = Item(plan: string, repeat: int, completed: int)

  type Id = nat

  /** What a progress message tells the browser. */
  datatype Report = Report(position: nat, total: nat)

  /** Where the worker is, with the locals it holds there; each is followed by one atomic step. */
  datatype Pc =
    | Idle                                       // no worker thread
    | Check                                      // the while condition
    | Pick                                       // first lock section
    | Fetched(item: Id)                          // item chosen, lock released
    | Skip(item: Id)                             // lock section that drops an exhausted item
    | Tell(item: Id, repeat: int, done: int)     // reads the queue's length and reports
    | Run(item: Id, repeat: int, done: int)      // the plan runs
    | Mark(item: Id, repeat: int, done: int)     // item["_completed"] = done + 1
    | Pop(item: Id)                              // lock section that drops a finished item
    | Recheck                                    // the flag again, then the delay
    | Leave                                      // the finally block

  datatype State = State(
    queue: seq<Id>,
    items: seq<Item>,
    arrived: seq<int>,          // `_completed` of each item when it was queued
    running: bool,              // _queue_running
    pc: Pc,
    idx: nat,                   // queue_idx
    ran: seq<Id>,               // plans run so far, in order
    reports: seq<Report>)

  datatype Action =
    | Work                      // the worker's next step
    | Start                     // start_queue
    | SetQueue(items: seq<Item>)
    | ClearQueue                // clear_queue and stop_queue take the queue away ...
    | ClearFlag                 // ... and the flag, in steps of their own
    | Fail                      // an exception in the worker; marking a repeat raises none

  /** `if _run_queue and _run_queue[0] is item: _run_queue.pop(0)` */
  function PopIfHead(queue: seq<Id>, item: Id): seq<Id> {
    if queue != [] && queue[0] == item then queue[1..] else queue
  }

  function WorkStep(s: State): State {
    match s.pc
    case Idle => s
    case Check => s.(pc := if s.running then Pick else Leave)
    case Pick => s.(pc := if s.queue == [] then Leave else Fetched(s.queue[0]))
    case Fetched(item) =>
      if item >= |s.items| then s else
      var it := s.items[item];
      s.(pc := if it.completed >= it.repeat then Skip(item) else Tell(item, it.repeat, it.completed))
    case Skip(item) => s.(queue := PopIfHead(s.queue, item), pc := Check)
    case Tell(item, repeat, done) =>
      s.(reports := s.reports + [Report(s.idx + 1, |s.queue| + s.idx)], pc := Run(item, repeat, done))
    case Run(item, repeat, done) => s.(ran := s.ran + [item], pc := Mark(item, repeat, done))
    case Mark(item, repeat, done) =>
      if item >= |s.items| then s else
      s.(items := s.items[item := s.items[item].(completed := done + 1)],
         pc := if done + 1 >= repeat then Pop(item) else Recheck)
    case Pop(item) => s.(queue := PopIfHead(s.queue, item), idx := s.idx + 1, pc := Recheck)
    case Recheck => s.(pc := if s.running then Check else Leave)
    case Leave => s.(running := false, pc := Idle)
  }

  /** The ids of `n` new items, after all those named so far. */
  function NewIds(first: nat, n: nat): (ids: seq<Id>)
    ensures |ids| == n && forall i | 0 <= i < n :: ids[i] == first + i
  {
    seq(n, i requires 0 <= i => first + i)
  }

  function CompletedOf(items: seq<Item>): (r: seq<int>)
    ensures |r| == |items| && forall i | 0 <= i < |items| :: r[i] == items[i].completed
  {
    seq(|items|, i requires 0 <= i < |items| => items[i].completed)
  }

  function SetStep(s: State, items: seq<Item>): State {
    s.(queue := NewIds(|s.items|, |items|), items := s.items + items, arrived := s.arrived + CompletedOf(items))
  }

  function Next(s: State, a: Action): State {
    match a
    case Work => WorkStep(s)
    case Start => if s.pc == Idle && s.queue != [] && !s.running then s.(running := true, idx := 0, pc := Check) else s
    case SetQueue(items) => SetStep(s, items)
    case ClearQueue => s.(queue := [])
    case ClearFlag => s.(running := false)
    case Fail => if s.pc == Idle || s.pc.Mark? then s else s.(pc := Leave)
  }

  function Exec(s: State, actions: seq<Action>): State {
    if actions == [] then s else Next(Exec(s, actions[..|actions| - 1]), actions[|actions| - 1])
  }

  const INITIAL := State([], [], [], false, Idle, 0, [], [])

  // ---------------------------------------------------------------- what every run keeps

  function Occurrences(ran: seq<Id>, id: Id): nat {
    if ran == [] then 0
    else Occurrences(ran[..|ran| - 1], id) + if ran[|ran| - 1] == id then 1 else 0
  }

  /** Runs accounted for: one per unit of `_completed`, and one more between the run and the mark. */
  ghost predicate Accounted(s: State, id: Id)
    requires id < |s.items| == |s.arrived|
  {
    var it := s.items[id];
    && s.arrived[id] + Occurrences(s.ran, id) == it.completed + (if s.pc.Mark? && s.pc.item == id then 1 else 0)
    && it.completed <= MaxInt(s.arrived[id], it.repeat)
  }

  ghost predicate Inv(s: State) {
    && |s.arrived| == |s.items|
    && (forall i | 0 <= i < |s.queue| :: s.queue[i] < |s.items|)
    && (forall i, j | 0 <= i < j < |s.queue| :: s.queue[i] != s.queue[j])
    && (forall i | 0 <= i < |s.ran| :: s.ran[i] < |s.items|)
    && PcInv(s)
  }

  /** The worker's locals agree with the item it holds, whatever became of the queue. */
  ghost predicate PcInv(s: State) {
    match s.pc
    case Fetched(item) => item < |s.items|
    case Skip(item) => item < |s.items| && s.items[item].completed >= s.items[item].repeat
    case Tell(item, repeat, done) =>
      item < |s.items| && s.items[item].completed == done < repeat == s.items[item].repeat
    case Run(item, repeat, done) => item < |s.items| && s.items[item].completed == done < repeat == s.items[item].repeat
    case Mark(item, repeat, done) =>
      item < |s.items| && s.items[item].completed == done < repeat == s.items[item].repeat
    case Pop(item) => item < |s.items| && s.items[item].completed >= s.items[item].repeat
    case _ => true
  }

  lemma {:induction false} InvKept(s: State, a: Action)
    requires Inv(s)
    ensures Inv(Next(s, a))
  {
    match a
    case Work => WorkKeepsInv(s);
    case SetQueue(items) => SetKeepsInv(s, items);
    case _ =>
  }

  lemma {:induction false} WorkKeepsPc(s: State)
    requires Inv(s)
    ensures PcInv(WorkStep(s)) && |WorkStep(s).items| == |s.items| == |WorkStep(s).arrived|
  {
  }

  lemma {:induction false} WorkKeepsInv(s: State)
    requires Inv(s)
    ensures Inv(WorkStep(s))
  {
    var s' := WorkStep(s);
    WorkKeepsPc(s);
    assert s'.queue == s.queue || (s.queue != [] && s'.queue == s.queue[1..]);
    assert s'.ran == s.ran || (s.pc.Run? && s'.ran == s.ran + [s.pc.item]);
  }

  lemma {:induction false} SetKeepsInv(s: State, items: seq<Item>)
    requires Inv(s)
    ensures Inv(SetStep(s, items))
  {
    var s' := SetStep(s, items);
    assert forall id | 0 <= id < |s.items| :: s'.items[id] == s.items[id];
    assert PcInv(s');
  }

  lemma {:induction false} NoOccurrence(ran: seq<Id>, id: Id)
    requires forall i | 0 <= i < |ran| :: ran[i] != id
    ensures Occurrences(ran, id) == 0
  {
    if ran != [] {
      NoOccurrence(ran[..|ran| - 1], id);
    }
  }

  lemma {:induction false} OccurrencesAppend(ran: seq<Id>, last: Id, id: Id)
    ensures Occurrences(ran + [last], id) == Occurrences(ran, id) + if last == id then 1 else 0
  {
    assert (ran + [last])[..|ran|] == ran;
  }

  lemma {:induction false} AccountedKept(s: State, a: Action, id: Id)
    requires Inv(s) && Inv(Next(s, a)) && id < |Next(s, a).items|
    requires id < |s.items| ==> Accounted(s, id)
    ensures Accounted(Next(s, a), id)
  {
    if id >= |s.items| {
      NoOccurrence(s.ran, id);
    } else if a == Work {
      WorkAccounts(s, id);
    }
  }

  lemma {:induction false} WorkAccounts(s: State, id: Id)
    requires Inv(s) && id < |s.items| && Accounted(s, id)
    ensures |WorkStep(s).items| == |s.items| == |WorkStep(s).arrived| && Accounted(WorkStep(s), id)
  {
    if s.pc.Run? {
      OccurrencesAppend(s.ran, s.pc.item, id);
    }
  }

  lemma {:induction false} InvAlways(actions: seq<Action>)
    ensures Inv(Exec(INITIAL, actions))
  {
    if actions != [] {
      InvAlways(actions[..|actions| - 1]);
      InvKept(Exec(INITIAL, actions[..|actions| - 1]), actions[|actions| - 1]);
    }
  }

  lemma {:induction false} AccountedAlways(actions: seq<Action>, id: Id)
    requires Inv(Exec(INITIAL, actions)) && id < |Exec(INITIAL, actions).items|
    ensures Accounted(Exec(INITIAL, actions), id)
  {
    if actions != [] {
      var before := actions[..|actions| - 1];
      InvAlways(before);
      if id < |Exec(INITIAL, before).items| {
        AccountedAlways(before, id);
      }
      AccountedKept(Exec(INITIAL, before), actions[|actions| - 1], id);
    }
  }

  /** Why a step takes an item out of the queue. */
  ghost predicate Leaves(s: State, a: Action, id: Id) {
    || a.SetQueue? || a == ClearQueue
    || (&& a == Work && (s.pc == Skip(id) || s.pc == Pop(id))
        && s.queue != [] && s.queue[0] == id && Next(s, a).queue == s.queue[1..]
        && id < |s.items| == |s.arrived|
        && Occurrences(s.ran, id) == MaxInt(0, s.items[id].repeat - s.arrived[id]))
  }

  lemma {:induction false} WhyItLeaves(s: State, a: Action, id: Id)
    requires Inv(s) && id in s.queue && id !in Next(s, a).queue
    requires id < |s.items| ==> Accounted(s, id)
    ensures Leaves(s, a, id)
  {
    if a == Work {
      assert s.queue == [s.queue[0]] + s.queue[1..];
    }
  }

  /**
    Whatever the interleaving: an item leaves the queue because a handler replaced or cleared the queue, or
    because the worker drops the very item it holds, at the head; and then it has run exactly as often as
    it still had to when it was queued. A queue set meanwhile is never popped on behalf of an older item.
    */
  lemma {:induction false} WhyItemsLeave(actions: seq<Action>, a: Action, id: Id)
    requires id in Exec(INITIAL, actions).queue && id !in Next(Exec(INITIAL, actions), a).queue
    ensures Leaves(Exec(INITIAL, actions), a, id)
  {
    var s := Exec(INITIAL, actions);
    InvAlways(actions);
    if id < |s.items| {
      AccountedAlways(actions, id);
    }
    WhyItLeaves(s, a, id);
  }

  /** A step that no replace or clear makes takes at most the first item. */
  lemma {:induction false} QueueAfterStep(s: State, a: Action)
    requires !a.SetQueue? && a != ClearQueue
    ensures var q := Next(s, a).queue; q == s.queue || (s.queue != [] && q == s.queue[1..])
  {
  }

  /** Replaces and clears aside, whatever happens, what is left of the queue is its end, in order. */
  lemma {:induction false} WorkerKeepsOrder(s: State, actions: seq<Action>) returns (gone: nat)
    requires forall i | 0 <= i < |actions| :: !actions[i].SetQueue? && actions[i] != ClearQueue
    ensures gone <= |s.queue| && Exec(s, actions).queue == s.queue[gone..]
  {
    if actions == [] {
      gone := 0;
    } else {
      var n := |actions| - 1;
      gone := WorkerKeepsOrder(s, actions[..n]);
      var before := Exec(s, actions[..n]);
      QueueAfterStep(before, actions[n]);
      if Exec(s, actions).queue != before.queue {
        gone := gone + 1;
      }
    }
  }
}
