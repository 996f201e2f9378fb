/** The background worker of the g1 node: a queue guarded by a mutex, one worker thread that
    sleeps on a condition variable, any number of pushing threads, and a destructor that stops,
    drains and joins.  Each step below is one section executed under the mutex, or one notify. */
module Worker {

  /** Where the worker thread is: about to evaluate the wait predicate, asleep in the wait,
      running the handler outside the lock, or returned. */
  datatype WorkerPc<T> = Checking | Asleep | Handling(item: T) | Returned

  datatype DestructorPc = NotStarted | StopSet | Notified | Joined

  /** q and stop are the fields of the class.  owed counts the pushes that have released the lock
      but not yet called notify_one.  pushed and handled are histories; before is the number of
      items pushed when stop was set. */
  datatype State<T> = State(q: seq<T>, stop: bool, worker: WorkerPc<T>, destructor: DestructorPc,
    owed: nat, pushed: seq<T>, handled: seq<T>, before: nat)

  // ---- The steps ----

  datatype Step<T> = Push(v: T) | NotifyOne | Check | Handle | Wake | SetStop | NotifyAll | Join

  predicate Enabled<T>(s: State<T>, a: Step<T>) {
    match a
    case Push(_) => true
    case NotifyOne => s.owed > 0
    case Check => s.worker.Checking?
    case Handle => s.worker.Handling?
    case Wake => s.worker.Asleep?
    case SetStop => s.destructor.NotStarted?
    case NotifyAll => s.destructor.StopSet?
    case Join => s.destructor.Notified? && s.worker.Returned?
  }

  function Woken<T>(w: WorkerPc<T>): WorkerPc<T> {
    if w.Asleep? then Checking else w
  }

  /** Evaluate the wait predicate: sleep, return, or take the front item. */
  function CheckStep<T>(s: State<T>): State<T> {
    if !s.stop && s.q == [] then s.(worker := Asleep)
    else if s.q == [] then s.(worker := Returned)
    else s.(worker := Handling(s.q[0]), q := s.q[1..])
  }

  function Next<T>(s: State<T>, a: Step<T>): State<T>
    requires Enabled(s, a)
  {
    match a
    case Push(v) => s.(q := s.q + [v], pushed := s.pushed + [v], owed := s.owed + 1)
    case NotifyOne => s.(owed := s.owed - 1, worker := Woken(s.worker))
    case Check => CheckStep(s)
    case Handle => s.(handled := s.handled + [s.worker.item], worker := Checking)
    case Wake => s.(worker := Checking)
    case SetStop => s.(stop := true, destructor := StopSet, before := |s.pushed|)
    case NotifyAll => s.(destructor := Notified, worker := Woken(s.worker))
    case Join => s.(destructor := Joined)
  }

  function Start<T>(): State<T> {
    State([], false, Checking, NotStarted, 0, [], [], 0)
  }

  ghost predicate CanRun<T>(s: State<T>, steps: seq<Step<T>>)
    decreases |steps|
  {
    steps == [] || (Enabled(s, steps[0]) && CanRun(Next(s, steps[0]), steps[1..]))
  }

  ghost function Run<T>(s: State<T>, steps: seq<Step<T>>): State<T>
    requires CanRun(s, steps)
    decreases |steps|
  {
    if steps == [] then s else Run(Next(s, steps[0]), steps[1..])
  }

  // ---- What every step keeps ----

  function InHand<T>(w: WorkerPc<T>): seq<T> {
    if w.Handling? then [w.item] else []
  }

  /** A sleeping worker that has something to do is about to be notified. */
  predicate NoLostWakeup<T(==)>(s: State<T>) {
    s.worker.Asleep? && (s.stop || s.q != []) ==> s.owed > 0 || s.destructor.StopSet?
  }

  ghost predicate Inv<T>(s: State<T>) {
    && s.pushed == s.handled + InHand(s.worker) + s.q
    && NoLostWakeup(s)
    && (s.stop <==> !s.destructor.NotStarted?)
    && s.before <= |s.pushed|
    && (s.worker.Returned? ==> s.stop && s.before <= |s.handled|)
    && (s.destructor.Joined? ==> s.worker.Returned?)
  }

  /** No step loses, doubles or reorders an item. */
  lemma NextConserves<T>(s: State<T>, a: Step<T>)
    requires s.pushed == s.handled + InHand(s.worker) + s.q && Enabled(s, a)
    ensures var t := Next(s, a);
            t.pushed == t.handled + InHand(t.worker) + t.q && s.handled <= t.handled && s.pushed <= t.pushed
  {
    if a.Check? && s.q != [] {
      assert s.q == [s.q[0]] + s.q[1..];
    }
  }

  lemma NextKeepsInv<T>(s: State<T>, a: Step<T>)
    requires Inv(s) && Enabled(s, a)
    ensures Inv(Next(s, a)) && s.handled <= Next(s, a).handled && s.pushed <= Next(s, a).pushed
  {
    NextConserves(s, a);
  }

  lemma {:induction false} RunKeepsInv<T>(s: State<T>, steps: seq<Step<T>>)
    requires Inv(s) && CanRun(s, steps)
    ensures Inv(Run(s, steps)) && s.handled <= Run(s, steps).handled
    decreases |steps|
  {
    if steps != [] {
      NextKeepsInv(s, steps[0]);
      RunKeepsInv(Next(s, steps[0]), steps[1..]);
    }
  }

  /** In every interleaving: the handled items are a prefix of the pushed ones, a worker that
      sleeps with work or a stop request still has a notify coming, and once the destructor has
      joined, everything pushed before it began was handled, once and in order. */
  lemma {:induction false} EveryRun<T>(steps: seq<Step<T>>)
    requires CanRun(Start(), steps)
    ensures var s := Run(Start(), steps);
      && s.handled <= s.pushed
      && (s.worker.Asleep? && (s.stop || s.q != []) ==> s.owed > 0 || s.destructor.StopSet?)
      && s.before <= |s.pushed| && (s.destructor.Joined? ==> s.pushed[..s.before] <= s.handled)
  {
    RunKeepsInv(Start(), steps);
  }

  // ---- What the histories are ----

  /** at lists the positions of the pushes among the steps, in order. */
  ghost predicate PushPositions<T>(at: seq<nat>, steps: seq<Step<T>>) {
    && (forall j :: 0 <= j < |at| ==> at[j] < |steps| && steps[at[j]].Push?)
    && (forall i, j :: 0 <= i < j < |at| ==> at[i] < at[j])
    && (forall i :: 0 <= i < |steps| && steps[i].Push? ==> i in at)
  }

  ghost function PushesAt<T>(steps: seq<Step<T>>): seq<nat> {
    if steps == [] then []
    else
      var k := |steps| - 1;
      PushesAt(steps[..k]) + if steps[k].Push? then [k] else []
  }

  lemma {:induction false} PushesAtArePositions<T>(steps: seq<Step<T>>)
    ensures PushPositions(PushesAt(steps), steps)
  {
    if steps != [] {
      var k := |steps| - 1;
      PushesAtArePositions(steps[..k]);
      NextPosition(PushesAt(steps[..k]), steps, k);
    }
  }

  lemma NextPosition<T>(at: seq<nat>, steps: seq<Step<T>>, k: nat)
    requires k == |steps| - 1 && PushPositions(at, steps[..k])
    ensures PushPositions(at + if steps[k].Push? then [k] else [], steps)
  {
    var all := at + if steps[k].Push? then [k] else [];
    forall i | 0 <= i < |steps| && steps[i].Push? ensures i in all {
      if i < k {
        assert steps[..k][i].Push?;
      }
    }
    assert forall j :: 0 <= j < |at| ==> steps[..k][at[j]] == steps[at[j]];
  }

  /** The items of the pushes at these positions. */
  function PushedAt<T>(steps: seq<Step<T>>, at: seq<nat>): (r: seq<T>)
    requires forall j :: 0 <= j < |at| ==> at[j] < |steps| && steps[at[j]].Push?
    ensures |r| == |at|
  {
    seq(|at|, j requires 0 <= j < |at| => steps[at[j]].v)
  }

  lemma PushedByStep<T>(s: State<T>, steps: seq<Step<T>>, k: nat)
    requires k == |steps| - 1 && CanRun(s, steps)
    ensures CanRun(s, steps[..k])
    ensures Run(s, steps).pushed == Run(s, steps[..k]).pushed + if steps[k].Push? then [steps[k].v] else []
  {
    assert steps == steps[..k] + [steps[k]];
    RunSnoc(s, steps[..k], steps[k]);
  }

  lemma {:induction false} PushedIs<T>(s: State<T>, steps: seq<Step<T>>)
    requires CanRun(s, steps)
    ensures PushPositions(PushesAt(steps), steps)
    ensures Run(s, steps).pushed == s.pushed + PushedAt(steps, PushesAt(steps))
    decreases |steps|
  {
    PushesAtArePositions(steps);
    if steps != [] {
      var k := |steps| - 1;
      PushedByStep(s, steps, k);
      PushedIs(s, steps[..k]);
      PushedOfLast(steps, k);
    }
  }

  lemma PushedOfPrefix<T>(steps: seq<Step<T>>, k: nat, at: seq<nat>)
    requires k <= |steps| && forall j :: 0 <= j < |at| ==> at[j] < k && steps[at[j]].Push?
    ensures PushedAt(steps[..k], at) == PushedAt(steps, at)
  {
    var prefix := steps[..k];
    assert forall j :: 0 <= j < |at| ==> prefix[at[j]] == steps[at[j]];
  }

  lemma PushedNext<T>(steps: seq<Step<T>>, k: nat, at: seq<nat>)
    requires k < |steps| && forall j :: 0 <= j < |at| ==> at[j] < k && steps[at[j]].Push?
    ensures PushedAt(steps[..k], at) == PushedAt(steps, at)
    ensures steps[k].Push? ==>
      PushedAt(steps, at + [k]) == PushedAt(steps[..k], at) + [steps[k].v]
  {
    PushedOfPrefix(steps, k, at);
  }

  lemma PushedOfLast<T>(steps: seq<Step<T>>, k: nat)
    requires k == |steps| - 1 && PushPositions(PushesAt(steps[..k]), steps[..k])
    requires PushPositions(PushesAt(steps), steps)
    ensures PushedAt(steps, PushesAt(steps))
            == PushedAt(steps[..k], PushesAt(steps[..k])) + if steps[k].Push? then [steps[k].v] else []
  {
    var at, prefix := PushesAt(steps[..k]), steps[..k];
    assert forall j :: 0 <= j < |at| ==> prefix[at[j]] == steps[at[j]];
    PushedNext(steps, k, at);
  }

  /** A run that goes on by one step, which may be any that is possible. */
  lemma {:induction false} RunSnoc<T>(s: State<T>, steps: seq<Step<T>>, a: Step<T>)
    requires CanRun(s, steps) || CanRun(s, steps + [a])
    ensures CanRun(s, steps) && (CanRun(s, steps + [a]) <==> Enabled(Run(s, steps), a))
    ensures CanRun(s, steps + [a]) ==> Run(s, steps + [a]) == Next(Run(s, steps), a)
    ensures a.Push? ==> CanRun(s, steps + [a])
    decreases |steps|
  {
    if steps == [] {
      assert steps + [a] == [a] && [a][1..] == [];
    } else {
      assert (steps + [a])[1..] == steps[1..] + [a];
      RunSnoc(Next(s, steps[0]), steps[1..], a);
    }
  }

  /** The pushed items of a run are those of its Push steps, in order. */
  lemma PushesInOrder<T>(steps: seq<Step<T>>) returns (at: seq<nat>)
    requires CanRun(Start(), steps)
    ensures PushPositions(at, steps) && forall i, j :: 0 <= i < j < |at| ==> at[i] < at[j]
    ensures var p := Run(Start(), steps).pushed;
            |p| == |at| && forall j :: 0 <= j < |at| ==> p[j] == steps[at[j]].v
  {
    at := PushesAt(steps);
    PushedIs(Start(), steps);
  }

  /** The pushes, and the notifies that followed them, among the first n steps. */
  ghost function PushesUpTo<T>(steps: seq<Step<T>>, n: nat): set<nat> {
    set i | 0 <= i < n && i < |steps| && steps[i].Push?
  }

  ghost function NotifiesUpTo<T>(steps: seq<Step<T>>, n: nat): set<nat> {
    set i | 0 <= i < n && i < |steps| && steps[i].NotifyOne?
  }

  lemma OneMorePush<T>(steps: seq<Step<T>>, n: nat)
    requires n < |steps|
    ensures |PushesUpTo(steps, n + 1)| == |PushesUpTo(steps, n)| + if steps[n].Push? then 1 else 0
  {
    assert PushesUpTo(steps, n + 1) == PushesUpTo(steps, n) + if steps[n].Push? then {n} else {};
  }

  lemma OneMoreNotify<T>(steps: seq<Step<T>>, n: nat)
    requires n < |steps|
    ensures |NotifiesUpTo(steps, n + 1)| == |NotifiesUpTo(steps, n)| + if steps[n].NotifyOne? then 1 else 0
  {
    assert NotifiesUpTo(steps, n + 1) == NotifiesUpTo(steps, n) + if steps[n].NotifyOne? then {n} else {};
  }

  lemma {:induction false} OwedUpTo<T>(steps: seq<Step<T>>, n: nat)
    requires n <= |steps| && CanRun(Start(), steps[..n])
    ensures |PushesUpTo(steps, n)| == |NotifiesUpTo(steps, n)| + Run(Start(), steps[..n]).owed
  {
    if n > 0 {
      assert steps[..n] == steps[..n - 1] + [steps[n - 1]];
      RunSnoc(Start(), steps[..n - 1], steps[n - 1]);
      OwedUpTo(steps, n - 1);
      OneMorePush(steps, n - 1);
      OneMoreNotify(steps, n - 1);
    }
  }

  /** Each push makes one notify: what is owed is the pushes less the notifies so far. */
  lemma OneNotifyPerPush<T>(steps: seq<Step<T>>)
    requires CanRun(Start(), steps)
    ensures |set i | 0 <= i < |steps| && steps[i].Push?|
            == |set i | 0 <= i < |steps| && steps[i].NotifyOne?| + Run(Start(), steps).owed
  {
    var n := |steps|;
    assert steps[..n] == steps;
    OwedUpTo(steps, n);
    assert PushesUpTo(steps, n) == set i | 0 <= i < n && steps[i].Push?;
    assert NotifiesUpTo(steps, n) == set i | 0 <= i < n && steps[i].NotifyOne?;
  }

  lemma {:induction false} NothingBefore<T>(s: State<T>, steps: seq<Step<T>>)
    requires CanRun(s, steps) && !s.destructor.NotStarted?
    ensures Run(s, steps).before == s.before && !Run(s, steps).destructor.NotStarted?
    ensures forall i :: 0 <= i < |steps| ==> !steps[i].SetStop?
    decreases |steps|
  {
    if steps != [] {
      NothingBefore(Next(s, steps[0]), steps[1..]);
    }
  }

  lemma {:induction false} RunConcat<T>(s: State<T>, a: seq<Step<T>>, b: seq<Step<T>>)
    requires CanRun(s, a + b)
    ensures CanRun(s, a) && CanRun(Run(s, a), b) && Run(s, a + b) == Run(Run(s, a), b)
    decreases |a|
  {
    if a == [] {
      assert a + b == b;
    } else {
      assert (a + b)[1..] == a[1..] + b;
      RunConcat(Next(s, a[0]), a[1..], b);
    }
  }

  /** So, in terms of the steps alone: once the destructor has joined, every item of a Push before the
      destructor's first step was handled, in the order of these pushes, before anything else. */
  lemma HandledBeforeJoin<T>(early: seq<Step<T>>, late: seq<Step<T>>) returns (at: seq<nat>)
    requires CanRun(Start(), early + ([SetStop] + late))
    requires Run(Start(), early + ([SetStop] + late)).destructor.Joined?
    ensures PushPositions(at, early) && forall i, j :: 0 <= i < j < |at| ==> at[i] < at[j]
    ensures var h := Run(Start(), early + ([SetStop] + late)).handled;
            |at| <= |h| && forall j :: 0 <= j < |at| ==> h[j] == early[at[j]].v
  {
    var steps, tail := early + ([SetStop] + late), [SetStop] + late;
    RunConcat(Start(), early, tail);
    var s := Run(Start(), early);
    assert tail[0] == SetStop && tail[1..] == late;
    var t := Next(s, SetStop);
    NothingBefore(t, late);
    at := PushesInOrder(early);
    RunKeepsInv(Start(), early);
    RunKeepsInv(Start(), steps);
    var e := Run(Start(), steps);
    PushedGrows(t, late);
    assert e.before == |s.pushed| && s.pushed <= e.pushed;
  }

  lemma {:induction false} PushedGrows<T>(s: State<T>, steps: seq<Step<T>>)
    requires CanRun(s, steps)
    ensures s.pushed <= Run(s, steps).pushed
    decreases |steps|
  {
    if steps != [] {
      PushedGrows(Next(s, steps[0]), steps[1..]);
    }
  }

  // ---- The destructor returns ----

  /** Steps that the worker, the pending notifies and the destructor can make by themselves. */
  predicate Progress<T>(a: Step<T>) {
    !a.Push? && !a.Wake? && !a.SetStop?
  }

  function WorkLeft<T>(s: State<T>): nat {
    4 * |s.q| + s.owed +
    (match s.worker case Returned => 0 case Checking => 1 case Asleep => 2 case Handling(_) => 2) +
    (match s.destructor case Joined => 0 case Notified => 1 case _ => 2)
  }

  lemma ProgressDecreases<T>(s: State<T>, a: Step<T>)
    requires s.stop && Enabled(s, a) && Progress(a)
    ensures Next(s, a).stop && WorkLeft(Next(s, a)) < WorkLeft(s)
  {
  }

  /** Until the join has returned, some thread can move. */
  lemma NotStuck<T>(s: State<T>) returns (a: Step<T>)
    requires Inv(s) && s.stop && !s.destructor.Joined?
    ensures Progress(a) && Enabled(s, a)
  {
    a := if s.worker.Checking? then Check
         else if s.worker.Handling? then Handle
         else if s.destructor.StopSet? then NotifyAll
         else if s.owed > 0 then NotifyOne
         else Join;
  }

  /** After stop is set, and with no new pushes, every way of scheduling the threads ends within
      WorkLeft steps, and it can only end with the join returned and the old items handled. */
  lemma {:induction false} DestructorReturns<T>(s: State<T>, steps: seq<Step<T>>)
    requires Inv(s) && s.stop && CanRun(s, steps)
    requires forall i :: 0 <= i < |steps| ==> Progress(steps[i])
    ensures |steps| + WorkLeft(Run(s, steps)) <= WorkLeft(s)
    ensures (forall a :: Progress(a) ==> !Enabled(Run(s, steps), a)) ==>
              Run(s, steps).destructor.Joined? && s.pushed[..s.before] <= Run(s, steps).handled
    decreases |steps|
  {
    if steps == [] {
      if !s.destructor.Joined? {
        var a := NotStuck(s);
      }
    } else {
      var t := Next(s, steps[0]);
      NextKeepsInv(s, steps[0]);
      ProgressDecreases(s, steps[0]);
      DestructorReturns(t, steps[1..]);
      assert t.before == s.before && s.pushed <= t.pushed;
    }
  }

  // ---- The object ----

  /** What the worker thread finds under the lock. */
  datatype Found<T> = Sleep | Return | Item(item: T)

  /** The fields of the class, with the interleaving they are part of as a ghost. */
  class Worker<T> {
    var q: seq<T>
    var stop: bool
    ghost var state: State<T>

    ghost predicate Valid()
      reads this
    {
      q == state.q && stop == state.stop && Inv(state)
    }

    constructor ()
      ensures Valid() && state == Start() && q == [] && !stop
    {
      q, stop, state := [], false, Start();
    }

    /** The locked part of push; the caller still owes a NotifyOne. */
    method Push(v: T)
      requires Valid()
      modifies this
      ensures Valid() && state == Next(old(state), Step.Push(v))
      ensures q == old(q) + [v] && stop == old(stop)
    {
      q := q + [v];
      NextKeepsInv(state, Step.Push(v));
      state := Next(state, Step.Push(v));
    }

    /** One pass of the worker loop under the lock: the wait predicate, the test for the end,
        and the removal of the front item. */
    method CheckQueue() returns (found: Found<T>)
      requires Valid() && state.worker.Checking?
      modifies this
      ensures Valid() && state == Next(old(state), Check)
      ensures match state.worker
        case Asleep => found == Sleep
        case Returned => found == Return
        case Handling(item) => found == Item(item)
        case Checking => false
      ensures found == if old(q) != [] then Item(old(q)[0]) else if stop then Return else Sleep
      ensures q == (if old(q) != [] then old(q)[1..] else []) && stop == old(stop)
    {
      NextKeepsInv(state, Check);
      state := Next(state, Check);
      if !(stop || q != []) {
        return Sleep;
      }
      if stop && q == [] {
        return Return;
      }
      found := Item(q[0]);
      q := q[1..];
    }

    /** The locked part of the destructor; it still owes a NotifyAll and the join. */
    method SetStop()
      requires Valid() && state.destructor.NotStarted?
      modifies this
      ensures Valid() && state == Next(old(state), Step.SetStop)
      ensures stop && q == old(q)
    {
      stop := true;
      NextKeepsInv(state, Step.SetStop);
      state := Next(state, Step.SetStop);
    }
  }
}
