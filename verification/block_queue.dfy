/** The bounded blocking queue: a list under a mutex with one condition variable.  Each step is
    one section executed under the lock; a Get on an empty queue is two, split at its Wait. */
module BlockQueueModel {

  const UT_QUEUE_MAX_LEN: nat := 0x7FFF_FFFF

  /** How an item left the list. */
  datatype Departure<T> = Got(item: T) | Evicted(item: T)

  /** items is the list.  sleeping consumers wait in the monitor, woken ones have been notified
      and will look at the list again.  accepted and left are histories. */
  datatype State<T> = State(maxSize: nat, items: seq<T>, sleeping: nat, woken: nat,
    accepted: seq<T>, left: seq<Departure<T>>)

  datatype Step<T> =
    | Put(t: T, replace: bool, putfront: bool)
    | GetFront       // a Get that finds an item
    | Sleep          // a Get that finds the list empty and waits
    | Resume         // a notified Get looks at the list again
    | TimeOut        // a waiting Get gives up
    | Wake           // a waiting Get wakes up unnotified
    | Interrupt(all: bool)

  // ---- The steps ----

  predicate Full<T>(s: State<T>) {
    |s.items| >= s.maxSize
  }

  /** The condition variable wakes one sleeper, if there is one. */
  function Notify<T>(s: State<T>): State<T> {
    if s.sleeping > 0 then s.(sleeping := s.sleeping - 1, woken := s.woken + 1) else s
  }

  function NotifyAll<T>(s: State<T>): State<T> {
    s.(sleeping := 0, woken := s.woken + s.sleeping)
  }

  function Leave<T>(s: State<T>, d: Departure<T>): State<T>
    requires s.items != []
  {
    s.(items := s.items[1..], left := s.left + [d])
  }

  function Enter<T>(s: State<T>, t: T, putfront: bool): State<T> {
    s.(items := if putfront then [t] + s.items else s.items + [t], accepted := s.accepted + [t])
  }

  predicate Enabled<T>(s: State<T>, a: Step<T>) {
    match a
    case Put(_, _, _) => true
    case GetFront => |s.items| > 0
    case Sleep => |s.items| == 0
    case Resume => s.woken > 0
    case TimeOut => s.sleeping > 0
    case Wake => s.sleeping > 0
    case Interrupt(_) => true
  }

  function Take<T>(s: State<T>): State<T>
    requires s.items != []
  {
    Leave(s, Got(s.items[0]))
  }

  function Next<T>(s: State<T>, a: Step<T>): State<T>
    requires s.maxSize > 0 && Enabled(s, a)
  {
    match a
    case Put(t, replace, putfront) =>
      if !Full(s) then Notify(Enter(s, t, putfront))
      else if !replace then s
      else Notify(Enter(Leave(s, Evicted(s.items[0])), t, putfront))
    case GetFront => Take(s)
    case Sleep => s.(sleeping := s.sleeping + 1)
    case Resume =>
      var r := s.(woken := s.woken - 1);
      if r.items == [] then r else Take(r)
    case TimeOut => s.(sleeping := s.sleeping - 1)
    case Wake => Notify(s)
    case Interrupt(all) => if all then NotifyAll(s) else Notify(s)
  }

  function New<T>(maxSize: nat): State<T> {
    State(if maxSize == 0 then UT_QUEUE_MAX_LEN else maxSize, [], 0, 0, [], [])
  }

  ghost predicate CanRun<T>(s: State<T>, steps: seq<Step<T>>)
    decreases |steps|
  {
    s.maxSize > 0 && (steps == [] || (Enabled(s, steps[0]) && CanRun(Next(s, steps[0]), steps[1..])))
  }

  ghost function Run<T>(s: State<T>, steps: seq<Step<T>>): State<T>
    requires CanRun(s, steps)
    decreases |steps|
  {
    if steps == [] then s else Run(Next(s, steps[0]), steps[1..])
  }

  // ---- What every step keeps ----

  function Items<T>(left: seq<Departure<T>>): (r: seq<T>)
    ensures |r| == |left|
  {
    seq(|left|, i requires 0 <= i < |left| => left[i].item)
  }

  lemma ItemsSnoc<T>(left: seq<Departure<T>>, d: Departure<T>)
    ensures Items(left + [d]) == Items(left) + [d.item]
  {
  }

  /** Nothing accepted is lost or duplicated. */
  ghost predicate Conserved<T>(s: State<T>) {
    multiset(s.accepted) == multiset(Items(s.left)) + multiset(s.items)
  }

  /** While a consumer sleeps, every item in the list has a notified consumer of its own. */
  predicate NoLostWakeup<T>(s: State<T>) {
    s.sleeping > 0 ==> |s.items| <= s.woken
  }

  ghost predicate Inv<T>(s: State<T>) {
    0 < s.maxSize && |s.items| <= s.maxSize && Conserved(s) && NoLostWakeup(s)
  }

  lemma LeaveConserves<T>(s: State<T>, d: Departure<T>)
    requires s.items != [] && d.item == s.items[0] && Conserved(s)
    ensures Conserved(Leave(s, d))
  {
    ItemsSnoc(s.left, d);
    assert s.items == [s.items[0]] + s.items[1..];
  }

  lemma EnterConserves<T>(s: State<T>, t: T, putfront: bool)
    requires Conserved(s)
    ensures Conserved(Enter(s, t, putfront))
  {
  }

  lemma NextKeepsInv<T>(s: State<T>, a: Step<T>)
    requires Inv(s) && Enabled(s, a)
    ensures Inv(Next(s, a))
  {
    match a
    case Put(t, replace, putfront) =>
      if !Full(s) {
        EnterConserves(s, t, putfront);
      } else if replace {
        LeaveConserves(s, Evicted(s.items[0]));
        EnterConserves(Leave(s, Evicted(s.items[0])), t, putfront);
      }
    case GetFront => LeaveConserves(s, Got(s.items[0]));
    case Resume =>
      if s.items != [] {
        LeaveConserves(s.(woken := s.woken - 1), Got(s.items[0]));
      }
    case _ =>
  }

  /** For every mix of threads and flags: the list never exceeds its bound, the items accepted
      are those got, evicted or still present, and no sleeping consumer misses an item. */
  lemma {:induction false} EveryRun<T>(s: State<T>, steps: seq<Step<T>>)
    requires Inv(s) && CanRun(s, steps)
    ensures Inv(Run(s, steps)) && Run(s, steps).maxSize == s.maxSize
    ensures var r := Run(s, steps);
      && |r.items| <= s.maxSize
      && multiset(r.accepted) == multiset(Items(r.left)) + multiset(r.items)
      && (r.sleeping > 0 ==> |r.items| <= r.woken)
    decreases |steps|
  {
    if steps != [] {
      NextKeepsInv(s, steps[0]);
      EveryRun(Next(s, steps[0]), steps[1..]);
    }
  }

  /** A run that goes on by one step, which may be any that is possible. */
  lemma {:induction false} RunSnoc<T>(s: State<T>, steps: seq<Step<T>>, a: Step<T>)
    requires CanRun(s, steps)
    ensures Run(s, steps).maxSize == s.maxSize > 0
    ensures CanRun(s, steps + [a]) <==> Enabled(Run(s, steps), a)
    ensures CanRun(s, steps + [a]) ==> Run(s, steps + [a]) == Next(Run(s, steps), a)
    ensures a.Put? || a.Interrupt? ==> CanRun(s, steps + [a])
    decreases |steps|
  {
    if steps == [] {
      assert steps + [a] == [a] && [a][1..] == [];
    } else {
      assert (steps + [a])[1..] == steps[1..] + [a];
      RunSnoc(Next(s, steps[0]), steps[1..], a);
    }
  }

  ghost predicate InOrder<T>(s: State<T>) {
    s.accepted == Items(s.left) + s.items
  }

  /** Without putfront the queue is first in, first out: items leave, got or evicted, in the
      order of their acceptance, and the list is what was accepted last. */
  lemma {:induction false} FirstInFirstOut<T>(s: State<T>, steps: seq<Step<T>>)
    requires InOrder(s) && CanRun(s, steps)
    requires forall i :: 0 <= i < |steps| && steps[i].Put? ==> !steps[i].putfront
    ensures InOrder(Run(s, steps))
    decreases |steps|
  {
    if steps != [] {
      StepInOrder(s, steps[0]);
      FirstInFirstOut(Next(s, steps[0]), steps[1..]);
    }
  }

  lemma StepInOrder<T>(s: State<T>, a: Step<T>)
    requires InOrder(s) && s.maxSize > 0 && Enabled(s, a) && (a.Put? ==> !a.putfront)
    ensures InOrder(Next(s, a))
  {
    if s.items != [] {
      LeaveInOrder(s, Got(s.items[0]));
      LeaveInOrder(s, Evicted(s.items[0]));
      LeaveInOrder(s.(woken := if s.woken > 0 then s.woken - 1 else 0), Got(s.items[0]));
    }
  }

  lemma LeaveInOrder<T>(s: State<T>, d: Departure<T>)
    requires s.items != [] && d.item == s.items[0] && InOrder(s)
    ensures InOrder(Leave(s, d))
  {
    ItemsSnoc(s.left, d);
    assert s.items == [s.items[0]] + s.items[1..];
  }

  /** What a Put did, told from its result. */
  lemma PutOutcome<T>(s: State<T>, t: T, replace: bool, putfront: bool)
    requires s.maxSize > 0
    ensures var r := Next(s, Put(t, replace, putfront));
      && (!Full(s) ==> r.accepted == s.accepted + [t] && r.left == s.left)
      && (Full(s) && !replace ==> r == s && r.accepted != s.accepted + [t])
      && (Full(s) && replace ==>
            r.accepted == s.accepted + [t] && r.left == s.left + [Evicted(s.items[0])] && r.left != s.left)
  {
    if Full(s) {
      assert |s.left + [Evicted(s.items[0])]| != |s.left| && |s.accepted + [t]| != |s.accepted|;
    }
  }

  // ---- The object ----

  class BlockQueue<T(0)> {
    var mMaxSize: nat
    var mCurSize: nat
    var mQueue: seq<T>
    ghost var state: State<T>

    ghost predicate Valid()
      reads this
    {
      mMaxSize == state.maxSize && mCurSize == |mQueue| && mQueue == state.items && Inv(state)
    }

    constructor (maxSize: nat)
      ensures Valid() && state == New(maxSize)
      ensures mMaxSize == (if maxSize == 0 then 0x7FFF_FFFF else maxSize) && mQueue == []
    {
      mMaxSize := if maxSize == 0 then UT_QUEUE_MAX_LEN else maxSize;
      mCurSize, mQueue, state := 0, [], New(maxSize);
    }

    /** True exactly when the item was accepted and none was evicted for it. */
    method Put(t: T, replace: bool, putfront: bool) returns (noneReplaced: bool)
      requires Valid()
      modifies this
      ensures Valid() && state == Next(old(state), Step.Put(t, replace, putfront))
      ensures noneReplaced <==> old(|mQueue|) < mMaxSize
      ensures var kept := old(if |mQueue| < mMaxSize then mQueue else mQueue[1..]);
              mQueue == if !noneReplaced && !replace then old(mQueue) else if putfront then [t] + kept else kept + [t]
      ensures noneReplaced || replace ==>
        state.woken == old(state.woken + if state.sleeping > 0 then 1 else 0)
      ensures noneReplaced <==> state.accepted == old(state.accepted) + [t] && state.left == old(state.left)
      ensures !noneReplaced ==> old(|mQueue|) == mMaxSize
      ensures !noneReplaced && !replace ==> state == old(state)
      ensures !noneReplaced && replace ==>
        state.accepted == old(state.accepted) + [t] && state.left == old(state.left + [Evicted(mQueue[0])])
    {
      NextKeepsInv(state, Step.Put(t, replace, putfront));
      PutOutcome(state, t, replace, putfront);
      noneReplaced := true;
      if mCurSize >= mMaxSize {
        if !replace {
          return false;
        }
        noneReplaced := false;
        mQueue := mQueue[1..];
        mCurSize := mCurSize - 1;
      }
      if putfront {
        mQueue := [t] + mQueue;
      } else {
        mQueue := mQueue + [t];
      }
      mCurSize := mCurSize + 1;
      state := Next(state, Step.Put(t, replace, putfront));
    }

    method PopFront() returns (t: T)
      requires Valid() && mQueue != []
      modifies this
      ensures Valid() && t == old(mQueue)[0] && state == Take(old(state)) && mQueue == old(mQueue)[1..]
    {
      NextKeepsInv(state, GetFront);
      t := mQueue[0];
      mQueue := mQueue[1..];
      mCurSize := mCurSize - 1;
      state := Take(state);
    }

    /** GetTimeout up to its Wait: an item, or none and the caller is asleep. */
    method GetOrSleep() returns (found: bool, t: T)
      requires Valid()
      modifies this
      ensures Valid() && found == (old(mQueue) != [])
      ensures state == Next(old(state), if found then GetFront else Sleep)
      ensures found ==> t == old(mQueue)[0] && mQueue == old(mQueue)[1..] && state.sleeping == old(state.sleeping)
      ensures !found ==> mQueue == [] && state.sleeping == old(state.sleeping) + 1
    {
      t := *;
      found := mQueue != [];
      if found {
        t := PopFront();
      } else {
        NextKeepsInv(state, Sleep);
        state := Next(state, Sleep);
      }
    }

    /** GetTimeout after its Wait, which returned false only on a time-out. */
    method GetAfterWait(notified: bool) returns (found: bool, t: T)
      requires Valid() && (if notified then state.woken > 0 else state.sleeping > 0)
      modifies this
      ensures Valid() && state == Next(old(state), if notified then Resume else TimeOut)
      ensures found == (notified && old(mQueue) != [])
      ensures found ==> t == old(mQueue)[0]
      ensures mQueue == if found then old(mQueue)[1..] else old(mQueue)
    {
      t := *;
      if !notified {
        NextKeepsInv(state, TimeOut);
        state := Next(state, TimeOut);
        return false, t;
      }
      NextKeepsInv(state, Resume);
      state := state.(woken := state.woken - 1);
      found := mQueue != [];
      if found {
        t := mQueue[0];
        mQueue := mQueue[1..];
        mCurSize := mCurSize - 1;
        state := Take(state);
      }
    }

    method InterruptWaiters(all: bool)
      requires Valid()
      modifies this
      ensures Valid() && state == Next(old(state), Interrupt(all)) && mQueue == old(mQueue)
      ensures state.sleeping + state.woken == old(state.sleeping + state.woken)
      ensures state.sleeping == old(if all || state.sleeping == 0 then 0 else state.sleeping - 1)
    {
      NextKeepsInv(state, Interrupt(all));
      state := Next(state, Interrupt(all));
    }
  }
}
