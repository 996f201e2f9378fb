/** The DDS reader listener: received samples go through a bounded, evicting queue to one consumer
    thread that calls the message handler. */
module Listener {
  import opened BlockQueueModel

  /** A taken DDS sample and its info flag. */
  datatype Sample<T> = Sample(data: T, valid: bool)

  /** Where the consumer thread is: waiting for a handler, about to test mQuit, about to Get,
      asleep in Get, in the handler, or finished. */
  datatype Consumer<T> = NoHandler | AtTest | AtGet | InWait | InHandler(item: T) | Finished

  datatype Listener<T> = Listener(queue: State<T>, consumer: Consumer<T>, quit: bool,
    received: seq<T>, delivered: seq<T>, warnings: nat)

  datatype Event<T> =
    | OnSample(sample: Sample<T>)
    | SetHandler       // the user gives the listener a handler
    | TestQuit
    | Get
    | WaitEnds         // a woken Get looks at the queue again
    | WaitTimesOut
    | WakesUnnotified
    | HandlerReturns
    | SetQuit          // the destructor's first statement
    | InterruptQueue   // its second

  predicate Possible<T>(s: Listener<T>, e: Event<T>) {
    match e
    case OnSample(_) => true
    case SetHandler => s.consumer.NoHandler?
    case TestQuit => s.consumer.AtTest?
    case Get => s.consumer.AtGet?
    case WaitEnds => s.consumer.InWait? && s.queue.woken > 0
    case WaitTimesOut => s.consumer.InWait? && s.queue.sleeping > 0
    case WakesUnnotified => s.consumer.InWait? && s.queue.sleeping > 0
    case HandlerReturns => s.consumer.InHandler?
    case SetQuit => true
    case InterruptQueue => s.quit
  }

  function After<T>(s: Listener<T>, e: Event<T>): Listener<T>
    requires s.queue.maxSize > 0 && Possible(s, e)
  {
    match e
    case OnSample(sample) =>
      if !sample.valid then s
      else s.(queue := Next(s.queue, Put(sample.data, true, false)), received := s.received + [sample.data],
              warnings := s.warnings + if Full(s.queue) then 1 else 0)
    case SetHandler => s.(consumer := AtTest)
    case TestQuit => s.(consumer := if s.quit then Finished else AtGet)
    case Get =>
      if s.queue.items != [] then s.(queue := Next(s.queue, GetFront), consumer := InHandler(s.queue.items[0]))
      else s.(queue := Next(s.queue, Sleep), consumer := InWait)
    case WaitEnds =>
      s.(queue := Next(s.queue, Resume),
         consumer := if s.queue.items != [] then InHandler(s.queue.items[0]) else AtTest)
    case WaitTimesOut => s.(queue := Next(s.queue, TimeOut), consumer := AtTest)
    case WakesUnnotified => s.(queue := Next(s.queue, Wake))
    case HandlerReturns => s.(delivered := s.delivered + [s.consumer.item], consumer := AtTest)
    case SetQuit => s.(quit := true)
    case InterruptQueue => s.(queue := Next(s.queue, Interrupt(false)))
  }

  function Start<T>(length: nat): Listener<T>
    requires length > 0
  {
    Listener(New(length), NoHandler, false, [], [], 0)
  }

  ghost predicate CanHappen<T>(s: Listener<T>, events: seq<Event<T>>)
    decreases |events|
  {
    s.queue.maxSize > 0 &&
    (events == [] || (Possible(s, events[0]) && CanHappen(After(s, events[0]), events[1..])))
  }

  ghost function Run<T>(s: Listener<T>, events: seq<Event<T>>): Listener<T>
    requires CanHappen(s, events)
    decreases |events|
  {
    if events == [] then s else Run(After(s, events[0]), events[1..])
  }

  // ---- What every event keeps ----

  /** The items that left by Get, in order. */
  function Taken<T>(left: seq<Departure<T>>): seq<T> {
    if left == [] then []
    else
      var k := |left| - 1;
      Taken(left[..k]) + if left[k].Got? then [left[k].item] else []
  }

  function Evictions<T>(left: seq<Departure<T>>): nat {
    if left == [] then 0
    else
      var k := |left| - 1;
      Evictions(left[..k]) + if left[k].Evicted? then 1 else 0
  }

  lemma LeftSnoc<T>(left: seq<Departure<T>>, d: Departure<T>)
    ensures Taken(left + [d]) == Taken(left) + if d.Got? then [d.item] else []
    ensures Evictions(left + [d]) == Evictions(left) + if d.Evicted? then 1 else 0
  {
    assert (left + [d])[..|left|] == left;
  }

  function InFlight<T>(c: Consumer<T>): seq<T> {
    if c.InHandler? then [c.item] else []
  }

  ghost predicate ListenerInv<T>(s: Listener<T>) {
    && Inv(s.queue) && InOrder(s.queue)
    && s.queue.accepted == s.received
    && Taken(s.queue.left) == s.delivered + InFlight(s.consumer)
    && Evictions(s.queue.left) == s.warnings
    && s.queue.sleeping + s.queue.woken == (if s.consumer.InWait? then 1 else 0)
  }

  lemma PutKeeps<T>(q: State<T>, t: T)
    requires Inv(q) && InOrder(q)
    ensures var r := Next(q, Put(t, true, false));
      && Inv(r) && InOrder(r) && r.maxSize == q.maxSize
      && r.accepted == q.accepted + [t] && Taken(r.left) == Taken(q.left)
      && Evictions(r.left) == Evictions(q.left) + (if Full(q) then 1 else 0)
      && r.sleeping + r.woken == q.sleeping + q.woken
  {
    NextKeepsInv(q, Put(t, true, false));
    StepInOrder(q, Put(t, true, false));
    if Full(q) {
      LeftSnoc(q.left, Evicted(q.items[0]));
    }
  }

  lemma TakeKeeps<T>(q: State<T>, a: Step<T>)
    requires Inv(q) && InOrder(q) && q.items != []
    requires a == GetFront || (a == Resume && q.woken > 0)
    ensures var r := Next(q, a);
      && Inv(r) && InOrder(r) && r.maxSize == q.maxSize && r.accepted == q.accepted
      && Taken(r.left) == Taken(q.left) + [q.items[0]] && Evictions(r.left) == Evictions(q.left)
      && r.sleeping + r.woken == q.sleeping + q.woken - (if a == Resume then 1 else 0)
  {
    NextKeepsInv(q, a);
    StepInOrder(q, a);
    LeftSnoc(q.left, Got(q.items[0]));
  }

  ghost predicate Keeps<T>(s: Listener<T>, e: Event<T>)
    requires s.queue.maxSize > 0 && Possible(s, e)
  {
    ListenerInv(After(s, e)) && After(s, e).queue.maxSize == s.queue.maxSize
  }

  lemma SampleKeepsInv<T>(s: Listener<T>, e: Event<T>)
    requires ListenerInv(s) && e.OnSample?
    ensures Keeps(s, e)
  {
    var q := s.queue;
    PutKeeps(q, e.sample.data);
    if e.sample.valid {
      QueueReplaced(s, Next(q, Put(e.sample.data, true, false)), [e.sample.data], if Full(q) then 1 else 0);
    }
  }

  /** A queue that takes in and gives out what the histories say. */
  lemma QueueReplaced<T>(s: Listener<T>, r: State<T>, data: seq<T>, evicted: nat)
    requires ListenerInv(s) && Inv(r) && InOrder(r)
    requires r.accepted == s.queue.accepted + data && Taken(r.left) == Taken(s.queue.left)
    requires Evictions(r.left) == Evictions(s.queue.left) + evicted
    requires r.sleeping + r.woken == s.queue.sleeping + s.queue.woken
    ensures ListenerInv(s.(queue := r, received := s.received + data, warnings := s.warnings + evicted))
  {
  }

  lemma TakingKeepsInv<T>(s: Listener<T>, e: Event<T>)
    requires ListenerInv(s) && Possible(s, e) && (e.Get? || e.WaitEnds?) && s.queue.items != []
    ensures Keeps(s, e)
  {
    TakeKeeps(s.queue, if e.Get? then GetFront else Resume);
  }

  lemma OtherEventKeepsInv<T>(s: Listener<T>, e: Event<T>)
    requires ListenerInv(s) && Possible(s, e) && !e.OnSample?
    requires (e.Get? || e.WaitEnds?) ==> s.queue.items == []
    ensures Keeps(s, e)
  {
    SameItems(s.queue, After(s, e).queue);
  }

  lemma SameItems<T>(q: State<T>, r: State<T>)
    requires Inv(q) && InOrder(q) && r == q.(sleeping := r.sleeping, woken := r.woken) && NoLostWakeup(r)
    ensures Inv(r) && InOrder(r)
  {
  }

  lemma AfterKeepsInv<T>(s: Listener<T>, e: Event<T>)
    requires ListenerInv(s) && Possible(s, e)
    ensures ListenerInv(After(s, e)) && After(s, e).queue.maxSize == s.queue.maxSize
  {
    if e.OnSample? {
      SampleKeepsInv(s, e);
    } else if (e.Get? || e.WaitEnds?) && s.queue.items != [] {
      TakingKeepsInv(s, e);
    } else {
      OtherEventKeepsInv(s, e);
    }
    assert Keeps(s, e);
  }

  lemma {:induction false} RunKeepsInv<T>(s: Listener<T>, events: seq<Event<T>>)
    requires ListenerInv(s) && CanHappen(s, events)
    ensures ListenerInv(Run(s, events)) && Run(s, events).queue.maxSize == s.queue.maxSize
    decreases |events|
  {
    if events != [] {
      AfterKeepsInv(s, events[0]);
      RunKeepsInv(After(s, events[0]), events[1..]);
    }
  }

  // ---- What a user of the listener sees ----

  /** The positions, among all departures, of those that were taken. */
  ghost function TakenAt<T>(left: seq<Departure<T>>): seq<nat> {
    if left == [] then []
    else
      var k := |left| - 1;
      TakenAt(left[..k]) + if left[k].Got? then [k] else []
  }

  /** part occurs in whole at these strictly increasing positions. */
  ghost predicate PicksOut<T>(at: seq<nat>, part: seq<T>, whole: seq<T>) {
    |at| == |part| && (forall i :: 0 <= i < |at| ==> at[i] < |whole| && whole[at[i]] == part[i]) &&
    forall i, j :: 0 <= i < j < |at| ==> at[i] < at[j]
  }

  lemma {:induction false} TakenPicksOut<T>(left: seq<Departure<T>>)
    ensures PicksOut(TakenAt(left), Taken(left), Items(left))
    ensures |Taken(left)| + Evictions(left) == |left|
  {
    if left != [] {
      var k := |left| - 1;
      TakenPicksOut(left[..k]);
      ItemsSnoc(left[..k], left[k]);
      assert left == left[..k] + [left[k]];
    }
  }

  /** In every run with a queue of length n > 0: the queue holds the last valid samples received,
      at most n of them; the delivered ones are a subsequence of the received ones; and each
      received sample is delivered, in flight, queued, or evicted with one warning. */
  lemma {:induction false} EveryRunOfListener<T>(length: nat, events: seq<Event<T>>) returns (at: seq<nat>)
    requires length > 0 && CanHappen(Start(length), events)
    ensures var s := Run(Start(length), events);
      var k := |s.queue.items|;
      && k <= length && k <= |s.received| && s.queue.items == s.received[|s.received| - k..]
      && (forall i, j :: 0 <= i < j < |at| ==> at[i] < at[j]) && |at| == |s.delivered + InFlight(s.consumer)|
      && (forall j :: 0 <= j < |at| ==>
            at[j] < |s.received| - k && s.received[at[j]] == (s.delivered + InFlight(s.consumer))[j])
      && |s.received| == |s.delivered| + |InFlight(s.consumer)| + s.warnings + k
  {
    var s := Run(Start(length), events);
    RunKeepsInv(Start(length), events);
    var left := s.queue.left;
    TakenPicksOut(left);
    at := TakenAt(left);
    assert s.received[..|left|] == Items(left);
  }

  // ---- What is received, in terms of the events ----

  predicate IsValidSample<T>(e: Event<T>) {
    e.OnSample? && e.sample.valid
  }

  /** at lists the positions of the valid samples among the events, in order. */
  ghost predicate SamplePositions<T>(at: seq<nat>, events: seq<Event<T>>) {
    && (forall j :: 0 <= j < |at| ==> at[j] < |events| && events[at[j]].OnSample? && events[at[j]].sample.valid)
    && (forall i, j :: 0 <= i < j < |at| ==> at[i] < at[j])
    && (forall i :: 0 <= i < |events| && events[i].OnSample? && events[i].sample.valid ==> i in at)
  }

  ghost function SamplesAt<T>(events: seq<Event<T>>): seq<nat> {
    if events == [] then []
    else
      var k := |events| - 1;
      SamplesAt(events[..k]) + if IsValidSample(events[k]) then [k] else []
  }

  lemma {:induction false} SamplesAtArePositions<T>(events: seq<Event<T>>)
    ensures SamplePositions(SamplesAt(events), events)
  {
    if events != [] {
      var k := |events| - 1;
      SamplesAtArePositions(events[..k]);
      NextPosition(SamplesAt(events[..k]), events, k);
    }
  }

  lemma NextPosition<T>(at: seq<nat>, events: seq<Event<T>>, k: nat)
    requires k == |events| - 1 && SamplePositions(at, events[..k])
    ensures SamplePositions(at + if IsValidSample(events[k]) then [k] else [], events)
  {
    var all := at + if IsValidSample(events[k]) then [k] else [];
    forall i | 0 <= i < |events| && events[i].OnSample? && events[i].sample.valid ensures i in all {
      if i < k {
        assert events[..k][i].OnSample?;
      }
    }
    assert forall j :: 0 <= j < |at| ==> events[..k][at[j]] == events[at[j]];
  }

  function DataAt<T>(events: seq<Event<T>>, at: seq<nat>): (r: seq<T>)
    requires forall j :: 0 <= j < |at| ==> at[j] < |events| && events[at[j]].OnSample?
    ensures |r| == |at|
  {
    seq(|at|, j requires 0 <= j < |at| => events[at[j]].sample.data)
  }

  lemma DataOfPrefix<T>(events: seq<Event<T>>, k: nat, at: seq<nat>)
    requires k <= |events| && forall j :: 0 <= j < |at| ==> at[j] < k && events[at[j]].OnSample?
    ensures DataAt(events[..k], at) == DataAt(events, at)
  {
    var prefix := events[..k];
    assert forall j :: 0 <= j < |at| ==> prefix[at[j]] == events[at[j]];
  }

  lemma DataNext<T>(events: seq<Event<T>>, k: nat, at: seq<nat>)
    requires k < |events| && forall j :: 0 <= j < |at| ==> at[j] < k && events[at[j]].OnSample?
    ensures DataAt(events[..k], at) == DataAt(events, at)
    ensures IsValidSample(events[k]) ==>
      DataAt(events, at + [k]) == DataAt(events[..k], at) + [events[k].sample.data]
  {
    DataOfPrefix(events, k, at);
  }

  lemma DataOfLast<T>(events: seq<Event<T>>, k: nat)
    requires k == |events| - 1 && SamplePositions(SamplesAt(events[..k]), events[..k])
    requires SamplePositions(SamplesAt(events), events)
    ensures DataAt(events, SamplesAt(events))
            == DataAt(events[..k], SamplesAt(events[..k])) +
               if IsValidSample(events[k]) then [events[k].sample.data] else []
  {
    var at, prefix := SamplesAt(events[..k]), events[..k];
    assert forall j :: 0 <= j < |at| ==> prefix[at[j]] == events[at[j]];
    DataNext(events, k, at);
  }

  /** A run that goes on by one event, which may be any that is possible. */
  lemma {:induction false} RunSnoc<T>(s: Listener<T>, events: seq<Event<T>>, e: Event<T>)
    requires CanHappen(s, events) || CanHappen(s, events + [e])
    ensures CanHappen(s, events) && Run(s, events).queue.maxSize == s.queue.maxSize > 0
    ensures CanHappen(s, events + [e]) <==> Possible(Run(s, events), e)
    ensures CanHappen(s, events + [e]) ==> Run(s, events + [e]) == After(Run(s, events), e)
    ensures e.OnSample? || e.SetQuit? ==> CanHappen(s, events + [e])
    decreases |events|
  {
    if events == [] {
      assert events + [e] == [e] && [e][1..] == [];
    } else {
      assert (events + [e])[1..] == events[1..] + [e];
      RunSnoc(After(s, events[0]), events[1..], e);
    }
  }

  lemma ReceivedNext<T>(s: Listener<T>, events: seq<Event<T>>, k: nat)
    requires k == |events| - 1 && CanHappen(s, events)
    ensures CanHappen(s, events[..k])
    ensures Run(s, events).received
            == Run(s, events[..k]).received + if IsValidSample(events[k]) then [events[k].sample.data] else []
  {
    assert events == events[..k] + [events[k]];
    RunSnoc(s, events[..k], events[k]);
  }

  lemma {:induction false} ReceivedIs<T>(s: Listener<T>, events: seq<Event<T>>)
    requires CanHappen(s, events)
    ensures SamplePositions(SamplesAt(events), events)
    ensures Run(s, events).received == s.received + DataAt(events, SamplesAt(events))
    decreases |events|
  {
    SamplesAtArePositions(events);
    if events != [] {
      var k := |events| - 1;
      ReceivedNext(s, events, k);
      ReceivedIs(s, events[..k]);
      DataOfLast(events, k);
    }
  }

  /** A waiting consumer goes on when it was notified, and otherwise by a time-out or by itself. */
  lemma WaitCanEnd<T>(s: Listener<T>)
    requires ListenerInv(s) && s.consumer.InWait?
    ensures Possible(s, WaitEnds) <==> s.queue.woken > 0
    ensures !Possible(s, WaitEnds) ==> Possible(s, WaitTimesOut) && Possible(s, WakesUnnotified)
    ensures Possible(s, WaitTimesOut) ==> After(s, WaitTimesOut).consumer == AtTest
    ensures Possible(s, WakesUnnotified) ==> Possible(After(s, WakesUnnotified), WaitEnds)
  {
  }

  /** The received samples are the valid ones among the events, in order. */
  lemma ReceivedInOrder<T>(length: nat, events: seq<Event<T>>) returns (at: seq<nat>)
    requires length > 0 && CanHappen(Start(length), events)
    ensures SamplePositions(at, events) && forall i, j :: 0 <= i < j < |at| ==> at[i] < at[j]
    ensures var r := Run(Start(length), events).received;
            |r| == |at| && forall j :: 0 <= j < |at| ==> r[j] == events[at[j]].sample.data
  {
    at := SamplesAt(events);
    ReceivedIs(Start(length), events);
  }

  // ---- Shutting down ----

  /** What the consumer thread does by itself.  Giving the listener a handler is not among it. */
  predicate OfConsumer<T>(e: Event<T>) {
    e.TestQuit? || e.Get? || e.WaitEnds? || e.HandlerReturns?
  }

  /** The consumer can do nothing by itself. */
  ghost predicate AtRest<T(!new)>(s: Listener<T>) {
    forall e: Event<T> :: OfConsumer(e) ==> !Possible(s, e)
  }

  /** The consumer polls for a handler, or sleeps unnoticed, or is about to since it has tested
      mQuit before it was set and the queue is empty. */
  predicate Misses<T>(s: Listener<T>) {
    s.consumer.NoHandler? || (s.consumer.AtGet? && |s.queue.items| == 0) || (s.consumer.InWait? && s.queue.woken == 0)
  }

  /** Nobody but the consumer waits for the queue. */
  predicate OneSleeper<T>(s: Listener<T>) {
    s.queue.maxSize > 0 && s.queue.sleeping + s.queue.woken == (if s.consumer.InWait? then 1 else 0)
  }

  /** The events the consumer can still make once mQuit is set. */
  function StepsLeft<T>(s: Listener<T>): nat {
    match s.consumer
    case NoHandler => 0
    case AtTest => 1
    case AtGet => 4
    case InWait => 3
    case InHandler(_) => 2
    case Finished => 0
  }

  lemma RestsIff<T(!new)>(s: Listener<T>)
    ensures AtRest(s) <==>
            s.consumer.NoHandler? || s.consumer.Finished? || (s.consumer.InWait? && s.queue.woken == 0)
  {
    var next: Event<T> := match s.consumer
      case AtTest => TestQuit
      case AtGet => Get
      case InWait => WaitEnds
      case _ => HandlerReturns;
    assert OfConsumer(next);
  }

  lemma ConsumerStep<T>(s: Listener<T>, e: Event<T>)
    requires OneSleeper(s) && s.quit && OfConsumer(e) && Possible(s, e)
    ensures After(s, e).quit && StepsLeft(After(s, e)) < StepsLeft(s)
    ensures Misses(After(s, e)) <==> Misses(s)
  {
  }

  lemma {:induction false} QuietEnd<T(!new)>(s: Listener<T>, events: seq<Event<T>>)
    requires ListenerInv(s) && s.quit && CanHappen(s, events)
    requires forall i :: 0 <= i < |events| ==> OfConsumer(events[i])
    ensures |events| <= StepsLeft(s)
    ensures AtRest(Run(s, events)) ==> (Run(s, events).consumer.Finished? <==> !Misses(s))
    decreases |events|
  {
    if events == [] {
      RestsIff(s);
    } else {
      AfterKeepsInv(s, events[0]);
      ConsumerStep(s, events[0]);
      QuietEnd(After(s, events[0]), events[1..]);
    }
  }

  /** Whom the interrupt does not reach. */
  lemma InterruptWakes<T>(s: Listener<T>)
    requires ListenerInv(s) && s.quit
    ensures var t := After(s, InterruptQueue);
            && ListenerInv(t) && t.quit && StepsLeft(t) <= 4
            && (Misses(t) <==> s.consumer.NoHandler? || (s.consumer.AtGet? && |s.queue.items| == 0))
  {
    AfterKeepsInv(s, InterruptQueue);
    InterruptMisses(s);
  }

  lemma InterruptMisses<T>(s: Listener<T>)
    requires OneSleeper(s) && s.quit
    ensures var t := After(s, InterruptQueue);
            Misses(t) <==> s.consumer.NoHandler? || (s.consumer.AtGet? && |s.queue.items| == 0)
  {
  }

  /** Once the destructor has set mQuit and interrupted the queue, and with no further sample, handler,
      time-out or unnotified wake-up, the consumer comes to rest within four steps.  It has
      finished, so that the destructor's wait for the thread ends, exactly if at the interrupt it
      had a handler and did not stand between its test of mQuit and its Get on an empty queue. */
  lemma ShutdownOutcome<T(!new)>(s: Listener<T>, events: seq<Event<T>>)
    requires ListenerInv(s) && s.quit && CanHappen(After(s, InterruptQueue), events)
    requires forall i :: 0 <= i < |events| ==> OfConsumer(events[i])
    ensures |events| <= 4
    ensures AtRest(Run(After(s, InterruptQueue), events)) ==>
              (Run(After(s, InterruptQueue), events).consumer.Finished? <==>
               !s.consumer.NoHandler? && !(s.consumer.AtGet? && |s.queue.items| == 0))
  {
    InterruptWakes(s);
    QuietEnd(After(s, InterruptQueue), events);
  }

  /** A listener that is never given a handler: the destructor's interrupt leaves the consumer
      polling, whatever else happens afterwards. */
  lemma {:induction false} WithoutHandlerNothingFinishes<T>(s: Listener<T>, events: seq<Event<T>>)
    requires s.consumer.NoHandler? && CanHappen(s, events)
    requires forall i :: 0 <= i < |events| ==> !events[i].SetHandler?
    ensures Run(s, events).consumer.NoHandler?
    decreases |events|
  {
    if events != [] {
      WithoutHandlerNothingFinishes(After(s, events[0]), events[1..]);
    }
  }

  /** That is how a new listener fares when it is destroyed before it has a handler. */
  lemma ShutdownWithoutHandler<T(!new)>(length: nat)
    requires length > 0
    ensures var events := [SetQuit, InterruptQueue];
            CanHappen(Start<T>(length), events) &&
            var t := Run(Start<T>(length), events);
            t.quit && t.consumer.NoHandler? && AtRest(t)
  {
  }

  /** The other failing case: the interrupt finds nobody asleep, and the consumer then falls asleep. */
  lemma InterruptTooEarly<T(!new)>(length: nat)
    requires length > 0
    ensures var events := [SetHandler, TestQuit, SetQuit, InterruptQueue, Get];
            CanHappen(Start<T>(length), events) &&
            var t := Run(Start<T>(length), events);
            t.quit && t.consumer.InWait? && AtRest(t)
  {
  }

  // ---- The producer callback ----

  function ValidData<T>(samples: seq<Sample<T>>): seq<T> {
    if samples == [] then []
    else
      var k := |samples| - 1;
      ValidData(samples[..k]) + if samples[k].valid then [samples[k].data] else []
  }

  class ReaderListener<T(0)> {
    const mHasQueue: bool
    const mDataQueue: BlockQueue<T>
    var warnings: nat
    ghost var called: seq<T>

    constructor (length: int)
      ensures mHasQueue == (length > 0) && fresh(mDataQueue) && mDataQueue.Valid()
      ensures length > 0 ==> mDataQueue.state == New(length)
      ensures warnings == 0 && called == [] && Consistent()
    {
      mHasQueue := length > 0;
      mDataQueue := new BlockQueue<T>(if length > 0 then length else 1);
      warnings, called := 0, [];
    }

    ghost predicate Consistent()
      reads this, mDataQueue
    {
      mDataQueue.Valid() && InOrder(mDataQueue.state) && Evictions(mDataQueue.state.left) == warnings
    }

    method OnSample(sample: Sample<T>)
      requires Consistent()
      modifies this, mDataQueue
      ensures Consistent()
      ensures mDataQueue.state.accepted
              == old(mDataQueue.state.accepted) + if mHasQueue && sample.valid then [sample.data] else []
      ensures called == old(called) + if !mHasQueue && sample.valid then [sample.data] else []
      ensures Taken(mDataQueue.state.left) == old(Taken(mDataQueue.state.left))
      ensures var full := old(|mDataQueue.mQueue|) >= mDataQueue.mMaxSize;
              warnings == old(warnings) + if mHasQueue && sample.valid && full then 1 else 0
    {
      if sample.valid {
        if mHasQueue {
          PutData(sample.data);
        } else {
          called := called + [sample.data];
        }
      }
    }

    /** A full queue gives up its earliest item for the new one, with a warning. */
    method PutData(data: T)
      requires Consistent()
      modifies this`warnings, mDataQueue
      ensures Consistent() && mDataQueue.state.accepted == old(mDataQueue.state.accepted) + [data]
      ensures Taken(mDataQueue.state.left) == old(Taken(mDataQueue.state.left))
      ensures warnings == old(warnings) + if old(|mDataQueue.mQueue|) >= mDataQueue.mMaxSize then 1 else 0
    {
      PutKeeps(mDataQueue.state, data);
      var ok := mDataQueue.Put(data, true, false);
      if !ok {
        warnings := warnings + 1;
      }
    }

    /** One batch of samples: each valid one is put into the queue, evicting the earliest with a
        warning when it is full, or without a queue handed to the handler at once. */
    method OnDataAvailable(samples: seq<Sample<T>>)
      requires Consistent()
      modifies this, mDataQueue
      ensures Consistent()
      ensures mDataQueue.state.accepted
              == old(mDataQueue.state.accepted) + if mHasQueue then ValidData(samples) else []
      ensures called == old(called) + if !mHasQueue then ValidData(samples) else []
      ensures Taken(mDataQueue.state.left) == old(Taken(mDataQueue.state.left))
    {
      ghost var accepted, left := mDataQueue.state.accepted, Taken(mDataQueue.state.left);
      ghost var calls := called;
      for i := 0 to |samples|
        invariant Consistent()
        invariant mDataQueue.state.accepted == accepted + OnlyIf(mHasQueue, ValidData(samples[..i]))
        invariant called == calls + OnlyIf(!mHasQueue, ValidData(samples[..i]))
        invariant Taken(mDataQueue.state.left) == left
      {
        ValidSnoc(samples, i);
        OnlyIfConcat(accepted, mHasQueue, ValidData(samples[..i]), ValidData([samples[i]]));
        OnlyIfConcat(calls, !mHasQueue, ValidData(samples[..i]), ValidData([samples[i]]));
        OnSample(samples[i]);
      }
      assert samples[..|samples|] == samples;
    }
  }

  /** ValidData keeps the valid samples, in order. */
  lemma {:induction false} ValidDataIs<T>(samples: seq<Sample<T>>) returns (at: seq<nat>)
    ensures var r := ValidData(samples);
            |r| == |at| && forall j :: 0 <= j < |at| ==> at[j] < |samples| && samples[at[j]] == Sample(r[j], true)
    ensures forall i, j :: 0 <= i < j < |at| ==> at[i] < at[j]
    ensures forall i :: 0 <= i < |samples| && samples[i].valid ==> i in at
  {
    at := [];
    if samples != [] {
      var k := |samples| - 1;
      var before := ValidDataIs(samples[..k]);
      at := before + if samples[k].valid then [k] else [];
      forall i | 0 <= i < |samples| && samples[i].valid ensures i in at {
        if i < k {
          assert samples[..k][i].valid;
        }
      }
    }
  }

  function OnlyIf<T>(c: bool, data: seq<T>): seq<T> {
    if c then data else []
  }

  lemma OnlyIfConcat<T>(a: seq<T>, c: bool, x: seq<T>, y: seq<T>)
    ensures (a + OnlyIf(c, x)) + OnlyIf(c, y) == a + OnlyIf(c, x + y)
  {
  }

  lemma ValidSnoc<T>(samples: seq<Sample<T>>, i: nat)
    requires i < |samples|
    ensures ValidData([samples[i]]) == if samples[i].valid then [samples[i].data] else []
    ensures ValidData(samples[..i + 1]) == ValidData(samples[..i]) + ValidData([samples[i]])
  {
    assert samples[..i + 1][..i] == samples[..i];
    assert ValidData([samples[i]][..0]) == [];
  }
}
