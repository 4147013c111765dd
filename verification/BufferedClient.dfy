/**
 The buffered IPC client: senders put messages into a channel, and a background loop takes
 them out, sends them while it is connected, keeps a bounded buffer while it is not, and
 flushes the buffer when it reconnects.

 `Ledger` follows every message by the number of its acceptance; the class below holds the
 messages themselves, as the client does, and is proved to agree with the ledger.
 */
module BufferedClient {
  import opened Powers

  const CHANNEL_CAPACITY := 1000
  const MAX_BUFFER_SIZE := 10_000
  const INITIAL_DELAY := 1
  const MAX_DELAY := 30
  const BACKOFF_FACTOR := 2

  /** A call of `send`, or one branch of the loop's select. */
  datatype Event<T> =
    | Send(message: T)
    | Receive(sendSucceeds: bool)
    | Tick(due: bool, connectSucceeds: bool, flushable: nat)
    | Shutdown

  /** Where each arrival is; arrivals are numbered from zero in the order in which `send` accepts them. */
  datatype Ledger<T> = Ledger(
    running: bool,
    connected: bool,
    delay: nat,
    arrived: seq<T>,
    delivered: seq<nat>,
    buffered: seq<nat>,
    queued: seq<nat>,
    lost: seq<nat>)
  {
    /** Every arrival that is not lost, in the order of delivery. */
    function Kept(): seq<nat> {
      delivered + buffered + queued
    }
  }

  function Initial<T>(): Ledger<T> {
    Ledger(true, false, INITIAL_DELAY, [], [], [], [], [])
  }

  /** `send` waits while the channel is full. */
  predicate Waits<T>(s: Ledger<T>) {
    s.running && |s.queued| >= CHANNEL_CAPACITY
  }

  predicate Attempts<T>(s: Ledger<T>, e: Event<T>) {
    e.Tick? && s.running && !s.connected && e.due
  }

  function Step<T>(s: Ledger<T>, e: Event<T>): Ledger<T> {
    match e
    case Send(m) =>
      var n := |s.arrived|;
      if Waits(s) then s
      else if s.running then s.(arrived := s.arrived + [m], queued := s.queued + [n])
      else if |s.buffered| < MAX_BUFFER_SIZE then s.(arrived := s.arrived + [m], buffered := s.buffered + [n])
      else s.(arrived := s.arrived + [m], lost := s.lost + [n])
    case Receive(sendSucceeds) =>
      if !s.running || s.queued == [] then s
      else
        var n, rest := s.queued[0], s.queued[1..];
        if s.connected && sendSucceeds then s.(delivered := s.delivered + [n], queued := rest)
        else if |s.buffered| < MAX_BUFFER_SIZE
        then s.(connected := false, buffered := s.buffered + [n], queued := rest)
        else s.(connected := false, lost := s.lost + [n], queued := rest)
    case Tick(due, connectSucceeds, flushable) =>
      if !Attempts(s, e) then s
      else if !connectSucceeds then s.(delay := Min(s.delay * BACKOFF_FACTOR, MAX_DELAY))
      else if flushable >= |s.buffered| then
        s.(delay := INITIAL_DELAY, connected := true, delivered := s.delivered + s.buffered, buffered := [])
      else
        s.(delay := INITIAL_DELAY,
           delivered := s.delivered + s.buffered[..flushable],
           buffered := [s.buffered[flushable]],
           lost := s.lost + s.buffered[flushable + 1..])
    case Shutdown => s.(running := false, connected := false, queued := [], lost := s.lost + s.queued)
  }

  function Run<T>(events: seq<Event<T>>): Ledger<T> {
    if events == [] then Initial() else Step(Run(events[..|events| - 1]), events[|events| - 1])
  }

  // ----- The client with its real buffer

  ghost predicate Below(numbers: seq<nat>, n: nat) {
    forall j :: 0 <= j < |numbers| ==> numbers[j] < n
  }

  /** The arrivals with the given numbers. */
  ghost function Pick<T>(arrived: seq<T>, numbers: seq<nat>): (messages: seq<T>)
    requires Below(numbers, |arrived|)
    ensures |messages| == |numbers|
    ensures forall j :: 0 <= j < |numbers| ==> messages[j] == arrived[numbers[j]]
  {
    if numbers == [] then [] else [arrived[numbers[0]]] + Pick(arrived, numbers[1..])
  }

  class BufferedIpcClient<T> {
    var running: bool
    var connected: bool
    var reconnectDelay: nat
    var channel: seq<T>
    var buffer: seq<T>
    var sent: seq<T>
    ghost var history: seq<Event<T>>

    /** The client is in the state that the ledger of its history describes. */
    ghost predicate Valid()
      reads this
    {
      var s := Run(history);
      && Below(s.queued, |s.arrived|) && Below(s.buffered, |s.arrived|) && Below(s.delivered, |s.arrived|)
      && running == s.running && connected == s.connected && reconnectDelay == s.delay
      && channel == Pick(s.arrived, s.queued)
      && buffer == Pick(s.arrived, s.buffered)
      && sent == Pick(s.arrived, s.delivered)
    }

    constructor ()
      ensures Valid() && history == []
    {
      running, connected, reconnectDelay := true, false, INITIAL_DELAY;
      channel, buffer, sent, history := [], [], [], [];
    }

    method PushBack(message: T)
      modifies this`buffer
      ensures buffer == if |old(buffer)| < 10_000 then old(buffer) + [message] else old(buffer)
    {
      if |buffer| < MAX_BUFFER_SIZE {
        buffer := buffer + [message];
      }
    }

    /** Accepts a message unless the channel is full; after the loop has ended it reaches only the buffer. */
    method TrySend(message: T) returns (accepted: bool)
      requires Valid()
      modifies this
      ensures Valid() && history == old(history) + [Send(message)]
      ensures accepted <==> !(old(running) && |old(channel)| >= 1000)
    {
      ghost var e := Send(message);
      hide Run, Pick;
      RunSteps(history, e);
      accepted := true;
      if running {
        if |channel| < CHANNEL_CAPACITY {
          channel := channel + [message];
        } else {
          accepted := false;
        }
      } else {
        PushBack(message);
      }
      history := history + [e];
    }

    method OnReceive(sendSucceeds: bool)
      requires Valid() && running
      modifies this
      ensures Valid() && history == old(history) + [Receive(sendSucceeds)]
    {
      ghost var e := Receive(sendSucceeds);
      hide Run, Pick;
      RunSteps(history, e);
      if channel != [] {
        var message := channel[0];
        channel := channel[1..];
        if connected {
          if sendSucceeds {
            sent := sent + [message];
          } else {
            connected := false;
            PushBack(message);
          }
        } else {
          PushBack(message);
        }
      }
      history := history + [e];
    }

    method OnTick(due: bool, connectSucceeds: bool, flushable: nat)
      requires Valid() && running
      modifies this
      ensures Valid() && history == old(history) + [Tick(due, connectSucceeds, flushable)]
    {
      ghost var e := Tick(due, connectSucceeds, flushable);
      hide Run, Pick;
      RunSteps(history, e);
      if !connected && due {
        if connectSucceeds {
          connected := true;
          reconnectDelay := INITIAL_DELAY;
          Flush(flushable);
        } else {
          reconnectDelay := Min(reconnectDelay * BACKOFF_FACTOR, MAX_DELAY);
        }
      }
      history := history + [e];
    }

    /** Ends the loop and drops the channel with what is in it. */
    method OnShutdown()
      requires Valid() && running
      modifies this
      ensures Valid() && history == old(history) + [Shutdown]
    {
      ghost var e := Shutdown;
      hide Run, Pick;
      RunSteps(history, e);
      running, connected, channel := false, false, [];
      history := history + [e];
    }

    /** Drains the buffer; the first message that cannot be sent is buffered again and ends the flush. */
    method Flush(flushable: nat)
      modifies this`buffer, this`sent, this`connected
      ensures flushable >= |old(buffer)| ==>
                sent == old(sent) + old(buffer) && buffer == [] && connected == old(connected)
      ensures flushable < |old(buffer)| ==>
                sent == old(sent) + old(buffer)[..flushable] && buffer == [old(buffer)[flushable]] && !connected
    {
      var batch := buffer;
      buffer := [];
      for i := 0 to |batch|
        invariant i <= flushable
        invariant sent == old(sent) + batch[..i] && buffer == [] && connected == old(connected)
      {
        if i < flushable {
          sent := sent + [batch[i]];
        } else {
          PushBack(batch[i]);
          connected := false;
          break;
        }
      }
    }
  }

  lemma RunSteps<T>(events: seq<Event<T>>, e: Event<T>)
    ensures Run(events + [e]) == Step(Run(events), e)
  {
    assert (events + [e])[..|events|] == events;
  }

  // ----- What every run keeps

  ghost predicate Increasing(numbers: seq<nat>) {
    forall i, j :: 0 <= i < j < |numbers| ==> numbers[i] < numbers[j]
  }

  function UpTo(n: nat): seq<nat> {
    if n == 0 then [] else UpTo(n - 1) + [n - 1]
  }

  /** Of n arrivals, those kept are in order, and with those lost they are all, each once. */
  ghost predicate Accounted(kept: seq<nat>, lost: seq<nat>, n: nat) {
    && Below(kept, n) && Increasing(kept)
    && multiset(kept) + multiset(lost) == multiset(UpTo(n))
    && (lost == [] ==> kept == UpTo(n))
  }

  ghost predicate Invariant<T>(s: Ledger<T>) {
    && |s.buffered| <= MAX_BUFFER_SIZE && |s.queued| <= CHANNEL_CAPACITY
    && (s.connected ==> s.buffered == [])
    && (!s.running ==> s.queued == [] && !s.connected)
    && Accounted(s.Kept(), s.lost, |s.arrived|)
  }

  lemma AccountKept(kept: seq<nat>, lost: seq<nat>, n: nat)
    requires Accounted(kept, lost, n)
    ensures Accounted(kept + [n], lost, n + 1)
  {
  }

  lemma AccountLost(kept: seq<nat>, lost: seq<nat>, n: nat)
    requires Accounted(kept, lost, n)
    ensures Accounted(kept, lost + [n], n + 1)
  {
  }

  lemma OrderWithout(a: seq<nat>, x: seq<nat>, b: seq<nat>, n: nat)
    requires Below(a + x + b, n) && Increasing(a + x + b)
    ensures Below(a + b, n) && Increasing(a + b)
  {
    var all, d := a + x + b, |x|;
    assert forall i :: 0 <= i < |a| ==> (a + b)[i] == all[i];
    assert forall i :: |a| <= i < |a + b| ==> (a + b)[i] == all[i + d];
  }

  /** Losing a slice of what is kept. */
  lemma AccountCut(a: seq<nat>, x: seq<nat>, b: seq<nat>, lost: seq<nat>, n: nat)
    requires Accounted(a + x + b, lost, n)
    ensures Accounted(a + b, lost + x, n)
  {
    OrderWithout(a, x, b, n);
    hide Below, Increasing, UpTo;
    if lost + x == [] {
      assert lost == [] && x == [];
      assert a + x + b == a + b;
    }
  }

  lemma ReceiveKeepsAccount<T>(s: Ledger<T>, e: Event<T>)
    requires Invariant(s) && e.Receive?
    ensures Accounted(Step(s, e).Kept(), Step(s, e).lost, |Step(s, e).arrived|)
  {
    hide Accounted;
    var s' := Step(s, e);
    if s.running && s.queued != [] {
      var n := s.queued[0];
      assert s.queued == [n] + s'.queued;
      assert s.Kept() == (s.delivered + s.buffered) + [n] + s'.queued;
      if s'.lost == s.lost {
        assert s'.Kept() == s.Kept();
      } else {
        AccountCut(s.delivered + s.buffered, [n], s'.queued, s.lost, |s.arrived|);
      }
    }
  }

  lemma FlushKeepsAccount<T>(s: Ledger<T>, e: Event<T>)
    requires Invariant(s) && Attempts(s, e) && e.connectSucceeds
    ensures Accounted(Step(s, e).Kept(), Step(s, e).lost, |Step(s, e).arrived|)
  {
    hide Accounted;
    var s', k := Step(s, e), e.flushable;
    if k < |s.buffered| {
      var sent, tail := s.delivered + s.buffered[..k + 1], s.buffered[k + 1..];
      assert s.buffered[..k + 1] == s.buffered[..k] + [s.buffered[k]];
      assert s.buffered == s.buffered[..k + 1] + tail;
      assert s.Kept() == sent + tail + s.queued;
      assert s'.Kept() == sent + s.queued;
      AccountCut(sent, tail, s.queued, s.lost, |s.arrived|);
    } else {
      assert s'.Kept() == s.Kept();
    }
  }

  lemma SendKeepsAccount<T>(s: Ledger<T>, e: Event<T>)
    requires Invariant(s) && e.Send?
    ensures Accounted(Step(s, e).Kept(), Step(s, e).lost, |Step(s, e).arrived|)
  {
    hide Accounted;
    var s', kept, n := Step(s, e), s.Kept(), |s.arrived|;
    if !Waits(s) {
      if s'.lost == s.lost {
        assert s'.Kept() == kept + [n];
        AccountKept(kept, s.lost, n);
      } else {
        AccountLost(kept, s.lost, n);
      }
    }
  }

  lemma ShutdownKeepsAccount<T>(s: Ledger<T>)
    requires Invariant(s)
    ensures var s' := Step(s, Shutdown); Accounted(s'.Kept(), s'.lost, |s'.arrived|)
  {
    hide Accounted;
    assert s.Kept() == (s.delivered + s.buffered) + s.queued + [];
    AccountCut(s.delivered + s.buffered, s.queued, [], s.lost, |s.arrived|);
  }

  lemma StepKeepsInvariant<T>(s: Ledger<T>, e: Event<T>)
    requires Invariant(s)
    ensures Invariant(Step(s, e))
  {
    hide Accounted;
    match e
    case Send(_) => SendKeepsAccount(s, e);
    case Receive(_) => ReceiveKeepsAccount(s, e);
    case Tick(_, ok, _) =>
      if Attempts(s, e) && ok {
        FlushKeepsAccount(s, e);
      }
    case Shutdown => ShutdownKeepsAccount(s);
  }

  /**
   In every run channel and buffer are bounded, and the buffer is empty while connected;
   deliveries, buffer and channel, in this order, are a subsequence of the arrivals; every
   arrival is delivered, buffered, queued or lost, exactly once; and without a loss they
   are all the arrivals.
   */
  lemma {:induction false} RunKeepsInvariant<T>(events: seq<Event<T>>)
    ensures Invariant(Run(events))
    ensures |Run(events).buffered| <= 10_000 && |Run(events).queued| <= 1000
  {
    if events != [] {
      RunKeepsInvariant(events[..|events| - 1]);
      StepKeepsInvariant(Run(events[..|events| - 1]), events[|events| - 1]);
    }
  }

  /**
   The arrivals that an event loses: one that meets a full buffer, the tail of the buffer
   behind a failed flush, or the channel when the loop ends.
   */
  function Loss<T>(s: Ledger<T>, e: Event<T>): seq<nat> {
    match e
    case Send(_) => if !s.running && |s.buffered| >= MAX_BUFFER_SIZE then [|s.arrived|] else []
    case Receive(ok) =>
      if s.running && s.queued != [] && !(s.connected && ok) && |s.buffered| >= MAX_BUFFER_SIZE then [s.queued[0]] else []
    case Tick(_, ok, flushable) =>
      if Attempts(s, e) && ok && flushable < |s.buffered| then s.buffered[flushable + 1..] else []
    case Shutdown => s.queued
  }

  function LossAt<T>(events: seq<Event<T>>, t: nat): seq<nat>
    requires t < |events|
  {
    Loss(Run(events[..t]), events[t])
  }

  lemma StepLoses<T>(s: Ledger<T>, e: Event<T>)
    ensures Step(s, e).lost == s.lost + Loss(s, e)
  {
  }

  /** The lost arrivals are precisely those that some event of the run lost. */
  lemma {:induction false} LostIffSomeEventLost<T>(events: seq<Event<T>>, i: nat)
    ensures i in Run(events).lost <==> exists t: nat :: t < |events| && i in LossAt(events, t)
  {
    if events != [] {
      var n := |events| - 1;
      var front := events[..n];
      LostIffSomeEventLost(front, i);
      StepLoses(Run(front), events[n]);
      hide Step, Loss;
      forall t: nat | t < n ensures LossAt(front, t) == LossAt(events, t) {
        assert front[..t] == events[..t];
      }
      assert Run(events).lost == Run(front).lost + LossAt(events, n);
    }
  }

  /**
   The arrivals that an event delivers: the head of the channel that a connected loop sends,
   or what a due and successful reconnection flushes.
   */
  function Delivery<T>(s: Ledger<T>, e: Event<T>): seq<nat> {
    match e
    case Receive(true) => if s.running && s.connected && s.queued != [] then [s.queued[0]] else []
    case Tick(true, true, flushable) =>
      if s.running && !s.connected then s.buffered[..Min(flushable, |s.buffered|)] else []
    case _ => []
  }

  function Deliveries<T>(events: seq<Event<T>>): seq<nat> {
    if events == [] then [] else
      var front := events[..|events| - 1];
      Deliveries(front) + Delivery(Run(front), events[|events| - 1])
  }

  /** What was delivered is what successful sends and flushes delivered, in their order; nothing else delivers. */
  lemma {:induction false} DeliveredByEvents<T>(events: seq<Event<T>>)
    ensures Run(events).delivered == Deliveries(events)
  {
    if events != [] {
      DeliveredByEvents(events[..|events| - 1]);
      StepDelivers(Run(events[..|events| - 1]), events[|events| - 1]);
    }
  }

  lemma StepDelivers<T>(s: Ledger<T>, e: Event<T>)
    ensures Step(s, e).delivered == s.delivered + Delivery(s, e)
  {
    if e.Tick? && e.flushable >= |s.buffered| {
      assert s.buffered[..|s.buffered|] == s.buffered;
    }
  }

  /** A tick does nothing unless it is due and the running loop is not connected. */
  lemma IdleTick<T>(s: Ledger<T>, e: Event<T>)
    requires e.Tick? && !(e.due && s.running && !s.connected)
    ensures Step(s, e) == s
  {
  }

  // ----- What can still be delivered

  /** Arrival i is lost, or was left in the buffer when the loop ended: only the loop drains the buffer. */
  predicate Stranded<T>(s: Ledger<T>, i: nat) {
    i in s.lost || (!s.running && i in s.buffered)
  }

  lemma {:induction false} UpToCounts(n: nat, i: nat)
    ensures multiset(UpTo(n))[i] == if i < n then 1 else 0
  {
    if n > 0 {
      UpToCounts(n - 1, i);
    }
  }

  /** Every arrival is in exactly one place. */
  lemma OnePlace<T>(s: Ledger<T>, i: nat)
    requires Invariant(s)
    ensures i < |s.arrived| <==> i in s.Kept() || i in s.lost
    ensures i in s.Kept() ==> i !in s.lost
    ensures i in s.delivered ==> i !in s.buffered
  {
    var kept, all := multiset(s.Kept()), multiset(UpTo(|s.arrived|));
    UpToCounts(|s.arrived|, i);
    hide UpTo;
    assert kept[i] + multiset(s.lost)[i] == all[i];
    assert i in s.Kept() <==> kept[i] > 0;
    assert i in s.lost <==> multiset(s.lost)[i] > 0;
    forall a, b | 0 <= a < |s.delivered| && 0 <= b < |s.buffered| ensures s.delivered[a] < s.buffered[b] {
      assert s.Kept()[a] < s.Kept()[|s.delivered| + b];
    }
  }

  lemma StrandedStays<T>(s: Ledger<T>, e: Event<T>, i: nat)
    requires Stranded(s, i)
    ensures Stranded(Step(s, e), i)
  {
  }

  lemma {:induction false} StrandedForever<T>(events: seq<Event<T>>, more: seq<Event<T>>, i: nat)
    requires Stranded(Run(events), i)
    ensures Stranded(Run(events + more), i) && i !in Run(events + more).delivered
  {
    hide Step, Stranded, Invariant;
    if more == [] {
      assert events + more == events;
    } else {
      var front, e := more[..|more| - 1], more[|more| - 1];
      StrandedForever(events, front, i);
      assert events + more == events + front + [e];
      RunSteps(events + front, e);
      StrandedStays(Run(events + front), e, i);
    }
    RunKeepsInvariant(events + more);
    StrandedIsUndelivered(Run(events + more), i);
  }

  lemma StrandedIsUndelivered<T>(s: Ledger<T>, i: nat)
    requires Invariant(s) && Stranded(s, i)
    ensures i !in s.delivered
  {
    OnePlace(s, i);
    assert i in s.delivered ==> i in s.Kept();
  }

  /** A connected loop delivers its channel, one successful send at a time. */
  lemma {:induction false} ChannelDrains<T>(events: seq<Event<T>>, i: nat) returns (more: seq<Event<T>>)
    requires var s := Run(events); s.running && s.connected && (i in s.delivered || i in s.queued)
    ensures i in Run(events + more).delivered
    decreases |Run(events).queued|
  {
    if i in Run(events).delivered {
      more := [];
      assert events + more == events;
    } else {
      RunSteps(events, Receive(true));
      var rest := ChannelDrains(events + [Receive(true)], i);
      more := [Receive(true)] + rest;
      assert events + more == events + [Receive(true)] + rest;
    }
  }

  /** While the loop runs, a connection that flushes the whole buffer, and then the channel, deliver what is kept. */
  lemma KeptIsDeliverable<T>(events: seq<Event<T>>, i: nat) returns (more: seq<Event<T>>)
    requires i in Run(events).Kept() && !Stranded(Run(events), i)
    ensures i in Run(events + more).delivered
  {
    hide Accounted;
    RunKeepsInvariant(events);
    var s := Run(events);
    if s.running {
      var reconnect := Tick(true, true, |s.buffered|);
      RunSteps(events, reconnect);
      var rest := ChannelDrains(events + [reconnect], i);
      more := [reconnect] + rest;
      assert events + more == events + [reconnect] + rest;
    } else {
      more := [];
      assert events + more == events;
    }
  }

  /**
   An arrival will never be delivered, whatever happens next, exactly when it is lost or the
   loop has ended with it in the buffer.
   */
  lemma NeverDeliveredIff<T>(events: seq<Event<T>>, i: nat)
    requires i < |Run(events).arrived|
    ensures (forall more: seq<Event<T>> :: i !in Run(events + more).delivered) <==>
            i in Run(events).lost || (!Run(events).running && i in Run(events).buffered)
  {
    RunKeepsInvariant(events);
    OnePlace(Run(events), i);
    hide Run, Invariant;
    if Stranded(Run(events), i) {
      forall more: seq<Event<T>> ensures i !in Run(events + more).delivered {
        StrandedForever(events, more, i);
      }
    } else {
      var more := KeptIsDeliverable(events, i);
    }
  }

  /** A message that is buffered when the loop ends is never delivered, although no event loses it. */
  lemma ShutdownStrandsBuffer<T>(m: T, more: seq<Event<T>>)
    ensures var events := [Send(m), Receive(true), Shutdown];
            && Run(events).lost == []
            && (forall t: nat :: t < |events| ==> LossAt(events, t) == [])
            && 0 !in Run(events + more).delivered
  {
    var e0, e1, e2 := Send(m), Receive(true), Shutdown;
    var events := [e0, e1, e2];
    assert Run<T>([]) == Initial();
    hide Run;
    assert events[..0] == [] && events[..1] == [] + [e0] && events[..2] == events[..1] + [e1];
    assert events == events[..2] + [e2];
    RunSteps([], e0);
    RunSteps(events[..1], e1);
    RunSteps(events[..2], e2);
    assert Run(events[..1]) == Ledger(true, false, INITIAL_DELAY, [m], [], [], [0], []);
    assert Run(events[..2]) == Ledger(true, false, INITIAL_DELAY, [m], [], [0], [], []);
    assert Run(events) == Ledger(false, false, INITIAL_DELAY, [m], [], [0], [], []);
    hide Step;
    assert Stranded(Run(events), 0);
    StrandedForever(events, more, 0);
  }

  // ----- Backoff

  /** Failed connection attempts since the last successful one. */
  function FailureStreak<T>(events: seq<Event<T>>): nat {
    if events == [] then 0 else
      var front, e := events[..|events| - 1], events[|events| - 1];
      if !(e.Tick? && e.due && Run(front).running && !Run(front).connected) then FailureStreak(front)
      else if e.connectSucceeds then 0 else FailureStreak(front) + 1
  }

  /** After k failed attempts in a row the delay is 2^k seconds, at most 30. */
  lemma {:induction false} DelayDoublesToMaximum<T>(events: seq<Event<T>>)
    ensures Run(events).delay == Min(Pow2(FailureStreak(events)), 30)
  {
    if events != [] {
      DelayDoublesToMaximum(events[..|events| - 1]);
    }
  }
}
