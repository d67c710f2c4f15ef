/**
 The single-consumer event channel: its critical sections as methods of a class, and every
 interleaving of producers, consumers and closers as runs of a transition system whose
 steps are exactly those critical sections.
 */
module EventChannels {
  import opened Prelude

  /** The fields of a channel, as a value. */
  datatype Channel<E> = Channel(maxPending: nat, closed: bool, claimed: bool, events: seq<E>, consumed: nat)

  datatype EmitOutcome = Blocked | ClosedError | Appended

  datatype NextOutcome<+E> = Wait | End | Item(item: E)

  datatype ChannelError = BadMaxPending

  predicate EmitMustWait<E>(c: Channel<E>) {
    c.claimed && |c.events| - c.consumed >= c.maxPending && !c.closed
  }

  predicate NextMustWait<E>(c: Channel<E>, cursor: nat) {
    cursor >= |c.events| && !c.closed
  }

  function EmitStep<E>(c: Channel<E>, e: E): (Channel<E>, EmitOutcome) {
    if EmitMustWait(c) then (c, Blocked)
    else if c.closed then (c, ClosedError)
    else (c.(events := c.events + [e]), Appended)
  }

  function CloseStep<E>(c: Channel<E>): Channel<E> { c.(closed := true) }

  function ClaimStep<E>(c: Channel<E>): (Channel<E>, bool) {
    if c.claimed then (c, false) else (c.(claimed := true), true)
  }

  function NextStep<E>(c: Channel<E>, cursor: nat): (Channel<E>, NextOutcome<E>) {
    if NextMustWait(c, cursor) then (c, Wait)
    else if cursor >= |c.events| then (c, End)
    else (c.(consumed := cursor + 1), Item(c.events[cursor]))
  }

  /** `EventChannel`; each method is one pass through a critical section of the condition's lock. */
  class EventChannel<E> {
    const maxPending: nat
    var closed: bool
    var claimed: bool
    var events: seq<E>
    var consumed: nat

    constructor (max: nat)
      ensures State() == Channel(max, false, false, [], 0)
    {
      maxPending := max;
      closed, claimed, events, consumed := false, false, [], 0;
    }

    static method Create(max: int) returns (channel: Result<EventChannel<E>, ChannelError>)
      ensures channel.Err? <==> max < 1
      ensures channel.Ok? ==> fresh(channel.value) && channel.value.State() == Channel(max, false, false, [], 0)
    {
      if max < 1 {
        return Err(BadMaxPending);
      }
      var c := new EventChannel<E>(max);
      return Ok(c);
    }

    function State(): Channel<E>
      reads this
    {
      Channel(maxPending, closed, claimed, events, consumed)
    }

    /** One pass of `emit`: Blocked stands for another `wait()` on the condition. */
    method Emit(e: E) returns (outcome: EmitOutcome)
      modifies this
      ensures (State(), outcome) == EmitStep(old(State()), e)
    {
      if claimed && |events| - consumed >= maxPending && !closed {
        return Blocked;
      }
      if closed {
        return ClosedError;
      }
      events := events + [e];
      return Appended;
    }

    method Close()
      modifies this
      ensures State() == CloseStep(old(State()))
    {
      if closed {
        return;
      }
      closed := true;
    }

    /** The first critical section of `iterate`; false stands for its RuntimeError. */
    method Claim() returns (ok: bool)
      modifies this
      ensures (State(), ok) == ClaimStep(old(State()))
    {
      if claimed {
        return false;
      }
      claimed := true;
      return true;
    }

    /** One pass of the loop of `iterate` with the consumer's own cursor. */
    method Next(cursor: nat) returns (outcome: NextOutcome<E>)
      modifies this
      ensures (State(), outcome) == NextStep(old(State()), cursor)
    {
      if !(cursor < |events| || closed) {
        return Wait;
      }
      if cursor >= |events| {
        return End;
      }
      outcome := Item(events[cursor]);
      consumed := cursor + 1;
    }
  }

  // ----- All interleavings -----

  datatype Consumer<E> = Consumer(id: nat, cursor: nat, delivered: seq<E>, asleep: bool, finished: bool)

  /**
   A channel with its tasks. emitting holds the producers inside `emit`; those in asleep wait on
   the condition. The last four fields are history: successful and failed claims, the appended
   events in order, and how many were undelivered when the claim succeeded.
   */
  datatype System<E> = System(
    channel: Channel<E>,
    emitting: map<nat, E>,
    asleep: set<nat>,
    consumer: Option<Consumer<E>>,
    claims: seq<nat>,
    accepted: seq<E>,
    undeliveredAtClaim: nat)

  datatype Action<E> =
    | BeginEmit(producer: nat, event: E)
    | RetryEmit(producer: nat)
    | Close
    | Claim(id: nat)
    | Next

  function Start<E>(maxPending: nat): System<E> {
    System(Channel(maxPending, false, false, [], 0), map[], {}, None, [], [], 0)
  }

  /** `notify_all` wakes every waiting task; each re-checks its own guard later. */
  function NotifyAll<E>(s: System<E>): System<E> {
    s.(asleep := {}, consumer := if s.consumer.Some? then Some(s.consumer.value.(asleep := false)) else None)
  }

  function Attempt<E>(s: System<E>, producer: nat): System<E>
    requires producer in s.emitting
  {
    var (channel, outcome) := EmitStep(s.channel, s.emitting[producer]);
    match outcome
    case Blocked => s.(asleep := s.asleep + {producer})
    case ClosedError => s.(emitting := s.emitting - {producer})
    case Appended => NotifyAll(s.(channel := channel, emitting := s.emitting - {producer},
                                  accepted := s.accepted + [s.emitting[producer]]))
  }

  function ConsumerNext<E>(s: System<E>): System<E>
    requires s.consumer.Some?
  {
    var c := s.consumer.value;
    var (channel, outcome) := NextStep(s.channel, c.cursor);
    match outcome
    case Wait => s.(consumer := Some(c.(asleep := true)))
    case End => s.(consumer := Some(c.(finished := true)))
    case Item(e) =>
      NotifyAll(s.(channel := channel, consumer := Some(c.(cursor := c.cursor + 1, delivered := c.delivered + [e]))))
  }

  /** One atomic step of some task; an action whose task cannot act leaves the system alone. */
  function Step<E>(s: System<E>, a: Action<E>): System<E> {
    match a
    case BeginEmit(p, e) => if p in s.emitting then s else Attempt(s.(emitting := s.emitting[p := e]), p)
    case RetryEmit(p) => if p in s.emitting && p !in s.asleep then Attempt(s, p) else s
    case Close => if s.channel.closed then s else NotifyAll(s.(channel := CloseStep(s.channel)))
    case Claim(id) =>
      var (channel, ok) := ClaimStep(s.channel);
      if !ok then s
      else NotifyAll(s.(channel := channel, claims := s.claims + [id], undeliveredAtClaim := |s.channel.events|,
                        consumer := Some(Consumer(id, 0, [], false, false))))
    case Next => if s.consumer.Some? && !s.consumer.value.asleep && !s.consumer.value.finished then ConsumerNext(s)
      else s
  }

  function Run<E>(s: System<E>, actions: seq<Action<E>>): System<E>
    decreases |actions|
  {
    if actions == [] then s else Run(Step(s, actions[0]), actions[1..])
  }

  // ----- What every reachable state satisfies -----

  /** At most one successful claim; what was delivered is a prefix of the log; the end means all of a closed log. */
  predicate DeliveryOk<E(==)>(s: System<E>) {
    && s.channel.consumed <= |s.channel.events|
    && s.accepted == s.channel.events
    && |s.claims| <= 1 && (s.channel.claimed <==> |s.claims| == 1) && (s.channel.claimed <==> s.consumer.Some?)
    && (!s.channel.claimed ==> s.channel.consumed == 0)
    && (s.consumer.Some? ==>
          var c := s.consumer.value;
          && s.claims == [c.id] && c.cursor == s.channel.consumed
          && c.delivered == s.channel.events[..c.cursor]
          && (c.finished ==> s.channel.closed && c.delivered == s.channel.events))
  }

  /** Once claimed, the undelivered events never exceed the limit or what the claim already found. */
  predicate BackpressureOk<E>(s: System<E>) {
    s.channel.claimed ==> |s.channel.events| - s.channel.consumed <= Max(s.channel.maxPending, s.undeliveredAtClaim)
  }

  /** No lost wake-up: a task that sleeps has a guard that still tells it to wait. */
  predicate SleepersMustWait<E>(s: System<E>) {
    && (forall p :: p in s.asleep ==> p in s.emitting)
    && (s.asleep != {} ==> EmitMustWait(s.channel))
    && (s.consumer.Some? && s.consumer.value.asleep ==>
      !s.consumer.value.finished && NextMustWait(s.channel, s.consumer.value.cursor))
  }

  predicate Inv<E(==)>(s: System<E>) {
    s.channel.maxPending >= 1 && DeliveryOk(s) && BackpressureOk(s) && SleepersMustWait(s)
  }

  lemma {:induction false} StepKeepsDelivery<E>(s: System<E>, a: Action<E>)
    requires Inv(s)
    ensures DeliveryOk(Step(s, a))
  {
  }

  lemma {:induction false} StepKeepsWaiting<E>(s: System<E>, a: Action<E>)
    requires Inv(s)
    ensures Step(s, a).channel.maxPending == s.channel.maxPending
    ensures BackpressureOk(Step(s, a)) && SleepersMustWait(Step(s, a))
  {
  }

  /** How one step may change the log: only by appending while open, and a closed log is final. */
  predicate LogGrows<E(==)>(s: Channel<E>, t: Channel<E>) {
    && s.events <= t.events && (s.closed ==> t.closed && t.events == s.events)
    && (s.claimed ==> t.claimed) && s.consumed <= t.consumed
  }

  lemma {:induction false} StepGrowsLog<E>(s: System<E>, a: Action<E>)
    requires Inv(s)
    ensures LogGrows(s.channel, Step(s, a).channel)
    ensures s.claims <= Step(s, a).claims
  {
  }

  lemma {:induction false} RunKeepsInv<E>(s: System<E>, actions: seq<Action<E>>)
    requires Inv(s)
    ensures Inv(Run(s, actions))
    ensures LogGrows(s.channel, Run(s, actions).channel)
    ensures s.claims <= Run(s, actions).claims
    decreases |actions|
  {
    if actions != [] {
      StepKeepsDelivery(s, actions[0]);
      StepKeepsWaiting(s, actions[0]);
      StepGrowsLog(s, actions[0]);
      RunKeepsInv(Step(s, actions[0]), actions[1..]);
    }
  }

  /** Every interleaving, from an empty channel, keeps all three promises. */
  lemma {:induction false} ChannelIsSafe<E>(maxPending: nat, actions: seq<Action<E>>)
    requires maxPending >= 1
    ensures var s := Run(Start(maxPending), actions);
            DeliveryOk(s) && BackpressureOk(s) && SleepersMustWait(s)
  {
    RunKeepsInv(Start<E>(maxPending), actions);
  }

  lemma {:induction false} RunAppend<E>(s: System<E>, before: seq<Action<E>>, after: seq<Action<E>>)
    ensures Run(s, before + after) == Run(Run(s, before), after)
    decreases |before|
  {
    if before == [] {
      assert before + after == after;
    } else {
      assert (before + after)[0] == before[0] && (before + after)[1..] == before[1..] + after;
      RunAppend(Step(s, before[0]), before[1..], after);
    }
  }

  /** Between any two moments of a run the log only grows, nothing follows a close, and no second claim succeeds. */
  lemma {:induction false} LogIsAppendOnly<E>(maxPending: nat, before: seq<Action<E>>, after: seq<Action<E>>)
    requires maxPending >= 1
    ensures var s, t := Run(Start(maxPending), before), Run(Start(maxPending), before + after);
            LogGrows(s.channel, t.channel) && (s.channel.claimed ==> t.claims == s.claims)
  {
    RunAppend(Start<E>(maxPending), before, after);
    RunKeepsInv(Start<E>(maxPending), before);
    RunKeepsInv(Run(Start<E>(maxPending), before), after);
  }

  // ----- What one emit and one look of the consumer do -----

  /**
   An emit fails on a closed channel, waits while a claimed one has maxPending undelivered events
   or more, and otherwise appends.
   */
  lemma {:induction false} EmitExactly<E>(s: System<E>, producer: nat, e: E)
    requires producer !in s.emitting
    ensures var c, t := s.channel, Step(s, BeginEmit(producer, e));
            if c.closed then t == s
            else if c.claimed && |c.events| - c.consumed >= c.maxPending then
              t == s.(emitting := s.emitting[producer := e], asleep := s.asleep + {producer})
            else
              && t.channel == c.(events := c.events + [e]) && t.accepted == s.accepted + [e]
              && t.emitting == s.emitting && t.asleep == {} && t.claims == s.claims
              && (t.consumer.Some? <==> s.consumer.Some?)
              && (s.consumer.Some? ==> t.consumer.value == s.consumer.value.(asleep := false))
  {
    assert s.emitting[producer := e] - {producer} == s.emitting;
  }

  /** An awake consumer takes the next event if there is one, ends on a closed channel, and otherwise sleeps. */
  lemma {:induction false} LookExactly<E>(s: System<E>)
    requires s.consumer.Some? && !s.consumer.value.asleep && !s.consumer.value.finished
    ensures var c, k, t := s.channel, s.consumer.value.cursor, Step(s, Next);
            if k < |c.events| then
              && t.channel == c.(consumed := k + 1) && t.asleep == {} && t.emitting == s.emitting
              && t.consumer == Some(s.consumer.value.(cursor := k + 1, delivered := s.consumer.value.delivered +
                  [c.events[k]]))
            else if c.closed then t == s.(consumer := Some(s.consumer.value.(finished := true)))
            else t == s.(consumer := Some(s.consumer.value.(asleep := true)))
  {
  }

  /** The first claim gives a consumer at the start of the log and wakes everyone; a later one is refused. */
  lemma {:induction false} ClaimExactly<E>(s: System<E>, id: nat)
    ensures var t := Step(s, Claim(id));
            if s.channel.claimed then t == s
            else
              && t.channel == s.channel.(claimed := true) && t.claims == s.claims + [id] && t.asleep == {}
              && t.consumer == Some(Consumer(id, 0, [], false, false))
              && t.undeliveredAtClaim == |s.channel.events| && t.emitting == s.emitting && t.accepted == s.accepted
  {
  }

  /** Closing closes and wakes everyone. */
  lemma {:induction false} CloseExactly<E>(s: System<E>)
    ensures var t := Step(s, Close);
            && t.channel == s.channel.(closed := true) && t.emitting == s.emitting
            && (!s.channel.closed ==> t.asleep == {} && (t.consumer.Some? ==> !t.consumer.value.asleep))
            && (t.consumer.Some? <==> s.consumer.Some?)
            && (s.consumer.Some? ==> t.consumer.value.(asleep := false) == s.consumer.value.(asleep := false))
  {
  }

  // ----- Progress -----

  /** In no reachable state of a claimed channel must both a producer and the consumer wait. */
  lemma {:induction false} NeverBothBlocked<E>(maxPending: nat, actions: seq<Action<E>>)
    requires maxPending >= 1
    ensures var s := Run(Start(maxPending), actions);
            s.consumer.Some? ==> !(EmitMustWait(s.channel) && NextMustWait(s.channel, s.consumer.value.cursor))
  {
    RunKeepsInv(Start<E>(maxPending), actions);
  }

  /**
   When a producer sleeps, the consumer is awake, its next step delivers the next event of the
   log, and that wakes every producer.
   */
  lemma {:induction false} SleepingProducerIsServed<E>(maxPending: nat, actions: seq<Action<E>>)
    requires maxPending >= 1 && Run(Start(maxPending), actions).asleep != {}
    ensures var s := Run(Start(maxPending), actions);
            var t := Step(s, Next);
            && s.consumer.Some? && !s.consumer.value.asleep && !s.consumer.value.finished
            && s.channel.consumed < |s.channel.events|
            && t.consumer.Some?
            && t.consumer.value.delivered == s.consumer.value.delivered + [s.channel.events[s.channel.consumed]]
            && t.asleep == {}
  {
    RunKeepsInv(Start<E>(maxPending), actions);
  }

  /** n consecutive steps of the consumer. */
  function Nexts<E>(n: nat): seq<Action<E>> { seq(n, _ => Next) }

  /** Once the channel is closed, the consumer alone finishes, having delivered exactly the log. */
  lemma {:induction false} ClosedChannelDrains<E>(s: System<E>)
    requires Inv(s) && s.channel.closed && s.consumer.Some?
    ensures var t := Run(s, Nexts(|s.channel.events| - s.channel.consumed + 1));
            t.consumer.Some? && t.consumer.value.finished && t.consumer.value.delivered == s.channel.events
    decreases |s.channel.events| - s.channel.consumed
  {
    var n := |s.channel.events| - s.channel.consumed;
    var t := Step(s, Next);
    StepKeepsDelivery(s, Next);
    StepKeepsWaiting(s, Next);
    assert Nexts<E>(n + 1)[1..] == Nexts<E>(n);
    if n == 0 || s.consumer.value.finished {
      StaysFinished(t, n);
    } else {
      ClosedChannelDrains(t);
    }
  }

  lemma {:induction false} StaysFinished<E>(s: System<E>, n: nat)
    requires s.consumer.Some? && s.consumer.value.finished
    ensures Run(s, Nexts(n)) == s
  {
    if n > 0 {
      assert Nexts<E>(n)[1..] == Nexts<E>(n - 1);
      StaysFinished(s, n - 1);
    }
  }

  /** Before a claim nothing is ever refused for lack of room: backpressure needs a live consumer. */
  lemma {:induction false} UnclaimedNeverBlocks<E>(maxPending: nat, actions: seq<Action<E>>, producer: nat, e: E)
    requires maxPending >= 1
    requires var s := Run(Start(maxPending), actions);
             !s.channel.claimed && !s.channel.closed && producer !in s.emitting
    ensures var s := Run(Start(maxPending), actions);
            Step(s, BeginEmit(producer, e)).channel.events == s.channel.events + [e]
  {
  }
}
