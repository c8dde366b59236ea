/** Bounded work: how often a message is handled, and why the queue runs dry. */
module Quiescence {
  import opened Protocol
  import opened Delivery
  import Lease
  import Rfc3339

  function Sum(s: seq<nat>): nat {
    if s == [] then 0 else Sum(s[..|s| - 1]) + s[|s| - 1]
  }

  lemma {:induction false} SumUpdate(s: seq<nat>, i: nat, v: nat)
    requires i < |s|
    ensures Sum(s[i := v]) + s[i] == Sum(s) + v
  {
    var n := |s| - 1;
    if i < n {
      SumUpdate(s[..n], i, v);
      assert s[i := v][..n] == s[..n][i := v];
    } else {
      assert s[i := v][..n] == s[..n];
    }
  }

  lemma SumSnoc(s: seq<nat>, v: nat)
    ensures Sum(s + [v]) == Sum(s) + v
  {
    assert (s + [v])[..|s|] == s;
  }

  /** How many deliveries the attempts show of message `m`. */
  function Handled(attempts: seq<Attempt>, m: nat): nat {
    Sum(seq(|attempts|, a requires 0 <= a < |attempts| => if attempts[a].msg == m then 1 else 0))
  }

  ghost predicate CountsOk(p: Params, s: State) {
    forall m: nat | m < |s.messages| :: s.messages[m].receives == Handled(s.attempts, m) <= p.maxReceives
  }

  lemma HandledSame(xs: seq<Attempt>, ys: seq<Attempt>, m: nat)
    requires |xs| == |ys| && forall a: nat | a < |xs| :: xs[a].msg == ys[a].msg
    ensures Handled(xs, m) == Handled(ys, m)
  {
    assert seq(|xs|, a requires 0 <= a < |xs| => if xs[a].msg == m then 1 else 0)
        == seq(|ys|, a requires 0 <= a < |ys| => if ys[a].msg == m then 1 else 0);
  }

  lemma HandledSnoc(xs: seq<Attempt>, x: Attempt, m: nat)
    ensures Handled(xs + [x], m) == Handled(xs, m) + if x.msg == m then 1 else 0
  {
    var v := if x.msg == m then 1 else 0;
    var f := seq(|xs|, a requires 0 <= a < |xs| => if xs[a].msg == m then 1 else 0);
    assert seq(|xs + [x]|, a requires 0 <= a < |xs + [x]| => if (xs + [x])[a].msg == m then 1 else 0) == f + [v];
    SumSnoc(f, v);
  }

  /** A message nobody has been given has no deliveries. */
  lemma {:induction false} HandledNever(xs: seq<Attempt>, m: nat)
    requires forall a: nat | a < |xs| :: xs[a].msg != m
    ensures Handled(xs, m) == 0
  {
    if xs != [] {
      var n := |xs| - 1;
      HandledNever(xs[..n], m);
      HandledSnoc(xs[..n], xs[n], m);
      assert xs == xs[..n] + [xs[n]];
    }
  }

  lemma CountsInv(p: Params, s: State, e: Event)
    requires QueueInv(p, s) && CountsOk(p, s) && Enabled(p, s, e) && Disciplined(p, s, e)
    ensures CountsOk(p, Apply(p, s, e))
  {
    hide Rfc3339.Stamp, Handled;
    Lease.EventsKeepBodies(p, s, e);
    var s' := Apply(p, s, e);
    forall m: nat | m < |s'.messages|
      ensures s'.messages[m].receives == Handled(s'.attempts, m) <= p.maxReceives
    {
      if e.Deliver? {
        HandledSnoc(s.attempts, s'.attempts[|s.attempts|], m);
      } else {
        HandledSame(s.attempts, s'.attempts, m);
        if m >= |s.messages| {
          HandledNever(s.attempts, m);
        }
      }
    }
  }

  /** What a message can still cause: its own removal, and seven units per delivery left. */
  function MessageRank(p: Params, m: Message): nat {
    if !m.place.OnQueue? then 0 else if m.receives < p.maxReceives then 7 * (p.maxReceives - m.receives) + 1 else 1
  }

  /** How many steps an attempt has left. */
  function AttemptRank(t: Attempt): nat {
    match t.pc
    case Delivered => 5
    case Armed(_) => 4
    case Holding => 3
    case Settling(_) => 2
    case Returned(_) => 1
    case Gone => 0
  }

  function MessageRanks(p: Params, ms: seq<Message>): seq<nat> {
    seq(|ms|, i requires 0 <= i < |ms| => MessageRank(p, ms[i]))
  }

  function AttemptRanks(ts: seq<Attempt>): seq<nat> {
    seq(|ts|, i requires 0 <= i < |ts| => AttemptRank(ts[i]))
  }

  /** The work the queue and the handlers have left. */
  function Rank(p: Params, s: State): nat {
    Sum(MessageRanks(p, s.messages)) + Sum(AttemptRanks(s.attempts))
  }

  /** Steps of the queue and of the handlers, as opposed to producers and the clock. */
  predicate IsWork(e: Event) {
    !e.Tick? && !e.ApiPut? && !e.ApiEnqueue? && !e.ForeignSend?
  }

  lemma AttemptMoves(s: State, a: nat, t: Attempt)
    requires a < |s.attempts|
    ensures Sum(AttemptRanks(s.attempts[a := t])) + AttemptRank(s.attempts[a]) == Sum(AttemptRanks(s.attempts)) + AttemptRank(t)
  {
    SumUpdate(AttemptRanks(s.attempts), a, AttemptRank(t));
    assert AttemptRanks(s.attempts[a := t]) == AttemptRanks(s.attempts)[a := AttemptRank(t)];
  }

  lemma MessageMoves(p: Params, s: State, m: nat, t: Message)
    requires m < |s.messages|
    ensures Sum(MessageRanks(p, s.messages[m := t])) + MessageRank(p, s.messages[m]) == Sum(MessageRanks(p, s.messages)) + MessageRank(p, t)
  {
    SumUpdate(MessageRanks(p, s.messages), m, MessageRank(p, t));
    assert MessageRanks(p, s.messages[m := t]) == MessageRanks(p, s.messages)[m := MessageRank(p, t)];
  }

  /** Steps of one attempt lower its own rank and no other. */
  lemma AttemptShrinks(p: Params, s: State, e: Event)
    requires ClockOk(p, s.clock) && Enabled(p, s, e)
    requires e.Discard? || e.Arm? || e.Claim? || e.Decide? || e.Retry? || e.Finish? || e.Vanish?
    ensures Rank(p, Apply(p, s, e)) < Rank(p, s)
  {
    hide Rfc3339.Stamp;
    var s' := Apply(p, s, e);
    AttemptMoves(s, e.a, s'.attempts[e.a]);
    assert s'.attempts == s.attempts[e.a := s'.attempts[e.a]] && s'.messages == s.messages;
    assert AttemptRank(s'.attempts[e.a]) < AttemptRank(s.attempts[e.a]);
  }

  /** Deliveries, deletions and dead-lettering use up what the messages had left. */
  lemma QueueShrinks(p: Params, s: State, e: Event)
    requires ClockOk(p, s.clock) && Enabled(p, s, e) && Disciplined(p, s, e)
    requires e.Deliver? || e.Ack? || e.DeadLetter?
    ensures Rank(p, Apply(p, s, e)) < Rank(p, s)
  {
    hide Rfc3339.Stamp;
    var s' := Apply(p, s, e);
    match e
    case Deliver(m) =>
      MessageMoves(p, s, m, s'.messages[m]);
      SumSnoc(AttemptRanks(s.attempts), 5);
      assert AttemptRanks(s'.attempts) == AttemptRanks(s.attempts) + [5];
    case DeadLetter(m) => MessageMoves(p, s, m, s'.messages[m]);
    case Ack(a) =>
      AttemptMoves(s, a, s'.attempts[a]);
      MessageMoves(p, s, s.attempts[a].msg, s'.messages[s.attempts[a].msg]);
  }

  /** Every step of work uses some of it up; the clock and new records add none. */
  lemma WorkShrinks(p: Params, s: State, e: Event)
    requires ClockOk(p, s.clock) && Enabled(p, s, e) && Disciplined(p, s, e)
    ensures IsWork(e) ==> Rank(p, Apply(p, s, e)) < Rank(p, s)
    ensures e.Tick? || e.ApiPut? ==> Rank(p, Apply(p, s, e)) == Rank(p, s)
  {
    hide Rfc3339.Stamp;
    if e.Deliver? || e.Ack? || e.DeadLetter? {
      QueueShrinks(p, s, e);
    } else if IsWork(e) {
      AttemptShrinks(p, s, e);
    } else {
      hide MessageRanks, AttemptRanks;
    }
  }

  function WorkIn(events: seq<Event>): nat {
    if events == [] then 0 else (if IsWork(events[0]) then 1 else 0) + WorkIn(events[1..])
  }

  lemma {:induction false} WorkAddsUp(a: seq<Event>, b: seq<Event>)
    ensures WorkIn(a + b) == WorkIn(a) + WorkIn(b)
    ensures |a| == 1 ==> WorkIn(a) == if IsWork(a[0]) then 1 else 0
  {
    if a == [] {
      assert a + b == b;
    } else {
      assert (a + b)[1..] == a[1..] + b;
      WorkAddsUp(a[1..], b);
    }
  }

  /** Once nobody sends any more, a run contains at most `Rank` steps of work, whatever the clock does. */
  lemma {:induction false} WorkIsBounded(p: Params, s: State, events: seq<Event>)
    requires ClockOk(p, s.clock) && QueueRun(p, s, events)
    requires forall e | e in events :: IsWork(e) || e.Tick?
    ensures WorkIn(events) <= Rank(p, s)
    decreases events
  {
    if events != [] {
      ClockStaysOk(p, s, events[0]);
      WorkShrinks(p, s, events[0]);
      WorkIsBounded(p, Apply(p, s, events[0]), events[1..]);
    }
  }

  lemma {:induction false} CountsHold(p: Params, s: State, events: seq<Event>)
    requires QueueInv(p, s) && CountsOk(p, s) && QueueRun(p, s, events) && Run(p, s, events)
    ensures CountsOk(p, After(p, s, events))
    decreases events
  {
    if events != [] {
      QueueStepInv(p, s, events[0]);
      CountsInv(p, s, events[0]);
      CountsHold(p, Apply(p, s, events[0]), events[1..]);
    }
  }

  /** No message is handled more than `maxReceives` times. */
  lemma HandledAtMost(p: Params, s: State, events: seq<Event>, m: nat)
    requires Init(p, s) && QueueRun(p, s, events) && Run(p, s, events)
    requires m < |After(p, s, events).messages|
    ensures Handled(After(p, s, events).attempts, m) <= p.maxReceives
  {
    InitQueueInv(p, s);
    CountsHold(p, s, events);
  }

  /** No step of work is possible now, nor after any amount of waiting. */
  ghost predicate Stuck(p: Params, s: State)
    requires ClockOk(p, s.clock)
  {
    forall to: nat, e: Event | s.clock <= to < END_OF_TIME && IsWork(e) && Enabled(p, s.(clock := to), e) ::
      !Disciplined(p, s.(clock := to), e)
  }

  ghost predicate PastDeliveries(s: State) {
    forall m: nat | m < |s.messages| :: s.messages[m].receives == 0 || s.messages[m].lastDelivery <= s.clock
  }

  /** A message on the queue can always be delivered or set aside after one visibility timeout. */
  lemma WaitingMessageUnsticks(p: Params, s: State, m: nat)
    requires ClockOk(p, s.clock) && PastDeliveries(s) && s.clock + p.visibility * SECOND < END_OF_TIME
    requires m < |s.messages| && s.messages[m].place.OnQueue?
    ensures !Stuck(p, s)
  {
    hide Rfc3339.Stamp;
    var to := s.clock + p.visibility * SECOND;
    var e := if s.messages[m].receives < p.maxReceives then Deliver(m) else DeadLetter(m);
    assert IsWork(e) && Enabled(p, s.(clock := to), e) && Disciplined(p, s.(clock := to), e);
  }

  /** A run that can go no further has resolved every job whose message was sent
      (given room on the calendar for one more visibility timeout). */
  lemma StuckMeansResolved(p: Params, s: State, events: seq<Event>, m: nat)
    requires Patient(p) && Init(p, s) && QueueRun(p, s, events) && Run(p, s, events)
    requires After(p, s, events).clock + p.visibility * SECOND < END_OF_TIME && Stuck(p, After(p, s, events))
    requires m < |After(p, s, events).messages| && After(p, s, events).messages[m].body.Job?
    ensures var now := After(p, s, events); Finished(now, now.messages[m].body.job) || now.messages[m].place.DeadLettered?
  {
    hide Rfc3339.Stamp;
    InitQueueInv(p, s);
    QueueRunInv(p, s, events);
    var now := After(p, s, events);
    DeliveredBefore(p, s, events);
    forall k: nat | k < |now.messages|
      ensures !now.messages[k].place.OnQueue?
    {
      if now.messages[k].place.OnQueue? {
        WaitingMessageUnsticks(p, now, k);
      }
    }
    EmptyQueueMeansResolved(p, s, events, m);
  }

  lemma {:induction false} DeliveredBefore(p: Params, s: State, events: seq<Event>)
    requires ClockOk(p, s.clock) && PastDeliveries(s) && Run(p, s, events)
    ensures PastDeliveries(After(p, s, events))
    decreases events
  {
    hide Rfc3339.Stamp;
    if events != [] {
      ClockStaysOk(p, s, events[0]);
      DeliveredBefore(p, Apply(p, s, events[0]), events[1..]);
    }
  }
}
