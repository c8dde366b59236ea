/** The two timing conditions are not only sufficient: without them there are runs that go wrong. */
module Necessity {
  import opened JobTable
  import opened Protocol
  import opened Delivery
  import Lease
  import Rfc3339

  /** The calendar has room for the runs below. */
  predicate FitsCalendar(p: Params) {
    2 * p.lease + p.timeout + p.visibility + 2 < Rfc3339.END
  }

  const JOB := "job"
  const NEW := InitialRecord(Request("", "", "", ""), "")

  lemma {:induction false} QueueRunSnoc(p: Params, s: State, events: seq<Event>, e: Event)
    requires ClockOk(p, s.clock) && QueueRun(p, s, events) && Run(p, s, events)
    requires Enabled(p, After(p, s, events), e) && Disciplined(p, After(p, s, events), e)
    ensures QueueRun(p, s, events + [e])
    decreases events
  {
    if events == [] {
      assert ([] + [e])[1..] == [];
    } else {
      ClockStaysOk(p, s, events[0]);
      assert (events + [e])[1..] == events[1..] + [e];
      QueueRunSnoc(p, Apply(p, s, events[0]), events[1..], e);
    }
  }

  /** `events` lead from the initial state at clock `lease` to `s`; if `queued`, the queue allows each of them. */
  ghost predicate Leads(p: Params, queued: bool, events: seq<Event>, s: State) {
    Reaches(p, Start(p), events, s) && (queued ==> QueueRun(p, Start(p), events))
  }

  function Start(p: Params): State {
    State(p.lease * SECOND, map[], {}, [], [], map[], [])
  }

  lemma Step(p: Params, queued: bool, events: seq<Event>, s: State, e: Event)
    requires Leads(p, queued, events, s) && Enabled(p, s, e) && (queued ==> Disciplined(p, s, e))
    ensures Leads(p, queued, events + [e], Apply(p, s, e))
  {
    hide Rfc3339.Stamp;
    ReachStep(p, Start(p), events, s, e);
    if queued {
      QueueRunSnoc(p, Start(p), events, e);
    }
  }

  lemma Wait(p: Params, queued: bool, events: seq<Event>, s: State, to: nat) returns (r: seq<Event>)
    requires Leads(p, queued, events, s) && s.clock <= to < END_OF_TIME
    ensures Leads(p, queued, r, s.(clock := to))
  {
    r := events;
    if s.clock < to {
      Step(p, queued, events, s, Tick(to));
      r := events + [Tick(to)];
    }
  }

  function Sent(receives: nat, lastDelivery: nat): Message {
    Message(Job(JOB), true, OnQueue, receives, lastDelivery)
  }

  /** A job is recorded, its message sent and delivered, and the attempt has computed its cutoff. */
  function Opened(p: Params): State {
    var c := p.lease * SECOND;
    State(c, map[JOB := NEW], {}, [Sent(1, c)], [Attempt(0, c, Armed(StampOf(0)), c, 0)], map[], [])
  }

  lemma Opening(p: Params, queued: bool) returns (events: seq<Event>)
    requires FitsCalendar(p) && (queued ==> 1 <= p.maxReceives)
    ensures Leads(p, queued, events, Opened(p))
  {
    hide Rfc3339.Stamp;
    var c := p.lease * SECOND;
    var s0 := Start(p);
    var put := ApiPut(JOB, NEW.request.value, "", true, true);
    Step(p, queued, [], s0, put);
    assert [] + [put] == [put];
    var s1 := s0.(table := map[JOB := NEW], pending := {JOB});
    assert Apply(p, s0, put) == s1;
    Step(p, queued, [put], s1, ApiEnqueue(JOB));
    var s2 := s1.(pending := {}, messages := [Sent(0, 0)]);
    assert Apply(p, s1, ApiEnqueue(JOB)) == s2;
    Step(p, queued, [put] + [ApiEnqueue(JOB)], s2, Deliver(0));
    var s3 := s2.(messages := [Sent(1, c)], attempts := [Attempt(0, c, Delivered, 0, 0)]);
    assert Apply(p, s2, Deliver(0)) == s3;
    Step(p, queued, [put] + [ApiEnqueue(JOB)] + [Deliver(0)], s3, Arm(0));
    assert Apply(p, s3, Arm(0)) == Opened(p);
    events := [put] + [ApiEnqueue(JOB)] + [Deliver(0)] + [Arm(0)];
  }

  function Held(u: nat): JobRecord {
    NEW.(status := Processing, updatedAt := StampOf(u))
  }

  /** The attempt of `Opened` has acquired the job at `u`. */
  function Acquired(p: Params, u: nat): State {
    Opened(p).(clock := u, table := map[JOB := Held(u)],
               attempts := [Attempt(0, p.lease * SECOND, Holding, p.lease * SECOND, u)], writer := map[JOB := 0])
  }

  lemma Acquiring(p: Params, queued: bool, u: nat) returns (events: seq<Event>)
    requires FitsCalendar(p) && (queued ==> 1 <= p.maxReceives)
    requires p.lease * SECOND <= u <= (p.lease + p.timeout) * SECOND
    ensures Leads(p, queued, events, Acquired(p, u))
  {
    hide Rfc3339.Stamp;
    var opening := Opening(p, queued);
    var waiting := Wait(p, queued, opening, Opened(p), u);
    var s := Opened(p).(clock := u);
    assert Active(p, s, 0) && MayClaim(s.table, JOB, s.attempts[0].pc.cutoff);
    Step(p, queued, waiting, s, Claim(0, u, NoFault));
    assert Apply(p, s, Claim(0, u, NoFault)) == Acquired(p, u);
    events := waiting + [Claim(0, u, NoFault)];
  }

  /** The message is delivered again at `w`, and the new attempt has computed its cutoff. */
  function Rival(p: Params, u: nat, w: nat): State
    requires p.lease * SECOND <= w
  {
    var s := Acquired(p, u);
    s.(clock := w, messages := [Sent(2, w)],
       attempts := s.attempts + [Attempt(0, w, Armed(StampOf(w - p.lease * SECOND)), w, 0)])
  }

  lemma Rivaling(p: Params, queued: bool, u: nat, w: nat) returns (events: seq<Event>)
    requires FitsCalendar(p) && (queued ==> 2 <= p.maxReceives && (p.lease + p.visibility) * SECOND <= w)
    requires p.lease * SECOND <= u <= (p.lease + p.timeout) * SECOND && u <= w < END_OF_TIME
    ensures Leads(p, queued, events, Rival(p, u, w))
  {
    hide Rfc3339.Stamp;
    var acquiring := Acquiring(p, queued, u);
    var waiting := Wait(p, queued, acquiring, Acquired(p, u), w);
    var s := Acquired(p, u).(clock := w);
    Step(p, queued, waiting, s, Deliver(0));
    var s' := s.(messages := [Sent(2, w)], attempts := s.attempts + [Attempt(0, w, Delivered, 0, 0)]);
    assert Apply(p, s, Deliver(0)) == s';
    Step(p, queued, waiting + [Deliver(0)], s', Arm(1));
    assert Apply(p, s', Arm(1)) == Rival(p, u, w);
    events := waiting + [Deliver(0)] + [Arm(1)];
  }

  /** If a handler may outlive its lease by a second, two attempts can hold one job ... */
  lemma TwoHolders(p: Params) returns (events: seq<Event>, s: State)
    requires FitsCalendar(p) && p.lease < p.timeout
    ensures Leads(p, false, events, s) && Holds(p, s, 0, JOB) && Holds(p, s, 1, JOB) && s.endings == []
    ensures |s.attempts| == 2 && s.attempts[0].pc.Holding? && s.attempts[1].pc.Holding? && s.attempts[1].heldAt == s.clock
    ensures s.attempts[0].heldAt <= s.clock
  {
    hide Rfc3339.Stamp;
    var u := p.lease * SECOND;
    var w := u + (p.lease + 1) * SECOND;
    events := Rivaling(p, false, u, w);
    s := Rival(p, u, w);
    Lease.StaleMeansLeaseOver(p, u, w);
    assert Active(p, s, 1) && MayClaim(s.table, JOB, s.attempts[1].pc.cutoff);
    Step(p, false, events, s, Claim(1, w, NoFault));
    events, s := events + [Claim(1, w, NoFault)], Apply(p, s, Claim(1, w, NoFault));
  }

  lemma OneEnds(p: Params, events: seq<Event>, s: State, a: nat) returns (events': seq<Event>, s': State)
    requires Leads(p, false, events, s) && Holds(p, s, a, JOB) && s.attempts[a].pc.Holding? && s.attempts[a].heldAt <= s.clock
    ensures Leads(p, false, events', s') && s'.clock == s.clock && s'.messages == s.messages
    ensures s'.endings == s.endings + [Ending(JOB, Failure(""))]
    ensures |s'.attempts| == |s.attempts| && forall b: nat | b < |s.attempts| && b != a :: s'.attempts[b] == s.attempts[b]
  {
    hide Rfc3339.Stamp;
    var decide, finish := Decide(a, Failure("")), Finish(a, s.clock, NoFault);
    Step(p, false, events, s, decide);
    var t := Apply(p, s, decide);
    Step(p, false, events + [decide], t, finish);
    events', s' := events + [decide] + [finish], Apply(p, t, finish);
  }

  /** ... and both can end it. */
  lemma TwoEndings(p: Params) returns (events: seq<Event>, s: State)
    requires FitsCalendar(p) && p.lease < p.timeout
    ensures Leads(p, false, events, s) && s.endings == [Ending(JOB, Failure("")), Ending(JOB, Failure(""))]
  {
    events, s := TwoHolders(p);
    events, s := OneEnds(p, events, s, 0);
    events, s := OneEnds(p, events, s, 1);
  }

  /** The lease excludes, and jobs end once, exactly when no handler may outlive its lease. */
  lemma LeaseExact(p: Params)
    requires FitsCalendar(p)
    ensures Lease.Excludes(p) <==> p.timeout <= p.lease
    ensures Lease.EndsOnce(p) <==> p.timeout <= p.lease
  {
    if p.timeout <= p.lease {
      Lease.LeaseExcludes(p);
    } else {
      var events, s := TwoHolders(p);
      assert Init(p, Start(p)) && Holds(p, After(p, Start(p), events), 0, JOB) && Holds(p, After(p, Start(p), events), 1, JOB);
      var events', s' := TwoEndings(p);
      var last := After(p, Start(p), events');
      assert last.endings[0].job == last.endings[1].job;
    }
  }

  /** With too short a visibility timeout the lease of an attempt that has crashed is still running when the message
      returns: the redelivery is refused and answered with success ... */
  lemma RefusedTooEarly(p: Params) returns (events: seq<Event>, s: State)
    requires FitsCalendar(p) && !Patient(p)
    ensures Leads(p, true, events, s) && |s.messages| == 1 && s.messages[0].body == Job(JOB)
    ensures JOB in s.table && s.table[JOB].status.Processing?
    ensures |s.attempts| == 2 && s.attempts[1].msg == 0 && s.attempts[0].pc.Gone? && s.attempts[1].pc == Returned(true)
  {
    hide Rfc3339.Stamp;
    var u := (p.lease + p.timeout) * SECOND;
    var w := (p.lease + if p.visibility < p.timeout then p.timeout else p.visibility) * SECOND;
    events := Rivaling(p, true, u, w);
    s := Rival(p, u, w);
    Step(p, true, events, s, Vanish(0));
    events, s := events + [Vanish(0)], Apply(p, s, Vanish(0));
    Lease.StaleMeansLeaseOver(p, u, w);
    assert Active(p, s, 1) && !MayClaim(s.table, JOB, s.attempts[1].pc.cutoff);
    Step(p, true, events, s, Claim(1, w, NoFault));
    events, s := events + [Claim(1, w, NoFault)], Apply(p, s, Claim(1, w, NoFault));
  }

  /** ... and its message is deleted. The job is lost: it stays processing whatever happens. */
  lemma LostJob(p: Params) returns (events: seq<Event>, s: State)
    requires FitsCalendar(p) && !Patient(p)
    ensures Leads(p, true, events, s) && Lost(s, JOB) && s.table[JOB].status.Processing?
    ensures |s.messages| == 1 && s.messages[0].place.Deleted? && s.messages[0].body == Job(JOB)
    ensures forall more | QueueRun(p, s, more) && Run(p, s, more) ::
      Lost(After(p, s, more), JOB) && After(p, s, more).table[JOB] == s.table[JOB]
  {
    events, s := RefusedTooEarly(p);
    Step(p, true, events, s, Ack(1));
    events, s := events + [Ack(1)], Apply(p, s, Ack(1));
    assert s.messages[0].body == Job(JOB);
    InitQueueInv(p, Start(p));
    QueueRunInv(p, Start(p), events);
    forall more | QueueRun(p, s, more) && Run(p, s, more)
      ensures Lost(After(p, s, more), JOB) && After(p, s, more).table[JOB] == s.table[JOB]
    {
      LostForever(p, s, more, JOB);
    }
  }

  /** No unfinished job loses its message, and no job is lost, exactly when the visibility timeout is patient. */
  lemma PatienceExact(p: Params)
    requires FitsCalendar(p)
    ensures AcksAreSafe(p) <==> Patient(p)
    ensures NoJobIsLost(p) <==> Patient(p)
  {
    if Patient(p) {
      PatienceMakesAcksSafe(p);
      PatienceLosesNoJob(p);
    } else {
      var events, s := LostJob(p);
      assert Init(p, Start(p)) && After(p, Start(p), events).messages[0].place.Deleted?;
    }
  }

  const DEPLOYED := Params(300, 900, 1800, 5)
  const LOCAL_DEFAULTS := Params(300, 5, 5, 5)

  /** The deployed constants satisfy both conditions; the local defaults satisfy neither. */
  lemma DeployedIsSafeLocalIsNot()
    ensures Lease.Excludes(DEPLOYED) && Lease.EndsOnce(DEPLOYED) && AcksAreSafe(DEPLOYED) && NoJobIsLost(DEPLOYED)
    ensures !Lease.Excludes(LOCAL_DEFAULTS) && !Lease.EndsOnce(LOCAL_DEFAULTS)
    ensures !AcksAreSafe(LOCAL_DEFAULTS) && !NoJobIsLost(LOCAL_DEFAULTS)
  {
    LeaseExact(DEPLOYED);
    PatienceExact(DEPLOYED);
    LeaseExact(LOCAL_DEFAULTS);
    PatienceExact(LOCAL_DEFAULTS);
  }
}
