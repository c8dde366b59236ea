/** What the queue adds: a message returns only after its visibility timeout and is received a bounded
    number of times. Under that discipline no unfinished job loses its message, and work runs out. */
module Delivery {
  import opened JobTable
  import opened Protocol
  import Lease
  import Rfc3339

  ghost predicate OneMessagePerJob(s: State) {
    forall m: nat, n: nat | m < n < |s.messages| && s.messages[m].body.Job? :: s.messages[m].body != s.messages[n].body
  }

  /** The queue's part of the contract, and the producers': each job has one message. */
  ghost predicate Disciplined(p: Params, s: State, e: Event)
    requires ClockOk(p, s.clock) && Enabled(p, s, e)
  {
    match e
    case Deliver(m) => s.messages[m].place.OnQueue? && s.messages[m].receives < p.maxReceives && Visible(p, s, m)
    case DeadLetter(m) => s.messages[m].receives >= p.maxReceives && Visible(p, s, m)
    case ForeignSend(_) => OneMessagePerJob(Apply(p, s, e))
    case ApiEnqueue(_) => OneMessagePerJob(Apply(p, s, e))
    case _ => true
  }

  predicate Visible(p: Params, s: State, m: nat)
    requires m < |s.messages|
  {
    s.messages[m].receives == 0 || s.messages[m].lastDelivery + p.visibility * SECOND <= s.clock
  }

  /** A run whose every step the queue allows. */
  ghost predicate QueueRun(p: Params, s: State, events: seq<Event>)
    requires ClockOk(p, s.clock)
    decreases events
  {
    events == [] ||
    (Enabled(p, s, events[0]) && Disciplined(p, s, events[0]) &&
     (ClockStaysOk(p, s, events[0]); QueueRun(p, Apply(p, s, events[0]), events[1..])))
  }

  lemma {:induction false} QueueRunIsRun(p: Params, s: State, events: seq<Event>)
    requires ClockOk(p, s.clock) && QueueRun(p, s, events)
    ensures Run(p, s, events)
    decreases events
  {
    if events != [] {
      ClockStaysOk(p, s, events[0]);
      QueueRunIsRun(p, Apply(p, s, events[0]), events[1..]);
    }
  }

  /** The visibility timeout outlasts a whole attempt, the lease it may leave behind and the second lost
      to truncation; or there are no redeliveries at all. */
  predicate Patient(p: Params) {
    p.lease + p.timeout + 1 <= p.visibility || p.maxReceives <= 1
  }

  predicate Finished(s: State, job: string) {
    job in s.table && s.table[job].Terminal()
  }

  /** Attempts know their message's history. */
  ghost predicate HistoryOk(p: Params, s: State) {
    forall a: nat | a < |s.attempts| ::
      s.attempts[a].msg < |s.messages| && s.messages[s.attempts[a].msg].receives > 0 &&
      s.attempts[a].deliveredAt <= s.messages[s.attempts[a].msg].lastDelivery
  }

  /** Two deliveries of one message lie a visibility timeout apart. */
  ghost predicate Spaced(p: Params, s: State) {
    forall a: nat, b: nat | a < b < |s.attempts| && s.attempts[a].msg == s.attempts[b].msg ::
      1 < p.maxReceives && s.attempts[a].deliveredAt + p.visibility * SECOND <= s.attempts[b].deliveredAt
  }

  /** `Process` returned nil, or the message is gone, only for finished jobs. */
  ghost predicate AcksOk(s: State) {
    (forall a: nat | a < |s.attempts| && s.attempts[a].pc == Returned(true) && BodyOf(s, a).Job? :: Finished(s, BodyOf(s, a).job)) &&
    (forall m: nat | m < |s.messages| && s.messages[m].place.Deleted? && s.messages[m].body.Job? :: Finished(s, s.messages[m].body.job))
  }

  ghost predicate QueueInv(p: Params, s: State) {
    Lease.Core(p, s) && OneMessagePerJob(s) && HistoryOk(p, s) && Spaced(p, s)
  }

  lemma HistoryInv(p: Params, s: State, e: Event)
    requires QueueInv(p, s) && Enabled(p, s, e) && Disciplined(p, s, e)
    ensures HistoryOk(p, Apply(p, s, e))
  {
    hide Rfc3339.Stamp;
    Lease.EventsKeepBodies(p, s, e);
    var s' := Apply(p, s, e);
    forall a: nat | a < |s'.attempts|
      ensures s'.attempts[a].msg < |s'.messages| && s'.messages[s'.attempts[a].msg].receives > 0
      ensures s'.attempts[a].deliveredAt <= s'.messages[s'.attempts[a].msg].lastDelivery
    {
      if a < |s.attempts| {
        assert s.attempts[a].msg < |s.messages| && s.messages[s.attempts[a].msg].receives > 0;
        assert Lease.AttemptOk(p, s, a);
      }
    }
  }

  lemma SpacedInv(p: Params, s: State, e: Event)
    requires QueueInv(p, s) && Enabled(p, s, e) && Disciplined(p, s, e)
    ensures Spaced(p, Apply(p, s, e))
  {
    hide Rfc3339.Stamp;
    Lease.EventsKeepBodies(p, s, e);
    var s' := Apply(p, s, e);
    forall a: nat, b: nat | a < b < |s'.attempts| && s'.attempts[a].msg == s'.attempts[b].msg
      ensures 1 < p.maxReceives && s'.attempts[a].deliveredAt + p.visibility * SECOND <= s'.attempts[b].deliveredAt
    {
      assert s'.attempts[a].msg == s.attempts[a].msg;
      if b < |s.attempts| {
        assert s'.attempts[b].msg == s.attempts[b].msg;
      } else {
        assert e.Deliver? && s.messages[s.attempts[a].msg].receives > 0;
      }
    }
  }

  lemma OneMessageInv(p: Params, s: State, e: Event)
    requires QueueInv(p, s) && Enabled(p, s, e) && Disciplined(p, s, e)
    ensures OneMessagePerJob(Apply(p, s, e))
  {
    hide Rfc3339.Stamp;
    Lease.EventsKeepBodies(p, s, e);
  }

  lemma QueueStepInv(p: Params, s: State, e: Event)
    requires QueueInv(p, s) && Enabled(p, s, e) && Disciplined(p, s, e)
    ensures QueueInv(p, Apply(p, s, e))
  {
    Lease.StepCore(p, s, e);
    OneMessageInv(p, s, e);
    HistoryInv(p, s, e);
    SpacedInv(p, s, e);
  }

  /** A job's lease update is refused only when the job is finished: an unfinished attempt's stamp is stale by then. */
  lemma RefusedOnlyWhenFinished(p: Params, s: State, a: nat, job: string)
    requires Patient(p) && QueueInv(p, s)
    requires Active(p, s, a) && BodyOf(s, a) == Job(job) && s.attempts[a].pc.Armed?
    requires job in s.table && !MayClaim(s.table, job, s.attempts[a].pc.cutoff)
    ensures Finished(s, job)
  {
    hide Rfc3339.Stamp;
    assert Lease.AttemptOk(p, s, a);
    if s.table[job].status.Processing? {
      var w := s.writer[job];
      assert Lease.WriterOk(p, s, job);
      assert s.attempts[w].msg == s.attempts[a].msg;
      assert w < a;
      Lease.StaleMeansLeaseOver(p, s.attempts[w].heldAt, s.attempts[a].armedAt);
      assert false;
    }
  }

  lemma FinishedStays(p: Params, s: State, e: Event, job: string)
    requires ClockOk(p, s.clock) && Enabled(p, s, e) && Finished(s, job)
    ensures Finished(Apply(p, s, e), job)
  {
    hide Rfc3339.Stamp;
  }

  /** The only steps that make `Process` return nil for a job find it finished or finish it. */
  lemma NilMeansFinished(p: Params, s: State, e: Event, a: nat)
    requires Patient(p) && QueueInv(p, s) && AcksOk(s) && Enabled(p, s, e) && Disciplined(p, s, e)
    requires a < |Apply(p, s, e).attempts| && Apply(p, s, e).attempts[a].pc == Returned(true) && BodyOf(Apply(p, s, e), a).Job?
    ensures Finished(Apply(p, s, e), BodyOf(Apply(p, s, e), a).job)
  {
    hide Rfc3339.Stamp;
    var s' := Apply(p, s, e);
    Lease.EventsKeepBodies(p, s, e);
    if a < |s.attempts| {
      Lease.BodiesStay(p, s, s', a);
      var job := BodyOf(s, a).job;
      if s.attempts[a].pc == Returned(true) {
        FinishedStays(p, s, e, job);
      } else if e.Claim? {
        if job in s.table && !MayClaim(s.table, job, s.attempts[a].pc.cutoff) {
          RefusedOnlyWhenFinished(p, s, a, job);
        }
      }
    }
  }

  lemma AcksInv(p: Params, s: State, e: Event)
    requires Patient(p) && QueueInv(p, s) && AcksOk(s) && Enabled(p, s, e) && Disciplined(p, s, e)
    ensures AcksOk(Apply(p, s, e))
  {
    hide Rfc3339.Stamp;
    var s' := Apply(p, s, e);
    forall a: nat | a < |s'.attempts| && s'.attempts[a].pc == Returned(true) && BodyOf(s', a).Job?
      ensures Finished(s', BodyOf(s', a).job)
    {
      NilMeansFinished(p, s, e, a);
    }
    forall m: nat | m < |s'.messages| && s'.messages[m].place.Deleted? && s'.messages[m].body.Job?
      ensures Finished(s', s'.messages[m].body.job)
    {
      assert m < |s.messages| && s'.messages[m].body == s.messages[m].body;
      if !s.messages[m].place.Deleted? {
        assert e.Ack? && BodyOf(s, e.a) == s.messages[m].body;
      }
      FinishedStays(p, s, e, s.messages[m].body.job);
    }
  }

  lemma {:induction false} QueueRunInv(p: Params, s: State, events: seq<Event>)
    requires QueueInv(p, s) && QueueRun(p, s, events)
    ensures Run(p, s, events) && QueueInv(p, After(p, s, events))
    ensures Patient(p) && AcksOk(s) ==> AcksOk(After(p, s, events))
    decreases events
  {
    QueueRunIsRun(p, s, events);
    if events != [] {
      QueueStepInv(p, s, events[0]);
      if Patient(p) && AcksOk(s) {
        AcksInv(p, s, events[0]);
      }
      QueueRunInv(p, Apply(p, s, events[0]), events[1..]);
    }
  }

  lemma InitQueueInv(p: Params, s: State)
    requires Init(p, s)
    ensures QueueInv(p, s) && AcksOk(s)
  {
  }

  /** No message is deleted while its job is unfinished, in any run the queue allows. */
  ghost predicate AcksAreSafe(p: Params) {
    forall s: State, events: seq<Event>, m: nat ::
      Init(p, s) && QueueRun(p, s, events) && Run(p, s, events) && m < |After(p, s, events).messages| &&
      After(p, s, events).messages[m].place.Deleted? && After(p, s, events).messages[m].body.Job? ==>
        Finished(After(p, s, events), After(p, s, events).messages[m].body.job)
  }

  lemma PatienceMakesAcksSafe(p: Params)
    requires Patient(p)
    ensures AcksAreSafe(p)
  {
    forall s: State, events: seq<Event> | Init(p, s) && QueueRun(p, s, events) && Run(p, s, events)
      ensures AcksOk(After(p, s, events))
    {
      InitQueueInv(p, s);
      QueueRunInv(p, s, events);
    }
  }

  /** With the main queue empty, every job whose message was sent is finished or visible in the dead-letter queue. */
  lemma EmptyQueueMeansResolved(p: Params, s: State, events: seq<Event>, m: nat)
    requires Patient(p) && Init(p, s) && QueueRun(p, s, events) && Run(p, s, events)
    requires forall k: nat | k < |After(p, s, events).messages| :: !After(p, s, events).messages[k].place.OnQueue?
    requires m < |After(p, s, events).messages| && After(p, s, events).messages[m].body.Job?
    ensures var now := After(p, s, events); Finished(now, now.messages[m].body.job) || now.messages[m].place.DeadLettered?
  {
    InitQueueInv(p, s);
    QueueRunInv(p, s, events);
  }

  /** The job was sent and is unfinished, but its message is deleted and nobody works on it. */
  ghost predicate Lost(s: State, job: string) {
    job in s.table && !Finished(s, job) &&
    (exists m: nat :: m < |s.messages| && s.messages[m].body == Job(job)) &&
    (forall m: nat | m < |s.messages| && s.messages[m].body == Job(job) :: s.messages[m].place.Deleted?) &&
    (forall a: nat | a < |s.attempts| && BodyOf(s, a) == Job(job) :: s.attempts[a].pc.Gone?)
  }

  lemma LostMessagesStay(p: Params, s: State, e: Event, job: string)
    requires ClockOk(p, s.clock) && Enabled(p, s, e) && Disciplined(p, s, e) && Lost(s, job)
    ensures var messages := Apply(p, s, e).messages;
      (exists m: nat :: m < |messages| && messages[m].body == Job(job)) &&
      forall m: nat | m < |messages| && messages[m].body == Job(job) :: messages[m].place.Deleted?
  {
    hide Rfc3339.Stamp, ClaimEffect, SettleEffect;
    var s' := Apply(p, s, e);
    Lease.EventsKeepBodies(p, s, e);
    var m: nat :| m < |s.messages| && s.messages[m].body == Job(job);
    assert s'.messages[m].body == Job(job);
  }

  lemma LostAttemptsStay(p: Params, s: State, e: Event, job: string)
    requires Lease.Core(p, s) && Enabled(p, s, e) && Disciplined(p, s, e) && Lost(s, job)
    ensures forall a: nat | a < |Apply(p, s, e).attempts| && BodyOf(Apply(p, s, e), a) == Job(job) ::
      Apply(p, s, e).attempts[a].pc.Gone?
  {
    hide Rfc3339.Stamp;
    var s' := Apply(p, s, e);
    Lease.EventsKeepBodies(p, s, e);
    forall a: nat | a < |s'.attempts| && BodyOf(s', a) == Job(job)
      ensures s'.attempts[a].pc.Gone?
    {
      if a < |s.attempts| {
        Lease.BodiesStay(p, s, s', a);
      }
    }
  }

  lemma LostStays(p: Params, s: State, e: Event, job: string)
    requires Lease.Core(p, s) && Enabled(p, s, e) && Disciplined(p, s, e) && Lost(s, job)
    ensures Lost(Apply(p, s, e), job) && Apply(p, s, e).table[job] == s.table[job]
  {
    hide Rfc3339.Stamp;
    LostMessagesStay(p, s, e, job);
    LostAttemptsStay(p, s, e, job);
    assert job in Apply(p, s, e).table && Apply(p, s, e).table[job] == s.table[job];
  }

  /** Nothing that can happen rescues a lost job: its record never changes again. */
  lemma {:induction false} LostForever(p: Params, s: State, events: seq<Event>, job: string)
    requires QueueInv(p, s) && QueueRun(p, s, events) && Run(p, s, events) && Lost(s, job)
    ensures Lost(After(p, s, events), job) && After(p, s, events).table[job] == s.table[job]
    decreases events
  {
    if events != [] {
      QueueStepInv(p, s, events[0]);
      LostStays(p, s, events[0], job);
      LostForever(p, Apply(p, s, events[0]), events[1..], job);
    }
  }

  /** No run the queue allows loses a job. */
  ghost predicate NoJobIsLost(p: Params) {
    forall s: State, events: seq<Event>, job: string ::
      Init(p, s) && QueueRun(p, s, events) && Run(p, s, events) ==> !Lost(After(p, s, events), job)
  }

  lemma PatienceLosesNoJob(p: Params)
    requires Patient(p)
    ensures NoJobIsLost(p)
  {
    forall s: State, events: seq<Event>, job: string | Init(p, s) && QueueRun(p, s, events) && Run(p, s, events)
      ensures !Lost(After(p, s, events), job)
    {
      InitQueueInv(p, s);
      QueueRunInv(p, s, events);
    }
  }
}
