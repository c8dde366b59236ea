/** The leased job protocol as a transition system: the API, the queue, any number of
    interleaved handler attempts, and one clock. Time is in nanoseconds since 0000-01-01. */
module Protocol {
  import opened JobTable
  import Rfc3339

  const SECOND := 1_000_000_000

  /** The clock never reaches the first instant whose year has five digits. */
  const END_OF_TIME := Rfc3339.END * SECOND

  /** In seconds: how long a handler may run (`timeout`), the lease, the visibility timeout;
      and how often a message may be received. */
  datatype Params = Params(timeout: nat, lease: nat, visibility: nat, maxReceives: nat)

  datatype Body = Malformed | Job(job: string)

  datatype Place = OnQueue | DeadLettered | Deleted

  datatype Message = Message(body: Body, fromApi: bool, place: Place, receives: nat, lastDelivery: nat)

  /** Where an attempt to process one delivered message stands. */
  datatype Pc =
    | Delivered
    | Armed(cutoff: string)        // the cutoff is computed, the lease update not yet committed
    | Holding                      // the lease update reported success
    | Settling(outcome: Outcome)   // the terminal write is decided, not yet committed
    | Returned(ok: bool)           // `Process` has returned, nil or not
    | Gone                         // crashed, timed out, or answered and forgotten

  /** One delivery. `armedAt` is when the cutoff was computed, `heldAt` the instant stamped by the lease update. */
  datatype Attempt = Attempt(msg: nat, deliveredAt: nat, pc: Pc, armedAt: nat, heldAt: nat)

  /** A terminal write that took effect. */
  datatype Ending = Ending(job: string, outcome: Outcome)

  /** `pending` are the jobs the API has recorded and not yet enqueued; `writer` and `endings` are
      bookkeeping: the attempt whose lease update was applied last, and the terminal writes applied so far. */
  datatype State = State(
    clock: nat, table: Table, pending: set<string>, messages: seq<Message>, attempts: seq<Attempt>,
    writer: map<string, nat>, endings: seq<Ending>)

  datatype Event =
    | Tick(to: nat)
    | ApiPut(id: string, request: Request, modelId: string, applied: bool, reported: bool)
    | ApiEnqueue(id: string)
    | ForeignSend(body: Body)
    | Deliver(msg: nat)
    | Discard(a: nat)                                  // a malformed body is dropped
    | Arm(a: nat)                                      // compute the cutoff
    | Claim(a: nat, stampAt: nat, fault: Fault)        // commit the lease update
    | Decide(a: nat, outcome: Outcome)                 // the job flow reaches a terminal write
    | Retry(a: nat)                                    // the job flow meets a transient error
    | Finish(a: nat, stampAt: nat, fault: Fault)       // commit the terminal write
    | Ack(a: nat)                                      // the event source deletes the message
    | Vanish(a: nat)                                   // crash, timeout, error answer or failed delete
    | DeadLetter(msg: nat)

  function StampOf(t: nat): string {
    Rfc3339.Stamp(t / SECOND)
  }

  predicate ClockOk(p: Params, clock: nat) {
    p.lease * SECOND <= clock < END_OF_TIME
  }

  ghost predicate Init(p: Params, s: State) {
    ClockOk(p, s.clock) && s.table == map[] && s.pending == {} && s.messages == [] && s.attempts == [] &&
    s.writer == map[] && s.endings == []
  }

  function BodyOf(s: State, a: nat): Body
    requires a < |s.attempts|
  {
    if s.attempts[a].msg < |s.messages| then s.messages[s.attempts[a].msg].body else Malformed
  }

  /** Within its time limit. Nothing is written after it. */
  predicate InTime(p: Params, s: State, a: nat)
    requires a < |s.attempts|
  {
    s.clock <= s.attempts[a].deliveredAt + p.timeout * SECOND
  }

  /** The attempt may still act on a job it has acquired. */
  predicate Holds(p: Params, s: State, a: nat, job: string) {
    a < |s.attempts| && (s.attempts[a].pc.Holding? || s.attempts[a].pc.Settling?) &&
    BodyOf(s, a) == Job(job) && InTime(p, s, a)
  }

  /** The attempt can take a step of the job flow. */
  predicate Active(p: Params, s: State, a: nat) {
    a < |s.attempts| && InTime(p, s, a) && BodyOf(s, a).Job?
  }

  predicate Enabled(p: Params, s: State, e: Event) {
    match e
    case Tick(to) => s.clock < to < END_OF_TIME
    case ApiPut(_, _, _, applied, reported) => reported ==> applied
    case ApiEnqueue(id) => id in s.pending
    case ForeignSend(_) => true
    case Deliver(m) => m < |s.messages|
    case Discard(a) => a < |s.attempts| && InTime(p, s, a) && s.attempts[a].pc.Delivered? && BodyOf(s, a).Malformed?
    case Arm(a) => Active(p, s, a) && s.attempts[a].pc.Delivered?
    case Claim(a, stampAt, _) => Active(p, s, a) && s.attempts[a].pc.Armed? && s.attempts[a].armedAt <= stampAt <= s.clock
    case Decide(a, _) => Active(p, s, a) && s.attempts[a].pc.Holding?
    case Retry(a) => Active(p, s, a) && s.attempts[a].pc.Holding?
    case Finish(a, stampAt, _) => Active(p, s, a) && s.attempts[a].pc.Settling? && s.attempts[a].heldAt <= stampAt <= s.clock
    case Ack(a) => a < |s.attempts| && s.attempts[a].msg < |s.messages| && s.attempts[a].pc == Returned(true)
    case Vanish(a) => a < |s.attempts| && !s.attempts[a].pc.Gone?
    case DeadLetter(m) => m < |s.messages| && s.messages[m].place.OnQueue?
  }

  function Move(s: State, a: nat, pc: Pc): State
    requires a < |s.attempts|
  {
    s.(attempts := s.attempts[a := s.attempts[a].(pc := pc)])
  }

  function ClaimStep(s: State, a: nat, job: string, stampAt: nat, fault: Fault): State
    requires a < |s.attempts| && s.attempts[a].pc.Armed?
  {
    var attempt := s.attempts[a];
    var (table, answer) := ClaimEffect(s.table, job, attempt.pc.cutoff, StampOf(stampAt), fault);
    var applied := !fault.LostRequest? && MayClaim(s.table, job, attempt.pc.cutoff);
    var pc := match answer
      case ClaimOk => Holding
      case ErrAlreadyProcessing => Returned(true)
      case ErrRecordNotFound => Returned(false)
      case ErrClaim => Returned(false);
    s.(table := table,
       attempts := s.attempts[a := attempt.(pc := pc, heldAt := if applied then stampAt else attempt.heldAt)],
       writer := if applied then s.writer[job := a] else s.writer)
  }

  function FinishStep(s: State, a: nat, job: string, stampAt: nat, fault: Fault): State
    requires a < |s.attempts| && s.attempts[a].pc.Settling?
  {
    var outcome := s.attempts[a].pc.outcome;
    Move(s, a, Returned(fault.NoFault?))
      .(table := SettleEffect(s.table, job, outcome, StampOf(stampAt), fault),
        endings := if fault.LostRequest? then s.endings else s.endings + [Ending(job, outcome)])
  }

  function Apply(p: Params, s: State, e: Event): State
    requires ClockOk(p, s.clock) && Enabled(p, s, e)
  {
    match e
    case Tick(to) => s.(clock := to)
    case ApiPut(id, request, modelId, applied, reported) =>
      if id in s.table || !applied then s
      else s.(table := s.table[id := InitialRecord(request, modelId)],
              pending := if reported then s.pending + {id} else s.pending)
    case ApiEnqueue(id) => s.(pending := s.pending - {id}, messages := s.messages + [Message(Job(id), true, OnQueue, 0, 0)])
    case ForeignSend(body) => s.(messages := s.messages + [Message(body, false, OnQueue, 0, 0)])
    case Deliver(m) =>
      s.(messages := s.messages[m := s.messages[m].(receives := s.messages[m].receives + 1, lastDelivery := s.clock)],
         attempts := s.attempts + [Attempt(m, s.clock, Delivered, 0, 0)])
    case Discard(a) => Move(s, a, Returned(true))
    case Arm(a) =>
      s.(attempts := s.attempts[a := s.attempts[a].(pc := Armed(StampOf(s.clock - p.lease * SECOND)), armedAt := s.clock)])
    case Claim(a, stampAt, fault) => ClaimStep(s, a, BodyOf(s, a).job, stampAt, fault)
    case Decide(a, outcome) => Move(s, a, Settling(outcome))
    case Retry(a) => Move(s, a, Returned(false))
    case Finish(a, stampAt, fault) => FinishStep(s, a, BodyOf(s, a).job, stampAt, fault)
    case Ack(a) =>
      Move(s, a, Gone).(messages := s.messages[s.attempts[a].msg := s.messages[s.attempts[a].msg].(place := Deleted)])
    case Vanish(a) => Move(s, a, Gone)
    case DeadLetter(m) => s.(messages := s.messages[m := s.messages[m].(place := DeadLettered)])
  }

  lemma ClockStaysOk(p: Params, s: State, e: Event)
    requires ClockOk(p, s.clock) && Enabled(p, s, e)
    ensures ClockOk(p, Apply(p, s, e).clock)
    ensures s.clock <= Apply(p, s, e).clock
  {
  }

  /** The events can happen in this order, starting at `s`. */
  ghost predicate Run(p: Params, s: State, events: seq<Event>)
    requires ClockOk(p, s.clock)
    decreases events
  {
    events == [] ||
    (Enabled(p, s, events[0]) && (ClockStaysOk(p, s, events[0]); Run(p, Apply(p, s, events[0]), events[1..])))
  }

  /** The state a run ends in. */
  ghost function After(p: Params, s: State, events: seq<Event>): (r: State)
    requires ClockOk(p, s.clock) && Run(p, s, events)
    ensures ClockOk(p, r.clock)
    decreases events
  {
    if events == [] then s
    else ClockStaysOk(p, s, events[0]); After(p, Apply(p, s, events[0]), events[1..])
  }

  lemma {:induction false} RunAppend(p: Params, s: State, events: seq<Event>, more: seq<Event>)
    requires ClockOk(p, s.clock) && Run(p, s, events) && Run(p, After(p, s, events), more)
    ensures Run(p, s, events + more)
    ensures After(p, s, events + more) == After(p, After(p, s, events), more)
    decreases events
  {
    if events == [] {
      assert events + more == more;
    } else {
      ClockStaysOk(p, s, events[0]);
      assert (events + more)[1..] == events[1..] + more;
      RunAppend(p, Apply(p, s, events[0]), events[1..], more);
    }
  }

  /** One step more. */
  lemma RunSnoc(p: Params, s: State, events: seq<Event>, e: Event)
    requires ClockOk(p, s.clock) && Run(p, s, events) && Enabled(p, After(p, s, events), e)
    ensures Run(p, s, events + [e])
    ensures After(p, s, events + [e]) == Apply(p, After(p, s, events), e)
  {
    var last := After(p, s, events);
    ClockStaysOk(p, last, e);
    assert Run(p, Apply(p, last, e), []);
    assert [e][1..] == [];
    RunAppend(p, s, events, [e]);
  }

  ghost predicate Reaches(p: Params, s: State, events: seq<Event>, t: State) {
    ClockOk(p, s.clock) && Run(p, s, events) && After(p, s, events) == t
  }

  lemma ReachStep(p: Params, s: State, events: seq<Event>, t: State, e: Event)
    requires Reaches(p, s, events, t) && Enabled(p, t, e)
    ensures Reaches(p, s, events + [e], Apply(p, t, e))
  {
    RunSnoc(p, s, events, e);
  }

  lemma ReachLater(p: Params, s: State, events: seq<Event>, t: State, to: nat) returns (r: seq<Event>)
    requires Reaches(p, s, events, t) && t.clock <= to < END_OF_TIME
    ensures Reaches(p, s, r, t.(clock := to))
  {
    r := events;
    if t.clock < to {
      ReachStep(p, s, events, t, Tick(to));
      r := events + [Tick(to)];
    }
  }
}
