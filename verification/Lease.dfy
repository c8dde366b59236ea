/** Safety under arbitrary deliveries: duplicates, early redeliveries, crashes and ambiguous writes.
    Everything here needs one inequality only: a handler is stopped no later than its lease expires. */
module Lease {
  import opened JobTable
  import opened Text
  import opened Protocol
  import Rfc3339

  /** Cutoffs and stamps are what the attempt's own instants say. */
  ghost predicate AttemptOk(p: Params, s: State, a: nat)
    requires a < |s.attempts|
  {
    var t := s.attempts[a];
    t.msg < |s.messages| && t.deliveredAt <= s.clock < END_OF_TIME &&
    match t.pc
    case Armed(cutoff) =>
      t.deliveredAt <= t.armedAt <= s.clock && p.lease * SECOND <= t.armedAt &&
      cutoff == StampOf(t.armedAt - p.lease * SECOND)
    case _ => true
  }

  /** A processing record carries the stamp of the attempt whose lease update was applied last. */
  ghost predicate WriterOk(p: Params, s: State, job: string)
    requires job in s.table
  {
    job in s.writer && s.writer[job] < |s.attempts| &&
    var w := s.attempts[s.writer[job]];
    BodyOf(s, s.writer[job]) == Job(job) && !w.pc.Delivered? && !w.pc.Armed? &&
    w.deliveredAt <= w.heldAt <= s.clock && w.heldAt <= w.deliveredAt + p.timeout * SECOND &&
    s.table[job].updatedAt == StampOf(w.heldAt)
  }

  ghost predicate AttemptsOk(p: Params, s: State) {
    forall a: nat | a < |s.attempts| :: AttemptOk(p, s, a)
  }

  ghost predicate WritersOk(p: Params, s: State) {
    forall job | job in s.table && s.table[job].status.Processing? :: WriterOk(p, s, job)
  }

  /** Whoever holds a job is the writer of its record, and the record is still processing. */
  ghost predicate HoldersOk(p: Params, s: State) {
    forall a: nat, job | Holds(p, s, a, job) ::
      job in s.table && s.table[job].status.Processing? && job in s.writer && s.writer[job] == a
  }

  /** The endings and the terminal records are the same facts. */
  ghost predicate EndingsOk(s: State) {
    (forall i: nat | i < |s.endings| :: s.endings[i].job in s.table && Shows(s.table[s.endings[i].job], s.endings[i].outcome)) &&
    (forall i: nat, j: nat | i < j < |s.endings| :: s.endings[i].job != s.endings[j].job) &&
    (forall job | job in s.table && s.table[job].Terminal() :: exists i: nat :: i < |s.endings| && s.endings[i].job == job)
  }

  /** Every job the API has enqueued or is about to enqueue has a record. */
  ghost predicate RecordsOk(s: State) {
    (forall id | id in s.pending :: id in s.table) &&
    (forall m: nat | m < |s.messages| && s.messages[m].fromApi :: s.messages[m].body.Job? && s.messages[m].body.job in s.table)
  }

  /** What holds whatever the parameters are. */
  ghost predicate Core(p: Params, s: State) {
    ClockOk(p, s.clock) && AttemptsOk(p, s) && WritersOk(p, s) && RecordsOk(s)
  }

  /** What holds when no handler outlives its lease. */
  ghost predicate Inv(p: Params, s: State) {
    Core(p, s) && HoldersOk(p, s) && EndingsOk(s)
  }

  /** Truncation to seconds never makes a stamp look older than it is:
      if `u` is printed before `w` minus the lease, more than the lease lies between them. */
  lemma StaleMeansLeaseOver(p: Params, u: nat, w: nat)
    requires u < END_OF_TIME && p.lease * SECOND <= w < END_OF_TIME
    ensures StrLess(StampOf(u), StampOf(w - p.lease * SECOND)) <==> u / SECOND + p.lease < w / SECOND
    ensures StrLess(StampOf(u), StampOf(w - p.lease * SECOND)) ==> u + p.lease * SECOND < w
    ensures u + (p.lease + 1) * SECOND <= w ==> StrLess(StampOf(u), StampOf(w - p.lease * SECOND))
  {
    Rfc3339.StampOrder(u / SECOND, (w - p.lease * SECOND) / SECOND);
    assert (w - p.lease * SECOND) / SECOND == w / SECOND - p.lease;
  }

  /** The heart of the matter: while somebody holds a job, nobody else's lease update succeeds. */
  lemma ClaimFindsNoHolder(p: Params, s: State, a: nat, b: nat, job: string)
    requires p.timeout <= p.lease && Inv(p, s)
    requires a < |s.attempts| && s.attempts[a].pc.Armed? && MayClaim(s.table, job, s.attempts[a].pc.cutoff)
    ensures !Holds(p, s, b, job)
  {
    hide Rfc3339.Stamp;
    if Holds(p, s, b, job) {
      assert AttemptOk(p, s, a);
      assert WriterOk(p, s, job);
      StaleMeansLeaseOver(p, s.attempts[b].heldAt, s.attempts[a].armedAt);
      assert false;
    }
  }

  lemma InitInv(p: Params, s: State)
    requires Init(p, s)
    ensures Inv(p, s)
  {
  }

  /** An attempt's message, delivery time and stamp stay; its control point only moves forward. */
  predicate Forward(t: Attempt, u: Attempt) {
    u.msg == t.msg && u.deliveredAt == t.deliveredAt && u.heldAt == t.heldAt &&
    (u.pc.Holding? || u.pc.Settling? ==> t.pc.Holding? || t.pc.Settling?) &&
    (u.pc.Delivered? || u.pc.Armed? ==> t.pc.Delivered? || t.pc.Armed?)
  }

  ghost predicate SameBodies(s: State, s': State) {
    |s.messages| <= |s'.messages| && |s.attempts| <= |s'.attempts| &&
    (forall m: nat | m < |s.messages| :: s'.messages[m].body == s.messages[m].body && s'.messages[m].fromApi == s.messages[m].fromApi) &&
    (forall a: nat | a < |s.attempts| :: s'.attempts[a].msg == s.attempts[a].msg && s'.attempts[a].deliveredAt == s.attempts[a].deliveredAt)
  }

  /** A step that neither claims nor finishes a job. */
  ghost predicate Quiet(s: State, s': State) {
    s.clock <= s'.clock && SameBodies(s, s') && s'.writer == s.writer && s'.endings == s.endings &&
    (forall job | job in s.table :: job in s'.table && s'.table[job] == s.table[job]) &&
    (forall job | job in s'.table && job !in s.table :: s'.table[job].status.Queued?) &&
    (forall a: nat | a < |s.attempts| :: Forward(s.attempts[a], s'.attempts[a])) &&
    (forall a: nat | |s.attempts| <= a < |s'.attempts| :: s'.attempts[a].pc.Delivered?)
  }

  lemma EventsKeepBodies(p: Params, s: State, e: Event)
    requires ClockOk(p, s.clock) && Enabled(p, s, e)
    ensures SameBodies(s, Apply(p, s, e))
  {
    hide Rfc3339.Stamp;
  }

  lemma EventsMoveForward(p: Params, s: State, e: Event)
    requires ClockOk(p, s.clock) && Enabled(p, s, e) && !e.Claim? && !e.Finish?
    ensures Quiet(s, Apply(p, s, e))
  {
    hide Rfc3339.Stamp;
    EventsKeepBodies(p, s, e);
    hide SameBodies;
  }

  lemma AttemptsInv(p: Params, s: State, e: Event)
    requires ClockOk(p, s.clock) && AttemptsOk(p, s) && Enabled(p, s, e)
    ensures AttemptsOk(p, Apply(p, s, e))
  {
    hide Rfc3339.Stamp;
    var s' := Apply(p, s, e);
    forall a: nat | a < |s'.attempts|
      ensures AttemptOk(p, s', a)
    {
      if a < |s.attempts| {
        assert AttemptOk(p, s, a);
      }
    }
  }

  lemma BodiesStay(p: Params, s: State, s': State, a: nat)
    requires AttemptsOk(p, s) && SameBodies(s, s') && a < |s.attempts|
    ensures BodyOf(s', a) == BodyOf(s, a)
  {
    assert AttemptOk(p, s, a);
  }

  lemma QuietWriters(p: Params, s: State, s': State)
    requires Core(p, s) && Quiet(s, s')
    ensures WritersOk(p, s')
  {
    forall job | job in s'.table && s'.table[job].status.Processing?
      ensures WriterOk(p, s', job)
    {
      assert WriterOk(p, s, job);
      BodiesStay(p, s, s', s.writer[job]);
    }
  }

  lemma QuietHolders(p: Params, s: State, s': State)
    requires Inv(p, s) && Quiet(s, s')
    ensures HoldersOk(p, s')
  {
    forall a: nat, job | Holds(p, s', a, job)
      ensures job in s'.table && s'.table[job].status.Processing? && job in s'.writer && s'.writer[job] == a
    {
      BodiesStay(p, s, s', a);
      assert Holds(p, s, a, job);
    }
  }

  lemma QuietEndings(p: Params, s: State, s': State)
    requires Inv(p, s) && Quiet(s, s')
    ensures EndingsOk(s')
  {
  }

  lemma RecordsInv(p: Params, s: State, e: Event)
    requires ClockOk(p, s.clock) && RecordsOk(s) && Enabled(p, s, e)
    ensures RecordsOk(Apply(p, s, e))
  {
    hide Rfc3339.Stamp;
    assert forall job | job in s.table :: job in Apply(p, s, e).table;
  }

  lemma ClaimWriters(p: Params, s: State, a: nat, stampAt: nat, fault: Fault)
    requires Core(p, s) && Enabled(p, s, Claim(a, stampAt, fault))
    ensures WritersOk(p, Apply(p, s, Claim(a, stampAt, fault)))
  {
    hide Rfc3339.Stamp;
    var s' := Apply(p, s, Claim(a, stampAt, fault));
    var job := BodyOf(s, a).job;
    assert AttemptOk(p, s, a);
    forall j | j in s'.table && s'.table[j].status.Processing?
      ensures WriterOk(p, s', j)
    {
      if s'.table == s.table || j != job {
        assert WriterOk(p, s, j);
      }
    }
  }

  lemma ClaimHolders(p: Params, s: State, a: nat, stampAt: nat, fault: Fault)
    requires p.timeout <= p.lease && Inv(p, s) && Enabled(p, s, Claim(a, stampAt, fault))
    ensures HoldersOk(p, Apply(p, s, Claim(a, stampAt, fault)))
  {
    hide Rfc3339.Stamp;
    var s' := Apply(p, s, Claim(a, stampAt, fault));
    var job := BodyOf(s, a).job;
    forall b: nat, j | Holds(p, s', b, j)
      ensures j in s'.table && s'.table[j].status.Processing? && j in s'.writer && s'.writer[j] == b
    {
      if b != a {
        assert Holds(p, s, b, j);
        if j == job && MayClaim(s.table, job, s.attempts[a].pc.cutoff) {
          ClaimFindsNoHolder(p, s, a, b, job);
        }
      }
    }
  }

  lemma ClaimEndings(p: Params, s: State, a: nat, stampAt: nat, fault: Fault)
    requires Inv(p, s) && Enabled(p, s, Claim(a, stampAt, fault))
    ensures EndingsOk(Apply(p, s, Claim(a, stampAt, fault)))
  {
    hide Rfc3339.Stamp;
    var s' := Apply(p, s, Claim(a, stampAt, fault));
    var job := BodyOf(s, a).job;
    assert forall j | j in s.table && s.table[j].Terminal() :: j in s'.table && s'.table[j] == s.table[j];
    assert forall j | j in s'.table && s'.table[j].Terminal() :: j in s.table && s.table[j].Terminal();
    forall i: nat | i < |s.endings|
      ensures s.endings[i].job in s'.table && Shows(s'.table[s.endings[i].job], s.endings[i].outcome)
    {
      assert s.table[s.endings[i].job].Terminal();
    }
  }

  lemma FinishWriters(p: Params, s: State, a: nat, stampAt: nat, fault: Fault)
    requires Core(p, s) && Enabled(p, s, Finish(a, stampAt, fault))
    ensures WritersOk(p, Apply(p, s, Finish(a, stampAt, fault)))
  {
    hide Rfc3339.Stamp;
    var s' := Apply(p, s, Finish(a, stampAt, fault));
    forall j | j in s'.table && s'.table[j].status.Processing?
      ensures WriterOk(p, s', j)
    {
      assert WriterOk(p, s, j);
    }
  }

  lemma FinishHolders(p: Params, s: State, a: nat, stampAt: nat, fault: Fault)
    requires Inv(p, s) && Enabled(p, s, Finish(a, stampAt, fault))
    ensures HoldersOk(p, Apply(p, s, Finish(a, stampAt, fault)))
  {
    hide Rfc3339.Stamp;
    var s' := Apply(p, s, Finish(a, stampAt, fault));
    assert Holds(p, s, a, BodyOf(s, a).job);
    forall b: nat, j | Holds(p, s', b, j)
      ensures j in s'.table && s'.table[j].status.Processing? && j in s'.writer && s'.writer[j] == b
    {
      assert Holds(p, s, b, j);
    }
  }

  lemma FinishEndings(p: Params, s: State, a: nat, stampAt: nat, fault: Fault)
    requires Inv(p, s) && Enabled(p, s, Finish(a, stampAt, fault)) && !fault.LostRequest?
    ensures EndingsOk(Apply(p, s, Finish(a, stampAt, fault)))
  {
    hide Rfc3339.Stamp;
    var s' := Apply(p, s, Finish(a, stampAt, fault));
    var job := BodyOf(s, a).job;
    assert Holds(p, s, a, job);
    var outcome := s.attempts[a].pc.outcome;
    assert s'.endings == s.endings + [Ending(job, outcome)];
    assert s'.endings[|s.endings|] == Ending(job, outcome);
    forall i: nat | i < |s.endings|
      ensures s.endings[i].job != job && s'.endings[i] == s.endings[i]
    {
      assert Shows(s.table[s.endings[i].job], s.endings[i].outcome);
    }
    forall j | j in s'.table && s'.table[j].Terminal()
      ensures exists i: nat :: i < |s'.endings| && s'.endings[i].job == j
    {
      if j != job {
        var i: nat :| i < |s.endings| && s.endings[i].job == j;
        assert s'.endings[i].job == j;
      }
    }
  }

  lemma StepCore(p: Params, s: State, e: Event)
    requires Core(p, s) && Enabled(p, s, e)
    ensures Core(p, Apply(p, s, e))
  {
    hide Rfc3339.Stamp;
    AttemptsInv(p, s, e);
    RecordsInv(p, s, e);
    ClockStaysOk(p, s, e);
    match e
    case Claim(a, stampAt, fault) => ClaimWriters(p, s, a, stampAt, fault);
    case Finish(a, stampAt, fault) => FinishWriters(p, s, a, stampAt, fault);
    case _ =>
      EventsMoveForward(p, s, e);
      QuietWriters(p, s, Apply(p, s, e));
  }

  lemma StepInv(p: Params, s: State, e: Event)
    requires p.timeout <= p.lease && Inv(p, s) && Enabled(p, s, e)
    ensures Inv(p, Apply(p, s, e))
  {
    hide Rfc3339.Stamp;
    StepCore(p, s, e);
    match e
    case Claim(a, stampAt, fault) =>
      ClaimHolders(p, s, a, stampAt, fault);
      ClaimEndings(p, s, a, stampAt, fault);
    case Finish(a, stampAt, fault) =>
      FinishHolders(p, s, a, stampAt, fault);
      if !fault.LostRequest? {
        FinishEndings(p, s, a, stampAt, fault);
      }
    case _ =>
      EventsMoveForward(p, s, e);
      QuietHolders(p, s, Apply(p, s, e));
      QuietEndings(p, s, Apply(p, s, e));
  }

  /** A terminal record is final: status, story, digest, model, usage, message and time stamp. */
  lemma TerminalStays(p: Params, s: State, e: Event, job: string)
    requires Inv(p, s) && Enabled(p, s, e)
    requires job in s.table && s.table[job].Terminal()
    ensures job in Apply(p, s, e).table && Apply(p, s, e).table[job] == s.table[job]
  {
    hide Rfc3339.Stamp;
    match e
    case Finish(a, _, _) => assert Holds(p, s, a, BodyOf(s, a).job);
    case _ =>
  }

  lemma {:induction false} RunCore(p: Params, s: State, events: seq<Event>)
    requires Core(p, s) && Run(p, s, events)
    ensures Core(p, After(p, s, events))
    decreases events
  {
    if events != [] {
      StepCore(p, s, events[0]);
      RunCore(p, Apply(p, s, events[0]), events[1..]);
    }
  }

  lemma {:induction false} RunInv(p: Params, s: State, events: seq<Event>)
    requires p.timeout <= p.lease && Inv(p, s) && Run(p, s, events)
    ensures Inv(p, After(p, s, events))
    decreases events
  {
    if events != [] {
      StepInv(p, s, events[0]);
      RunInv(p, Apply(p, s, events[0]), events[1..]);
    }
  }

  lemma {:induction false} TerminalForever(p: Params, s: State, events: seq<Event>, job: string)
    requires p.timeout <= p.lease && Inv(p, s) && Run(p, s, events)
    requires job in s.table && s.table[job].Terminal()
    ensures job in After(p, s, events).table && After(p, s, events).table[job] == s.table[job]
    decreases events
  {
    if events != [] {
      StepInv(p, s, events[0]);
      TerminalStays(p, s, events[0], job);
      TerminalForever(p, Apply(p, s, events[0]), events[1..], job);
    }
  }

  /** In every state every run reaches, two attempts that hold one job are one attempt. */
  ghost predicate Excludes(p: Params) {
    forall s: State, events: seq<Event>, a: nat, b: nat, job: string ::
      Init(p, s) && Run(p, s, events) && Holds(p, After(p, s, events), a, job) && Holds(p, After(p, s, events), b, job) ==> a == b
  }

  /** In every run at most one terminal write takes effect per job. */
  ghost predicate EndsOnce(p: Params) {
    forall s: State, events: seq<Event>, i: nat, j: nat ::
      Init(p, s) && Run(p, s, events) && i < j < |After(p, s, events).endings| ==>
        After(p, s, events).endings[i].job != After(p, s, events).endings[j].job
  }

  lemma LeaseExcludes(p: Params)
    requires p.timeout <= p.lease
    ensures Excludes(p) && EndsOnce(p)
  {
    forall s: State, events: seq<Event> | Init(p, s) && Run(p, s, events)
      ensures Inv(p, After(p, s, events))
    {
      InitInv(p, s);
      RunInv(p, s, events);
    }
  }

  /** The outcome of a job: a record is terminal exactly when one terminal write took effect,
      it shows what that write said, and it will show it for the rest of the run. */
  lemma OneOutcome(p: Params, s: State, events: seq<Event>, more: seq<Event>, job: string)
    requires p.timeout <= p.lease && Init(p, s) && Run(p, s, events) && job in After(p, s, events).table
    requires Run(p, After(p, s, events), more)
    ensures var now := After(p, s, events);
      now.table[job].Terminal() <==> exists i: nat ::
        i < |now.endings| && now.endings[i].job == job && Shows(now.table[job], now.endings[i].outcome) &&
        forall k: nat | k < |now.endings| && now.endings[k].job == job :: k == i
    ensures var now, later := After(p, s, events), After(p, After(p, s, events), more);
      now.table[job].Terminal() ==> job in later.table && later.table[job] == now.table[job]
  {
    InitInv(p, s);
    RunInv(p, s, events);
    var now := After(p, s, events);
    if now.table[job].Terminal() {
      TerminalForever(p, now, more, job);
      var i: nat :| i < |now.endings| && now.endings[i].job == job;
      assert Shows(now.table[job], now.endings[i].outcome);
      assert forall k: nat | k < |now.endings| && now.endings[k].job == job :: k == i;
    }
  }

  /** Every message of the API refers to a record, so only foreign messages can meet a missing one. */
  lemma NoMessageWithoutRecord(p: Params, s: State, events: seq<Event>, m: nat)
    requires Init(p, s) && Run(p, s, events)
    requires m < |After(p, s, events).messages| && After(p, s, events).messages[m].fromApi
    ensures var now := After(p, s, events); now.messages[m].body.Job? && now.messages[m].body.job in now.table
  {
    InitInv(p, s);
    RunCore(p, s, events);
  }

  /** The API never overwrites a record, and what it writes for a new job starts queued. */
  lemma ApiKeepsRecords(p: Params, s: State, e: Event, job: string)
    requires ClockOk(p, s.clock) && Enabled(p, s, e) && (e.ApiPut? || e.ApiEnqueue?)
    ensures job in s.table ==> job in Apply(p, s, e).table && Apply(p, s, e).table[job] == s.table[job]
    ensures job in Apply(p, s, e).table && job !in s.table ==> Apply(p, s, e).table[job].status.Queued?
  {
  }

  /** In every reachable state a processing record carries a 20-character stamp of some past instant,
      whatever the API wrote into the record when it was created. */
  lemma ProcessingStampForm(p: Params, s: State, events: seq<Event>, job: string)
    requires Init(p, s) && Run(p, s, events)
    requires job in After(p, s, events).table && After(p, s, events).table[job].status.Processing?
    ensures var now := After(p, s, events);
      |now.table[job].updatedAt| == 20 &&
      exists u: nat :: u <= now.clock && now.table[job].updatedAt == StampOf(u)
  {
    InitInv(p, s);
    RunCore(p, s, events);
    var now := After(p, s, events);
    assert WriterOk(p, now, job);
    var u := now.attempts[now.writer[job]].heldAt;
    Rfc3339.StampForm(u / SECOND, u / SECOND);
  }
}
