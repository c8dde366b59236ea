/** The worker: one job from message to terminal write, and one batch of messages. */
module Worker {
  import opened JobTable
  import opened Protocol
  import Lease
  import Rfc3339
  import opened Text

  datatype JobMessage = JobMessage(jobId: string, repoUrl: string, customPrompt: string, modelId: string)

  datatype Fetch = Fetched | FetchPermanent(cause: string) | FetchTransient
  datatype Extraction = Extracted | TooLarge(cause: string) | Broken(cause: string)
  datatype Selection = Selected(digest: string) | SelectionError(cause: string)
  datatype Generation = Generated(story: string, usage: Usage) | GenerationPermanent(cause: string) | GenerationTransient

  /** What the clock, the network and the injected services answer while one message is processed. */
  datatype World = World(
    cutoff: string, claimStamp: string, claimFault: Fault,
    urlError: Option<string>, modelError: Option<string>, tarball: Fetch, mkdirFails: bool, extraction: Extraction,
    selection: Selection, generation: Generation, finishStamp: string, finishFault: Fault)

  /** What the job flow decides once the job is acquired. */
  datatype Verdict = TryAgain | End(outcome: Outcome)

  function FailWith(reason: string, cause: string): Verdict {
    End(Failure(reason + ": " + cause))
  }

  function VerdictOf(msg: JobMessage, w: World): Verdict {
    if w.urlError.Some? then FailWith("repo_url の解析に失敗", w.urlError.value)
    else if w.modelError.Some? then FailWith("model_id が不正", w.modelError.value)
    else if w.tarball.FetchPermanent? then FailWith("リポジトリ取得に失敗（存在しない/非公開の可能性）", w.tarball.cause)
    else if w.tarball.FetchTransient? || w.mkdirFails then TryAgain
    else if w.extraction.TooLarge? then FailWith("リポジトリサイズが上限(200MB)を超過", w.extraction.cause)
    else if w.extraction.Broken? then FailWith("tarball の展開に失敗", w.extraction.cause)
    else if w.selection.SelectionError? then FailWith("物語素材の抽出に失敗", w.selection.cause)
    else if w.generation.GenerationPermanent? then FailWith("生成に失敗（モデルアクセス未許可/不正リクエスト等）", w.generation.cause)
    else if w.generation.GenerationTransient? then TryAgain
    else End(Story(CompletedResult(w.generation.story, w.selection.digest, msg.modelId, w.generation.usage)))
  }

  /** The table after one message, and whether `Process` returns nil. */
  function Processed(table: Table, msg: JobMessage, w: World): (Table, bool) {
    var (claimed, answer) := ClaimEffect(table, msg.jobId, w.cutoff, w.claimStamp, w.claimFault);
    if !answer.ClaimOk? then (claimed, answer.ErrAlreadyProcessing?)
    else match VerdictOf(msg, w)
      case TryAgain => (claimed, false)
      case End(outcome) => (SettleEffect(claimed, msg.jobId, outcome, w.finishStamp, w.finishFault), w.finishFault.NoFault?)
  }

  predicate Acquires(table: Table, msg: JobMessage, w: World) {
    w.claimFault.NoFault? && MayClaim(table, msg.jobId, w.cutoff)
  }

  datatype StepResult = Fine | Lasting | Passing

  /** How each step of the flow would come out, in the order of the flow. */
  function StepResults(w: World): seq<StepResult> {
    [ if w.urlError.Some? then Lasting else Fine,
      if w.modelError.Some? then Lasting else Fine,
      if w.tarball.FetchPermanent? then Lasting else if w.tarball.FetchTransient? then Passing else Fine,
      if w.mkdirFails then Passing else Fine,
      if w.extraction.Extracted? then Fine else Lasting,
      if w.selection.SelectionError? then Lasting else Fine,
      if w.generation.GenerationPermanent? then Lasting else if w.generation.GenerationTransient? then Passing else Fine ]
  }

  /** Step `i` is the first that does not go well. */
  predicate FirstTrouble(w: World, i: nat) {
    i < |StepResults(w)| && !StepResults(w)[i].Fine? && forall k: nat | k < i :: StepResults(w)[k].Fine?
  }

  ghost predicate StopsFor(w: World, r: StepResult) {
    exists i: nat :: FirstTrouble(w, i) && StepResults(w)[i] == r
  }

  /** The flow decides by the first trouble it meets (`i`), if there is any. */
  lemma VerdictFollowsTrouble(msg: JobMessage, w: World, i: nat)
    requires i <= |StepResults(w)| && forall k: nat | k < i :: StepResults(w)[k].Fine?
    requires i < |StepResults(w)| ==> !StepResults(w)[i].Fine?
    ensures var verdict := VerdictOf(msg, w);
      if i == |StepResults(w)| then verdict.End? && verdict.outcome.Story?
      else if StepResults(w)[i].Lasting? then verdict.End? && verdict.outcome.Failure?
      else verdict.TryAgain?
  {
    var results := StepResults(w);
    assert i > 0 ==> results[0].Fine?;
    assert i > 1 ==> results[1].Fine?;
    assert i > 2 ==> results[2].Fine?;
    assert i > 3 ==> results[3].Fine?;
    assert i > 4 ==> results[4].Fine?;
    assert i > 5 ==> results[5].Fine?;
    assert i > 6 ==> results[6].Fine?;
  }

  lemma FirstTroubleFound(w: World) returns (i: nat)
    ensures i <= |StepResults(w)| && forall k: nat | k < i :: StepResults(w)[k].Fine?
    ensures i < |StepResults(w)| ==> FirstTrouble(w, i)
    ensures forall r: StepResult :: StopsFor(w, r) <==> i < |StepResults(w)| && StepResults(w)[i] == r
  {
    hide StepResults;
    i := 0;
    while i < |StepResults(w)| && StepResults(w)[i].Fine?
      invariant i <= |StepResults(w)| && forall k: nat | k < i :: StepResults(w)[k].Fine?
    {
      i := i + 1;
    }
    assert forall j: nat | FirstTrouble(w, j) :: j == i;
  }

  /** Lasting errors are never redelivered: while the table answers, `Process` returns an error for a recorded job exactly
      if it acquires it and the first trouble the flow meets is a passing one. Otherwise an acquired job ends,
      as failed exactly when that trouble is a lasting one. */
  lemma LastingErrorsEndTheJob(table: Table, msg: JobMessage, w: World)
    requires msg.jobId in table && w.claimFault.NoFault? && w.finishFault.NoFault?
    ensures var (after, ok) := Processed(table, msg, w);
      (ok <==> !Acquires(table, msg, w) || !StopsFor(w, Passing)) && after.Keys == table.Keys &&
      if !Acquires(table, msg, w) then after == table
      else after[msg.jobId].status ==
           if StopsFor(w, Passing) then Processing else if StopsFor(w, Lasting) then Failed else Completed
  {
    hide StrLess, StepResults, StopsFor, VerdictOf;
    var i := FirstTroubleFound(w);
    VerdictFollowsTrouble(msg, w, i);
  }

  /** What a call that goes well leaves behind: the generated story, the digest of the material, the requested model and
      the usage, in a record that otherwise keeps what the API wrote. */
  lemma StoryIsDelivered(table: Table, msg: JobMessage, w: World)
    requires w.claimFault == w.finishFault == NoFault && msg.jobId in table
    requires table[msg.jobId].status == Queued ||
             (table[msg.jobId].status == Processing && StrLess(table[msg.jobId].updatedAt, w.cutoff))
    requires w.urlError == None && w.modelError == None && w.tarball == Fetched && !w.mkdirFails
    requires w.extraction == Extracted && w.selection.Selected? && w.generation.Generated?
    ensures var (after, ok) := Processed(table, msg, w);
      ok && OnlyChanges(table, after, msg.jobId) &&
      var r := after[msg.jobId];
      r.status == Completed && r.updatedAt == w.finishStamp &&
      r.story == Some(w.generation.story) && r.digest == Some(w.selection.digest) &&
      r.modelId == Some(msg.modelId) && r.usage == Some(w.generation.usage) &&
      r.request == table[msg.jobId].request && r.errorMessage == table[msg.jobId].errorMessage
  {
    hide StrLess;
  }

  /** What the user is told when a step fails for good: the reason of the first such step and its cause. */
  lemma ReasonsAreTold(table: Table, msg: JobMessage, w: World)
    requires w.claimFault == w.finishFault == NoFault && msg.jobId in table
    requires table[msg.jobId].status == Queued ||
             (table[msg.jobId].status == Processing && StrLess(table[msg.jobId].updatedAt, w.cutoff))
    ensures var (after, ok) := Processed(table, msg, w);
      var wrote := (message: string) => ok && OnlyChanges(table, after, msg.jobId) &&
        after[msg.jobId] == table[msg.jobId].(status := Failed, errorMessage := Some(message), updatedAt := w.finishStamp);
      var again := !ok && OnlyChanges(table, after, msg.jobId) &&
        after[msg.jobId] == table[msg.jobId].(status := Processing, updatedAt := w.claimStamp);
      var named := w.urlError == None && w.modelError == None;
      var unpacked := named && w.tarball == Fetched && !w.mkdirFails && w.extraction == Extracted;
      var selected := unpacked && w.selection.Selected?;
      (w.urlError.Some? ==> wrote("repo_url の解析に失敗" + ": " + w.urlError.value)) &&
      (w.urlError.None? && w.modelError.Some? ==> wrote("model_id が不正" + ": " + w.modelError.value)) &&
      (named && w.tarball.FetchPermanent? ==>
        wrote("リポジトリ取得に失敗（存在しない/非公開の可能性）" + ": " + w.tarball.cause)) &&
      (named && w.tarball.FetchTransient? ==> again) &&
      (named && w.tarball == Fetched && w.mkdirFails ==> again) &&
      (named && w.tarball == Fetched && !w.mkdirFails && w.extraction.TooLarge? ==>
        wrote("リポジトリサイズが上限(200MB)を超過" + ": " + w.extraction.cause)) &&
      (named && w.tarball == Fetched && !w.mkdirFails && w.extraction.Broken? ==>
        wrote("tarball の展開に失敗" + ": " + w.extraction.cause)) &&
      (unpacked && w.selection.SelectionError? ==> wrote("物語素材の抽出に失敗" + ": " + w.selection.cause)) &&
      (selected && w.generation.GenerationPermanent? ==>
        wrote("生成に失敗（モデルアクセス未許可/不正リクエスト等）" + ": " + w.generation.cause)) &&
      (selected && w.generation.GenerationTransient? ==> again)
  {
    hide StrLess;
  }

  /** `Process` looks at one record and changes no other. */
  lemma ProcessedIsLocal(table: Table, other: Table, msg: JobMessage, w: World)
    requires msg.jobId in table <==> msg.jobId in other
    requires msg.jobId in table ==> table[msg.jobId] == other[msg.jobId]
    ensures Processed(table, msg, w).1 == Processed(other, msg, w).1
    ensures msg.jobId in Processed(table, msg, w).0 <==> msg.jobId in Processed(other, msg, w).0
    ensures msg.jobId in Processed(table, msg, w).0 ==>
      Processed(table, msg, w).0[msg.jobId] == Processed(other, msg, w).0[msg.jobId]
    ensures forall id | id != msg.jobId ::
      (id in table <==> id in Processed(table, msg, w).0) && (id in table ==> Processed(table, msg, w).0[id] == table[id])
  {
    hide StrLess, VerdictOf;
  }

  /** A redelivery of a finished job changes nothing and is acknowledged. */
  lemma FinishedJobsAreSkipped(table: Table, msg: JobMessage, w: World)
    requires msg.jobId in table && table[msg.jobId].Terminal()
    ensures Processed(table, msg, w) == (table, w.claimFault.NoFault?)
  {
  }

  datatype SqsRecord = SqsRecord(messageId: string, body: Option<JobMessage>)

  /** The table the batch has produced before record `i`. */
  function TableBefore(table: Table, records: seq<SqsRecord>, worlds: seq<World>, i: nat): Table
    requires i <= |records| == |worlds|
  {
    if i == 0 then table
    else
      var before := TableBefore(table, records, worlds, i - 1);
      if records[i - 1].body.None? then before else Processed(before, records[i - 1].body.value, worlds[i - 1]).0
  }

  /** The record asks for redelivery: its body is readable and `Process` returned an error. */
  predicate AsksAgain(table: Table, records: seq<SqsRecord>, worlds: seq<World>, i: nat)
    requires i < |records| == |worlds|
  {
    records[i].body.Some? && !Processed(TableBefore(table, records, worlds, i), records[i].body.value, worlds[i]).1
  }

  /** The identifiers of the first `n` records that ask for redelivery, in order. */
  function Failures(table: Table, records: seq<SqsRecord>, worlds: seq<World>, n: nat): seq<string>
    requires n <= |records| == |worlds|
  {
    if n == 0 then []
    else Failures(table, records, worlds, n - 1) +
         if AsksAgain(table, records, worlds, n - 1) then [records[n - 1].messageId] else []
  }

  /** The readable records of a batch are about different jobs. */
  ghost predicate DifferentJobs(records: seq<SqsRecord>) {
    forall i: nat, j: nat | i < j < |records| && records[i].body.Some? && records[j].body.Some? ::
      records[i].body.value.jobId != records[j].body.value.jobId
  }

  /** The tables say the same of one job. */
  predicate SameRecord(table: Table, other: Table, job: string) {
    (job in table <==> job in other) && (job in table ==> table[job] == other[job])
  }

  lemma {:induction false} BatchLeavesOthers(table: Table, records: seq<SqsRecord>, worlds: seq<World>, n: nat, job: string)
    requires n <= |records| == |worlds|
    requires forall i: nat | i < n && records[i].body.Some? :: records[i].body.value.jobId != job
    ensures SameRecord(table, TableBefore(table, records, worlds, n), job)
  {
    hide Processed;
    if n > 0 {
      BatchLeavesOthers(table, records, worlds, n - 1, job);
      var before := TableBefore(table, records, worlds, n - 1);
      if records[n - 1].body.Some? {
        ProcessedIsLocal(before, before, records[n - 1].body.value, worlds[n - 1]);
      }
    }
  }

  /** In a batch about different jobs every message is processed, and asks for redelivery, as if it were alone. */
  lemma {:induction false} BatchTreatsJobsAlone(table: Table, records: seq<SqsRecord>, worlds: seq<World>, i: nat, n: nat)
    requires i < n <= |records| == |worlds| && DifferentJobs(records) && records[i].body.Some?
    ensures var msg := records[i].body.value;
      SameRecord(Processed(table, msg, worlds[i]).0, TableBefore(table, records, worlds, n), msg.jobId) &&
      (AsksAgain(table, records, worlds, i) <==> !Processed(table, msg, worlds[i]).1)
  {
    hide Processed;
    var before := TableBefore(table, records, worlds, n - 1);
    var msg := records[i].body.value;
    if i == n - 1 {
      BatchLeavesOthers(table, records, worlds, i, msg.jobId);
      ProcessedIsLocal(table, before, msg, worlds[i]);
    } else {
      BatchTreatsJobsAlone(table, records, worlds, i, n - 1);
      if records[n - 1].body.Some? {
        ProcessedIsLocal(before, before, records[n - 1].body.value, worlds[n - 1]);
      }
    }
  }

  class Worker {
    const store: JobStore

    constructor (store: JobStore)
      ensures this.store == store
    {
      this.store := store;
    }

    /** Records the failure; nil unless recording it failed. */
    method Fail(job: string, reason: string, cause: string, w: World) returns (ok: bool)
      modifies store
      ensures store.table == SettleEffect(old(store.table), job, Failure(reason + ": " + cause), w.finishStamp, w.finishFault)
      ensures store.journal == old(store.journal) + [TerminalCall(job, Failure(reason + ": " + cause), ok)]
      ensures ok == w.finishFault.NoFault?
      ensures ok ==> job in store.table && Shows(store.table[job], Failure(reason + ": " + cause))
    {
      ok := store.MarkFailed(job, reason + ": " + cause, w.finishStamp, w.finishFault);
    }

    /** One message. The result is nil (`ok`) unless the message should be delivered again. */
    method Process(msg: JobMessage, w: World) returns (ok: bool)
      modifies store
      ensures (store.table, ok) == Processed(old(store.table), msg, w)
      // Without the lease nothing is written, and nil means that the job is in other hands or finished.
      ensures !Acquires(old(store.table), msg, w) ==> store.journal == old(store.journal)
      ensures !Acquires(old(store.table), msg, w) && ok ==> msg.jobId in store.table && !store.table[msg.jobId].status.Queued?
      // With the lease, nil means that exactly one terminal write was made and reported success.
      ensures Acquires(old(store.table), msg, w) ==>
        (ok <==> |store.journal| == |old(store.journal)| + 1 && store.journal[|old(store.journal)|].reported)
      // and that the record now shows what it wrote.
      ensures Acquires(old(store.table), msg, w) && ok ==>
        var call := store.journal[|old(store.journal)|];
        call.job == msg.jobId && msg.jobId in store.table && Shows(store.table[msg.jobId], call.outcome)
      ensures old(store.journal) <= store.journal
      ensures |store.journal| <= |old(store.journal)| + 1
    {
      hide StrLess, SettleEffect, Claimed, Shows, MayClaim;
      var answer := store.MarkProcessing(msg.jobId, w.cutoff, w.claimStamp, w.claimFault);
      if !answer.ClaimOk? {
        return answer.ErrAlreadyProcessing?;
      }
      if w.urlError.Some? {
        ok := Fail(msg.jobId, "repo_url の解析に失敗", w.urlError.value, w);
        return;
      }
      if w.modelError.Some? {
        ok := Fail(msg.jobId, "model_id が不正", w.modelError.value, w);
        return;
      }
      if w.tarball.FetchPermanent? {
        ok := Fail(msg.jobId, "リポジトリ取得に失敗（存在しない/非公開の可能性）", w.tarball.cause, w);
        return;
      }
      if w.tarball.FetchTransient? || w.mkdirFails {
        return false;
      }
      if w.extraction.TooLarge? {
        ok := Fail(msg.jobId, "リポジトリサイズが上限(200MB)を超過", w.extraction.cause, w);
        return;
      }
      if w.extraction.Broken? {
        ok := Fail(msg.jobId, "tarball の展開に失敗", w.extraction.cause, w);
        return;
      }
      // A missing commit log is not fatal: the flow goes on without it.
      if w.selection.SelectionError? {
        ok := Fail(msg.jobId, "物語素材の抽出に失敗", w.selection.cause, w);
        return;
      }
      if w.generation.GenerationPermanent? {
        ok := Fail(msg.jobId, "生成に失敗（モデルアクセス未許可/不正リクエスト等）", w.generation.cause, w);
        return;
      }
      if w.generation.GenerationTransient? {
        return false;
      }
      var result := CompletedResult(w.generation.story, w.selection.digest, msg.modelId, w.generation.usage);
      ok := store.MarkCompleted(msg.jobId, result, w.finishStamp, w.finishFault);
    }

    /** One batch. Only the records whose processing asks for redelivery are reported. */
    method Handle(records: seq<SqsRecord>, worlds: seq<World>) returns (failures: seq<string>)
      requires |records| == |worlds|
      modifies store
      ensures failures == Failures(old(store.table), records, worlds, |records|)
      ensures store.table == TableBefore(old(store.table), records, worlds, |records|)
    {
      failures := [];
      for i := 0 to |records|
        invariant failures == Failures(old(store.table), records, worlds, i)
        invariant store.table == TableBefore(old(store.table), records, worlds, i)
      {
        if records[i].body.None? {
          continue;
        }
        var ok := Process(records[i].body.value, worlds[i]);
        if !ok {
          failures := failures + [records[i].messageId];
        }
      }
    }
  }

  lemma {:induction false} FailuresAre(table: Table, records: seq<SqsRecord>, worlds: seq<World>, n: nat, id: string)
    requires n <= |records| == |worlds|
    ensures id in Failures(table, records, worlds, n) <==>
            exists i: nat :: i < n && AsksAgain(table, records, worlds, i) && records[i].messageId == id
  {
    if n > 0 {
      FailuresAre(table, records, worlds, n - 1, id);
    }
  }

  /** The reported identifiers are those of the records that ask for redelivery, one for each and in their order. */
  lemma {:induction false} FailuresInOrder(table: Table, records: seq<SqsRecord>, worlds: seq<World>, n: nat) returns (ps: seq<nat>)
    requires n <= |records| == |worlds|
    ensures forall j: nat, k: nat | j < k < |ps| :: ps[j] < ps[k]
    ensures forall i: nat :: i in ps <==> i < n && AsksAgain(table, records, worlds, i)
    ensures |Failures(table, records, worlds, n)| == |ps|
    ensures forall k: nat | k < |ps| :: ps[k] < |records| && Failures(table, records, worlds, n)[k] == records[ps[k]].messageId
  {
    ps := [];
    if n > 0 {
      hide AsksAgain;
      ps := FailuresInOrder(table, records, worlds, n - 1);
      assert forall k: nat | k < |ps| :: ps[k] in ps;
      if AsksAgain(table, records, worlds, n - 1) {
        ps := ps + [n - 1];
      }
    }
  }

  /** When the steps of one call of `Process` happen: the cutoff is computed, the lease update is stamped
      and committed, the terminal write is stamped and committed. */
  datatype Timing = Timing(armAt: nat, claimStampAt: nat, claimAt: nat, finishStampAt: nat, finishAt: nat) {
    predicate Ordered() {
      armAt <= claimStampAt <= claimAt <= finishStampAt <= finishAt < END_OF_TIME
    }
  }

  /** The world and the timing tell the same story. */
  ghost predicate Agrees(p: Params, w: World, tm: Timing) {
    tm.Ordered() && p.lease * SECOND <= tm.armAt && w.cutoff == StampOf(tm.armAt - p.lease * SECOND) &&
    w.claimStamp == StampOf(tm.claimStampAt) && w.finishStamp == StampOf(tm.finishStampAt)
  }

  /** A step of anybody but attempt `a`. */
  predicate Elsewhere(e: Event, a: nat) {
    match e
    case Discard(b) => b != a
    case Arm(b) => b != a
    case Claim(b, _, _) => b != a
    case Decide(b, _) => b != a
    case Retry(b) => b != a
    case Finish(b, _, _) => b != a
    case Ack(b) => b != a
    case Vanish(b) => b != a
    case _ => true
  }

  /** The others' steps lead from `s` to `t`. */
  ghost predicate Others(p: Params, s: State, events: seq<Event>, t: State, a: nat) {
    Reaches(p, s, events, t) && forall e | e in events :: Elsewhere(e, a)
  }

  lemma OtherStep(p: Params, s: State, e: Event, a: nat)
    requires ClockOk(p, s.clock) && a < |s.attempts| && BodyOf(s, a).Job? && Enabled(p, s, e) && Elsewhere(e, a)
    ensures var s' := Apply(p, s, e);
      a < |s'.attempts| && s'.attempts[a] == s.attempts[a] && BodyOf(s', a) == BodyOf(s, a)
  {
    hide Rfc3339.Stamp;
    Lease.EventsKeepBodies(p, s, e);
  }

  lemma {:induction false} OthersLeaveAttempt(p: Params, s: State, events: seq<Event>, t: State, a: nat)
    requires Others(p, s, events, t, a) && a < |s.attempts| && BodyOf(s, a).Job?
    ensures a < |t.attempts| && t.attempts[a] == s.attempts[a] && BodyOf(t, a) == BodyOf(s, a)
    ensures s.clock <= t.clock
    decreases events
  {
    hide Rfc3339.Stamp;
    if events != [] {
      assert Elsewhere(events[0], a);
      ClockStaysOk(p, s, events[0]);
      OtherStep(p, s, events[0], a);
      OthersLeaveAttempt(p, Apply(p, s, events[0]), events[1..], t, a);
    }
  }

  /** While an attempt holds a job within its time limit, nobody else changes the record. */
  lemma HeldStays(p: Params, s: State, e: Event, a: nat, job: string)
    requires p.timeout <= p.lease && Lease.Inv(p, s) && Enabled(p, s, e) && Elsewhere(e, a) && Holds(p, s, a, job)
    ensures job in s.table && job in Apply(p, s, e).table && Apply(p, s, e).table[job] == s.table[job]
  {
    hide Rfc3339.Stamp;
    match e
    case Claim(b, _, _) =>
      if MayClaim(s.table, job, s.attempts[b].pc.cutoff) {
        Lease.ClaimFindsNoHolder(p, s, b, a, job);
      }
    case Finish(b, _, _) => assert Holds(p, s, b, BodyOf(s, b).job);
    case _ =>
  }

  lemma {:induction false} HeldThroughout(p: Params, s: State, events: seq<Event>, t: State, a: nat, job: string)
    requires p.timeout <= p.lease && Lease.Inv(p, s) && Others(p, s, events, t, a)
    requires a < |s.attempts| && s.attempts[a].pc.Holding? && BodyOf(s, a) == Job(job)
    requires t.clock <= s.attempts[a].deliveredAt + p.timeout * SECOND
    ensures job in s.table && job in t.table && t.table[job] == s.table[job]
    decreases events
  {
    hide Rfc3339.Stamp;
    OthersLeaveAttempt(p, s, events, t, a);
    assert Holds(p, s, a, job);
    if events != [] {
      var e := events[0];
      var s' := Apply(p, s, e);
      assert Elsewhere(e, a);
      HeldStays(p, s, e, a, job);
      Lease.StepInv(p, s, e);
      OtherStep(p, s, e, a);
      HeldThroughout(p, s', events[1..], t, a, job);
    }
  }

  /** The attempt has computed its cutoff, nothing else has happened. */
  function ArmedState(p: Params, s: State, a: nat, tm: Timing): State
    requires a < |s.attempts| && p.lease * SECOND <= tm.armAt
  {
    s.(clock := tm.armAt,
       attempts := s.attempts[a := s.attempts[a].(pc := Armed(StampOf(tm.armAt - p.lease * SECOND)), armedAt := tm.armAt)])
  }

  /** The attempt's lease update has been committed and answered, nothing else has happened. */
  function ClaimedState(s: State, a: nat, msg: JobMessage, w: World, tm: Timing): State
    requires a < |s.attempts| && s.attempts[a].pc.Armed?
  {
    ClaimStep(s.(clock := tm.claimAt), a, msg.jobId, tm.claimStampAt, w.claimFault)
  }

  /** A call in the middle of everything else: delivered in `s`, others act on the way from the computed cutoff to `early`,
      the lease update is committed there, and others act on the way from its answer to `late`. */
  ghost predicate Call(p: Params, s: State, a: nat, msg: JobMessage, w: World, tm: Timing,
                       before: seq<Event>, early: State, between: seq<Event>, late: State) {
    Agrees(p, w, tm) && ClockOk(p, s.clock) &&
    a < |s.attempts| && s.attempts[a].pc.Delivered? && BodyOf(s, a) == Job(msg.jobId) &&
    s.clock <= tm.armAt && tm.finishAt <= s.attempts[a].deliveredAt + p.timeout * SECOND &&
    Others(p, ArmedState(p, s, a, tm), before, early, a) && early.clock <= tm.claimAt &&
    a < |early.attempts| && early.attempts[a].pc.Armed? &&
    Others(p, ClaimedState(early, a, msg, w, tm), between, late, a) && late.clock <= tm.finishAt
  }

  /** A call of `Process` is a run of the attempt's steps among the steps of others: same answer, same updates
      (the lease update on the table it finds, the terminal write on the table it finds), nothing else touched. */
  lemma ProcessIsARun(p: Params, s: State, a: nat, msg: JobMessage, w: World, tm: Timing,
                      before: seq<Event>, early: State, between: seq<Event>, late: State)
    returns (events: seq<Event>, t: State)
    requires Call(p, s, a, msg, w, tm, before, early, between, late)
    ensures Reaches(p, s, events, t) && a < |t.attempts| && a < |late.attempts|
    ensures t.attempts == late.attempts[a := t.attempts[a]] && t.messages == late.messages && t.pending == late.pending
    ensures t.attempts[a].pc == Returned(Processed(early.table, msg, w).1)
    ensures t.table ==
      if Acquires(early.table, msg, w) && VerdictOf(msg, w).End?
      then SettleEffect(late.table, msg.jobId, VerdictOf(msg, w).outcome, w.finishStamp, w.finishFault)
      else late.table
  {
    hide Rfc3339.Stamp;
    events := ClaimRun(p, s, a, msg, w, tm, before, early);
    var claimed := ClaimedState(early, a, msg, w, tm);
    RunAppend(p, s, events, between);
    events, t := events + between, late;
    OthersLeaveAttempt(p, claimed, between, late, a);
    if Acquires(early.table, msg, w) {
      events, t := FinishRun(p, s, a, msg, w, tm, events, late);
    }
  }

  /** Uninterrupted, the call is `Processed`: same table, same answer. */
  lemma ProcessAlone(p: Params, s: State, a: nat, msg: JobMessage, w: World, tm: Timing) returns (events: seq<Event>, t: State)
    requires ClockOk(p, s.clock) && a < |s.attempts| && s.attempts[a].pc.Delivered? && BodyOf(s, a) == Job(msg.jobId)
    requires Agrees(p, w, tm) && s.clock <= tm.armAt && tm.finishAt <= s.attempts[a].deliveredAt + p.timeout * SECOND
    ensures Reaches(p, s, events, t) && a < |t.attempts|
    ensures t.attempts == s.attempts[a := t.attempts[a]] && t.messages == s.messages && t.pending == s.pending
    ensures (t.table, t.attempts[a].pc) == (Processed(s.table, msg, w).0, Returned(Processed(s.table, msg, w).1))
  {
    hide Rfc3339.Stamp;
    var armed := ArmedState(p, s, a, tm);
    var claimed := ClaimedState(armed, a, msg, w, tm);
    assert Reaches(p, armed, [], armed) && Reaches(p, claimed, [], claimed);
    events, t := ProcessIsARun(p, s, a, msg, w, tm, [], armed, [], claimed);
  }

  /** And under the lease the interleaving does not show: the job's record and the answer are those of a call
      that happens in one piece when the lease update is committed. */
  lemma ProcessIsAtomic(p: Params, s: State, a: nat, msg: JobMessage, w: World, tm: Timing,
                        before: seq<Event>, early: State, between: seq<Event>, late: State)
    returns (events: seq<Event>, t: State)
    requires p.timeout <= p.lease && Lease.Inv(p, s) && Call(p, s, a, msg, w, tm, before, early, between, late)
    requires Acquires(early.table, msg, w)
    ensures Reaches(p, s, events, t) && a < |t.attempts| && msg.jobId in t.table
    ensures (t.table[msg.jobId], t.attempts[a].pc) ==
            (Processed(early.table, msg, w).0[msg.jobId], Returned(Processed(early.table, msg, w).1))
  {
    hide Rfc3339.Stamp;
    events, t := ProcessIsARun(p, s, a, msg, w, tm, before, early, between, late);
    var claims := ClaimRun(p, s, a, msg, w, tm, before, early);
    var claimed := ClaimedState(early, a, msg, w, tm);
    Lease.RunInv(p, s, claims);
    HeldThroughout(p, claimed, between, late, a, msg.jobId);
  }

  /** The steps up to the answer of the lease update. */
  lemma ClaimRun(p: Params, s: State, a: nat, msg: JobMessage, w: World, tm: Timing, before: seq<Event>, early: State)
    returns (events: seq<Event>)
    requires Agrees(p, w, tm) && ClockOk(p, s.clock)
    requires a < |s.attempts| && s.attempts[a].pc.Delivered? && BodyOf(s, a) == Job(msg.jobId)
    requires s.clock <= tm.armAt && tm.finishAt <= s.attempts[a].deliveredAt + p.timeout * SECOND
    requires Others(p, ArmedState(p, s, a, tm), before, early, a) && early.clock <= tm.claimAt
    ensures a < |early.attempts| && early.attempts[a].pc.Armed?
    ensures var claimed := ClaimedState(early, a, msg, w, tm);
      Reaches(p, s, events, claimed) && claimed.clock == tm.claimAt &&
      a < |claimed.attempts| && BodyOf(claimed, a) == Job(msg.jobId) &&
      claimed.attempts[a].deliveredAt == s.attempts[a].deliveredAt &&
      var (table, answer) := ClaimEffect(early.table, msg.jobId, w.cutoff, w.claimStamp, w.claimFault);
      claimed.table == table &&
      claimed.attempts[a].pc == (if answer.ClaimOk? then Holding else Returned(answer.ErrAlreadyProcessing?)) &&
      (answer.ClaimOk? ==> claimed.attempts[a].heldAt == tm.claimStampAt)
  {
    hide Rfc3339.Stamp;
    var armed := ArmedState(p, s, a, tm);
    events := ReachLater(p, s, [], s, tm.armAt);
    var t := s.(clock := tm.armAt);
    ReachStep(p, s, events, t, Arm(a));
    assert Apply(p, t, Arm(a)) == armed;
    events := events + [Arm(a)];
    OthersLeaveAttempt(p, armed, before, early, a);
    RunAppend(p, s, events, before);
    events := ReachLater(p, s, events + before, early, tm.claimAt);
    t := early.(clock := tm.claimAt);
    var claim := Claim(a, tm.claimStampAt, w.claimFault);
    ReachStep(p, s, events, t, claim);
    events := events + [claim];
  }

  /** The steps from the acquired lease, at whatever later state, to the return. */
  lemma FinishRun(p: Params, s: State, a: nat, msg: JobMessage, w: World, tm: Timing, before: seq<Event>, u: State)
    returns (events: seq<Event>, t: State)
    requires Reaches(p, s, before, u) && Agrees(p, w, tm) && tm.claimAt <= u.clock <= tm.finishAt
    requires a < |u.attempts| && u.attempts[a].pc.Holding? && BodyOf(u, a) == Job(msg.jobId)
    requires u.attempts[a].heldAt == tm.claimStampAt && tm.finishAt <= u.attempts[a].deliveredAt + p.timeout * SECOND
    ensures Reaches(p, s, events, t) && a < |t.attempts|
    ensures t.attempts == u.attempts[a := t.attempts[a]] && t.messages == u.messages && t.pending == u.pending
    ensures match VerdictOf(msg, w)
      case TryAgain => t.table == u.table && t.attempts[a].pc == Returned(false)
      case End(outcome) =>
        t.table == SettleEffect(u.table, msg.jobId, outcome, w.finishStamp, w.finishFault) &&
        t.attempts[a].pc == Returned(w.finishFault.NoFault?)
  {
    hide Rfc3339.Stamp;
    match VerdictOf(msg, w)
    case TryAgain =>
      ReachStep(p, s, before, u, Retry(a));
      events, t := before + [Retry(a)], Apply(p, u, Retry(a));
    case End(outcome) =>
      ReachStep(p, s, before, u, Decide(a, outcome));
      events, t := before + [Decide(a, outcome)], Apply(p, u, Decide(a, outcome));
      events := ReachLater(p, s, events, t, tm.finishAt);
      t := t.(clock := tm.finishAt);
      var finish := Finish(a, tm.finishStampAt, w.finishFault);
      ReachStep(p, s, events, t, finish);
      events, t := events + [finish], Apply(p, t, finish);
  }
}
