/** The job table, the four updates the API and the worker make to it, and the worker's store. */
module JobTable {
  import opened Text

  datatype Option<+T> = None | Some(value: T)

  datatype Status = Queued | Processing | Completed | Failed

  /** What the API records of a request. */
  datatype Request = Request(userId: string, repoUrl: string, customPrompt: string, createdAt: string)

  datatype Usage = Usage(inputTokens: int, outputTokens: int)

  /** One item of the table; attributes no update has set are `None`. */
  datatype JobRecord = JobRecord(
    status: Status, updatedAt: string, request: Option<Request>, modelId: Option<string>,
    story: Option<string>, digest: Option<string>, usage: Option<Usage>, errorMessage: Option<string>)
  {
    predicate Terminal() {
      status.Completed? || status.Failed?
    }
  }

  type Table = map<string, JobRecord>

  datatype CompletedResult = CompletedResult(story: string, digest: string, modelId: string, usage: Usage)

  /** The two ways a job can end. */
  datatype Outcome = Story(result: CompletedResult) | Failure(message: string)

  function InitialRecord(request: Request, modelId: string): JobRecord {
    JobRecord(Queued, request.createdAt, Some(request), Some(modelId), None, None, None, None)
  }

  /** The condition of the lease update: queued, or processing and last touched before `cutoff`. */
  predicate MayClaim(table: Table, job: string, cutoff: string) {
    job in table &&
    (table[job].status.Queued? || (table[job].status.Processing? && StrLess(table[job].updatedAt, cutoff)))
  }

  function Claimed(table: Table, job: string, now: string): Table
    requires job in table
  {
    table[job := table[job].(status := Processing, updatedAt := now)]
  }

  /** `UpdateItem` creates the item it cannot find. */
  function ItemOrBlank(table: Table, job: string): JobRecord {
    if job in table then table[job] else JobRecord(Queued, "", None, None, None, None, None, None)
  }

  /** The unconditional update that ends a job. */
  function Settled(table: Table, job: string, outcome: Outcome, now: string): Table {
    var item := ItemOrBlank(table, job);
    match outcome
    case Story(r) =>
      table[job := item.(status := Completed, story := Some(r.story), digest := Some(r.digest),
                         modelId := Some(r.modelId), usage := Some(r.usage), updatedAt := now)]
    case Failure(message) =>
      table[job := item.(status := Failed, errorMessage := Some(message), updatedAt := now)]
  }

  /** The record shows exactly this outcome. */
  predicate Shows(record: JobRecord, outcome: Outcome) {
    match outcome
    case Story(r) =>
      record.status.Completed? && record.story == Some(r.story) && record.digest == Some(r.digest) &&
      record.modelId == Some(r.modelId) && record.usage == Some(r.usage)
    case Failure(message) => record.status.Failed? && record.errorMessage == Some(message)
  }

  /** A record shows one outcome only, and only when it is terminal. */
  lemma ShowsOneOutcome(record: JobRecord, a: Outcome, b: Outcome)
    requires Shows(record, a) && Shows(record, b)
    ensures a == b && (record.status == Completed || record.status == Failed) && record.Terminal()
  {
  }

  /** What the network does to one `UpdateItem`: it may report an error before or after the update is applied. */
  datatype Fault = NoFault | LostRequest | LostReply

  datatype ClaimResult = ClaimOk | ErrAlreadyProcessing | ErrRecordNotFound | ErrClaim

  /** The table and the answer of one conditional lease update. */
  function ClaimEffect(table: Table, job: string, cutoff: string, now: string, fault: Fault): (Table, ClaimResult) {
    if fault.LostRequest? then (table, ErrClaim)
    else if MayClaim(table, job, cutoff) then (Claimed(table, job, now), if fault.LostReply? then ErrClaim else ClaimOk)
    else (table, if fault.LostReply? then ErrClaim else if job in table then ErrAlreadyProcessing else ErrRecordNotFound)
  }

  /** No other record is touched. */
  predicate OnlyChanges(before: Table, after: Table, job: string) {
    job in after && after.Keys == before.Keys + {job} && forall id | id in before && id != job :: after[id] == before[id]
  }

  /** All attributes but status and time stamp agree. */
  predicate SameContent(r: JobRecord, s: JobRecord) {
    r.request == s.request && r.modelId == s.modelId && r.story == s.story && r.digest == s.digest &&
    r.usage == s.usage && r.errorMessage == s.errorMessage
  }

  function SettleEffect(table: Table, job: string, outcome: Outcome, now: string, fault: Fault): Table {
    if fault.LostRequest? then table else Settled(table, job, outcome, now)
  }

  /** The lease update, attribute by attribute: one that arrives takes effect exactly on a queued or a stale processing
      record, of which it changes status and time stamp; an answer that arrives tells what it found. */
  lemma ClaimMeans(table: Table, job: string, cutoff: string, now: string, fault: Fault)
    ensures var (after, answer) := ClaimEffect(table, job, cutoff, now, fault);
      var free := job in table &&
        (table[job].status == Queued || (table[job].status == Processing && StrLess(table[job].updatedAt, cutoff)));
      (fault.LostRequest? || !free ==> after == table) &&
      (!fault.LostRequest? && free ==>
        OnlyChanges(table, after, job) && SameContent(table[job], after[job]) &&
        after[job].status == Processing && after[job].updatedAt == now) &&
      (answer == ClaimOk <==> fault == NoFault && free) &&
      (answer == ErrAlreadyProcessing <==> fault == NoFault && job in table && !free) &&
      (answer == ErrRecordNotFound <==> fault == NoFault && job !in table)
  {
    hide StrLess;
  }

  /** The update that ends a job, attribute by attribute. A failure keeps what an earlier attempt has written. */
  lemma SettleMeans(table: Table, job: string, outcome: Outcome, now: string, fault: Fault)
    ensures fault.LostRequest? ==> SettleEffect(table, job, outcome, now, fault) == table
    ensures !fault.LostRequest? ==>
      var after := SettleEffect(table, job, outcome, now, fault);
      OnlyChanges(table, after, job) && after[job].updatedAt == now && Shows(after[job], outcome) &&
      (if job in table then after[job].request == table[job].request else after[job].request == None) &&
      (match outcome
       case Story(r) =>
         after[job].status == Completed && after[job].story == Some(r.story) && after[job].digest == Some(r.digest) &&
         after[job].modelId == Some(r.modelId) && after[job].usage == Some(r.usage) &&
         (job in table ==> after[job].errorMessage == table[job].errorMessage)
       case Failure(message) =>
         after[job].status == Failed && after[job].errorMessage == Some(message) &&
         (job in table ==>
           after[job].story == table[job].story && after[job].digest == table[job].digest &&
           after[job].modelId == table[job].modelId && after[job].usage == table[job].usage))
  {
  }

  /** A call that ended a job, and whether it reported success. */
  datatype TerminalCall = TerminalCall(job: string, outcome: Outcome, reported: bool)

  /** The worker's store: the table it updates, and a journal of the terminal writes it was asked for. */
  class JobStore {
    var table: Table
    var journal: seq<TerminalCall>

    constructor (table: Table)
      ensures this.table == table && journal == []
    {
      this.table, journal := table, [];
    }

    method MarkProcessing(job: string, cutoff: string, now: string, fault: Fault) returns (r: ClaimResult)
      modifies this`table
      ensures (table, r) == ClaimEffect(old(table), job, cutoff, now, fault)
      ensures r.ClaimOk? ==> MayClaim(old(table), job, cutoff) && table == Claimed(old(table), job, now)
      ensures r.ErrAlreadyProcessing? ==> job in table && !table[job].status.Queued?
      ensures r.ErrAlreadyProcessing? && table[job].status.Processing? ==> !StrLess(table[job].updatedAt, cutoff)
      ensures r.ErrRecordNotFound? ==> job !in table
    {
      if fault.LostRequest? {
        return ErrClaim;
      }
      var found := job in table;
      var held := MayClaim(table, job, cutoff);
      if held {
        table := table[job := table[job].(status := Processing, updatedAt := now)];
      }
      if fault.LostReply? {
        return ErrClaim;
      }
      if held {
        return ClaimOk;
      }
      return if found then ErrAlreadyProcessing else ErrRecordNotFound;
    }

    method MarkCompleted(job: string, result: CompletedResult, now: string, fault: Fault) returns (ok: bool)
      modifies this
      ensures table == SettleEffect(old(table), job, Story(result), now, fault)
      ensures journal == old(journal) + [TerminalCall(job, Story(result), ok)]
      ensures ok == fault.NoFault?
      ensures ok ==> job in table && Shows(table[job], Story(result))
    {
      if !fault.LostRequest? {
        var item := ItemOrBlank(table, job);
        table := table[job := item.(status := Completed, story := Some(result.story), digest := Some(result.digest),
                                    modelId := Some(result.modelId), usage := Some(result.usage), updatedAt := now)];
      }
      ok := fault.NoFault?;
      journal := journal + [TerminalCall(job, Story(result), ok)];
    }

    method MarkFailed(job: string, message: string, now: string, fault: Fault) returns (ok: bool)
      modifies this
      ensures table == SettleEffect(old(table), job, Failure(message), now, fault)
      ensures journal == old(journal) + [TerminalCall(job, Failure(message), ok)]
      ensures ok == fault.NoFault?
      ensures ok ==> job in table && Shows(table[job], Failure(message))
    {
      if !fault.LostRequest? {
        var item := ItemOrBlank(table, job);
        table := table[job := item.(status := Failed, errorMessage := Some(message), updatedAt := now)];
      }
      ok := fault.NoFault?;
      journal := journal + [TerminalCall(job, Failure(message), ok)];
    }
  }
}
