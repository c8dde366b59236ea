/** The API's side: record first, message second. */
module Api {
  import opened JobTable
  import Protocol
  import Rfc3339

  datatype CreateRequest = CreateRequest(repoUrl: string, customPrompt: string, modelId: string)

  datatype Enqueued = Enqueued(jobId: string, repoUrl: string, customPrompt: string, modelId: string)

  datatype Created = Accepted(jobId: string) | ValidationError | RepositoryError | QueueError

  /** The table after one insertion that is conditional on the key being new. */
  function PutEffect(table: Table, jobId: string, request: Request, modelId: string, fault: Fault): Table {
    if jobId in table || fault.LostRequest? then table else table[jobId := InitialRecord(request, modelId)]
  }

  class NarrativeRepository {
    var table: Table

    constructor (table: Table)
      ensures this.table == table
    {
      this.table := table;
    }

    /** Inserts the initial record if there is none with this identifier; an existing record is never touched. */
    method PutInitialRecord(jobId: string, request: Request, modelId: string, fault: Fault) returns (ok: bool)
      modifies this
      ensures table == PutEffect(old(table), jobId, request, modelId, fault)
      ensures ok <==> jobId !in old(table) && fault.NoFault?
      ensures jobId in table && jobId !in old(table) ==>
        var r := table[jobId];
        r.status == Queued && r.updatedAt == request.createdAt && r.request == Some(request) && r.modelId == Some(modelId) &&
        r.story == None && r.digest == None && r.usage == None && r.errorMessage == None
      ensures ok ==> jobId in table
      ensures forall id | id in table && id != jobId :: id in old(table)
      ensures forall id | id in old(table) :: id in table && table[id] == old(table)[id]
    {
      if fault.LostRequest? || jobId in table {
        return false;
      }
      table := table[jobId := InitialRecord(request, modelId)];
      ok := fault.NoFault?;
    }
  }

  class NarrativeService {
    const repository: NarrativeRepository
    var sent: seq<Enqueued>

    constructor (repository: NarrativeRepository)
      ensures this.repository == repository && sent == []
    {
      this.repository, sent := repository, [];
    }

    /** Every message the service has sent refers to a record. */
    ghost predicate Valid()
      reads this, repository
    {
      forall m | m in sent :: m.jobId in repository.table
    }

    /** `valid` is the verdict of the request checks, `jobId` the fresh UUID. */
    method CreateNarrative(valid: bool, userId: string, request: CreateRequest, jobId: string, createdAt: string,
                           putFault: Fault, sendFault: Fault) returns (r: Created)
      requires Valid()
      modifies this, repository
      ensures Valid()
      ensures forall id | id in old(repository.table) :: id in repository.table && repository.table[id] == old(repository.table)[id]
      ensures sent == old(sent) ||
        (sent == old(sent) + [Enqueued(jobId, request.repoUrl, request.customPrompt, request.modelId)] && jobId !in old(repository.table))
      ensures sent != old(sent) <==> valid && jobId !in old(repository.table) && putFault.NoFault? && !sendFault.LostRequest?
      ensures r.Accepted? <==> valid && jobId !in old(repository.table) && putFault.NoFault? && sendFault.NoFault?
      ensures r.ValidationError? <==> !valid
      ensures r.RepositoryError? <==> valid && (jobId in old(repository.table) || !putFault.NoFault?)
      ensures r.Accepted? ==> r.jobId == jobId && |sent| == |old(sent)| + 1
      ensures r.Accepted? || r.QueueError? ==>
        repository.table == old(repository.table)[jobId := InitialRecord(Request(userId, request.repoUrl, request.customPrompt, createdAt), request.modelId)]
      ensures r.ValidationError? ==> sent == old(sent) && repository.table == old(repository.table)
      ensures r.RepositoryError? ==> sent == old(sent)
    {
      if !valid {
        return ValidationError;
      }
      var put := repository.PutInitialRecord(jobId, Request(userId, request.repoUrl, request.customPrompt, createdAt), request.modelId, putFault);
      if !put {
        return RepositoryError;
      }
      if !sendFault.LostRequest? {
        sent := sent + [Enqueued(jobId, request.repoUrl, request.customPrompt, request.modelId)];
      }
      if !sendFault.NoFault? {
        return QueueError;
      }
      r := Accepted(jobId);
    }
  }

  /** The insertion is the protocol's step, and only a reported one leads to a message. */
  lemma CreateIsTheProtocolStep(p: Protocol.Params, s: Protocol.State, jobId: string, request: Request, modelId: string, fault: Fault)
    requires Protocol.ClockOk(p, s.clock) && jobId !in s.pending
    ensures var put := Protocol.ApiPut(jobId, request, modelId, !fault.LostRequest?, fault.NoFault?);
      Protocol.Enabled(p, s, put) &&
      var t := Protocol.Apply(p, s, put);
      t.table == PutEffect(s.table, jobId, request, modelId, fault) &&
      (Protocol.Enabled(p, t, Protocol.ApiEnqueue(jobId)) <==> jobId !in s.table && fault.NoFault?)
  {
    hide Rfc3339.Stamp;
  }
}
