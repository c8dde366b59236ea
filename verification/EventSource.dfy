/** The event source mapping: which messages of a batch are deleted, given what the handler answered. */
module EventSource {
  import opened JobTable
  import opened Worker

  /** A decoded JSON value. */
  datatype Json = Null | Text(text: string) | List(items: seq<Json>) | Dict(entries: map<string, Json>) | Other

  const FAILURES := "batchItemFailures"
  const IDENTIFIER := "itemIdentifier"

  predicate NamesItem(j: Json) {
    j.Dict? && IDENTIFIER in j.entries && j.entries[IDENTIFIER].Text?
  }

  /** The response says nothing about failures. */
  predicate Silent(response: Json) {
    response.Null? || (response.Dict? && (FAILURES !in response.entries || response.entries[FAILURES].Null?))
  }

  /** The response lists failures, and every element names one. */
  predicate Lists(response: Json) {
    response.Dict? && FAILURES in response.entries && response.entries[FAILURES].List? &&
    forall j | j in response.entries[FAILURES].items :: NamesItem(j)
  }

  /** The identifiers that must not be deleted; anything unintelligible keeps the whole batch. */
  ghost function KeptIds(response: Json, ids: set<string>): set<string> {
    if Silent(response) then {}
    else if Lists(response) then set j | j in response.entries[FAILURES].items :: j.entries[IDENTIFIER].text
    else ids
  }

  method FailedMessageIds(response: Json, records: seq<SqsRecord>) returns (failed: set<string>)
    ensures failed == KeptIds(response, set r | r in records :: r.messageId)
  {
    var all := set r | r in records :: r.messageId;
    if response.Null? {
      return {};
    }
    if !response.Dict? {
      return all;
    }
    if FAILURES !in response.entries || response.entries[FAILURES].Null? {
      return {};
    }
    if !response.entries[FAILURES].List? {
      return all;
    }
    var items := response.entries[FAILURES].items;
    failed := {};
    for i := 0 to |items|
      invariant forall k: nat | k < i :: NamesItem(items[k])
      invariant failed == set k: nat | k < i :: items[k].entries[IDENTIFIER].text
    {
      if !NamesItem(items[i]) {
        assert items[i] in items;
        return all;
      }
      failed := failed + {items[i].entries[IDENTIFIER].text};
    }
    assert forall j | j in items :: exists k: nat :: k < |items| && items[k] == j;
  }

  /** The positions of the records whose identifiers are not in `failed`. */
  ghost function Deletable(records: seq<SqsRecord>, failed: set<string>): set<nat> {
    set i: nat | i < |records| && records[i].messageId !in failed
  }

  /** What becomes of the request to invoke the worker, and of the request to delete. */
  datatype Invocation = Answered(response: Json) | FunctionError | InvocationError
  datatype Deletion = DeletionError(before: bool) | DeletionDone(refused: set<nat>)

  /** The queue as one batch sees it: the positions of its records still on the queue. */
  class Batch {
    const records: seq<SqsRecord>
    var left: set<nat>

    constructor (records: seq<SqsRecord>, left: set<nat>)
      ensures this.records == records && this.left == left
    {
      this.records, this.left := records, left;
    }

    method DeleteMessages(failed: set<string>, deletion: Deletion)
      modifies this
      ensures old(left) - Deletable(records, failed) <= left <= old(left)
      ensures deletion == DeletionDone({}) ==> left == old(left) - Deletable(records, failed)
    {
      var entries: set<nat> := {};
      for i := 0 to |records|
        invariant entries == set k: nat | k < i && records[k].messageId !in failed
        invariant left == old(left)
      {
        if records[i].messageId !in failed {
          entries := entries + {i};
        }
      }
      if entries == {} {
        return;
      }
      match deletion
      case DeletionError(before) =>
        if !before {
          left := left - entries;
        }
      case DeletionDone(refused) =>
        left := left - (entries - refused);
    }

    /** Messages leave the queue only if the handler answered, and only those its answer does not keep. */
    method ProcessBatch(invocation: Invocation, deletion: Deletion)
      modifies this
      ensures !invocation.Answered? ==> left == old(left)
      ensures invocation.Answered? ==>
        var deletable := Deletable(records, KeptIds(invocation.response, set r | r in records :: r.messageId));
        old(left) - deletable <= left <= old(left) && (deletion == DeletionDone({}) ==> left == old(left) - deletable)
    {
      if !invocation.Answered? {
        return;
      }
      var failed := FailedMessageIds(invocation.response, records);
      DeleteMessages(failed, deletion);
    }
  }

  function Encoded(failures: seq<string>): Json {
    Dict(map[FAILURES := if failures == [] then Null
                         else List(seq(|failures|, i requires 0 <= i < |failures| => Dict(map[IDENTIFIER := Text(failures[i])])))])
  }

  lemma EncodedRoundTrip(failures: seq<string>, ids: set<string>)
    ensures KeptIds(Encoded(failures), ids) == set f | f in failures
  {
    if failures != [] {
      var items := Encoded(failures).entries[FAILURES].items;
      assert forall i: nat | i < |failures| :: items[i] == Dict(map[IDENTIFIER := Text(failures[i])]);
      var named := set j | j in items :: j.entries[IDENTIFIER].text;
      forall f
        ensures f in named <==> f in failures
      {
        if f in failures {
          var i: nat :| i < |failures| && failures[i] == f;
          assert items[i] in items && items[i].entries[IDENTIFIER].text == f;
        }
      }
    }
  }

  /** What an answer lets go, on the wire: a record is deleted exactly if the answer says nothing of failures,
      or lists identifiers, all of them well formed, of which none is the record's. */
  lemma DeletedUnlessNamed(response: Json, records: seq<SqsRecord>, i: nat)
    requires i < |records|
    ensures i in Deletable(records, KeptIds(response, set r | r in records :: r.messageId)) <==>
      response == Null ||
      (response.Dict? && ("batchItemFailures" !in response.entries || response.entries["batchItemFailures"] == Null)) ||
      (response.Dict? && "batchItemFailures" in response.entries && response.entries["batchItemFailures"].List? &&
       forall j | j in response.entries["batchItemFailures"].items ::
         j.Dict? && "itemIdentifier" in j.entries && j.entries["itemIdentifier"].Text? &&
         j.entries["itemIdentifier"].text != records[i].messageId)
  {
    assert records[i] in records;
  }

  /** An answer that is not silent and does not list well-formed failures deletes nothing. */
  lemma IllFormedDeletesNothing(response: Json, records: seq<SqsRecord>)
    requires !Silent(response) && !Lists(response)
    ensures Deletable(records, KeptIds(response, set r | r in records :: r.messageId)) == {}
  {
    forall i: nat | i < |records|
      ensures records[i].messageId in KeptIds(response, set r | r in records :: r.messageId)
    {
      assert records[i] in records;
    }
  }

  /** From handler to queue: with distinct identifiers, a message may be deleted exactly when its body is
      unreadable or `Process` returned nil for it. */
  lemma AcknowledgementIsExact(table: Table, records: seq<SqsRecord>, worlds: seq<World>, i: nat)
    requires i < |records| == |worlds|
    requires forall j: nat, k: nat | j < k < |records| :: records[j].messageId != records[k].messageId
    ensures i in Deletable(records, KeptIds(Encoded(Failures(table, records, worlds, |records|)), set r | r in records :: r.messageId))
      <==> records[i].body.None? || Processed(TableBefore(table, records, worlds, i), records[i].body.value, worlds[i]).1
  {
    var failures := Failures(table, records, worlds, |records|);
    EncodedRoundTrip(failures, set r | r in records :: r.messageId);
    FailuresAre(table, records, worlds, |records|, records[i].messageId);
    assert records[i].messageId in failures <==> AsksAgain(table, records, worlds, i);
  }
}
