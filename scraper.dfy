/** Stage 1 of the pipeline: the request payload sent to the scraping provider
    and the engine that cuts the query list into batches, submits each batch
    and records the job handle (`snapshot_id`) each accepted batch returns. */
module Scraper {
  import opened Common
  import opened Json
  import opened Store

  const GoogleUrl: string := "https://www.google.com/"

  /** One element of the payload's `input` list. */
  function QueryEntry(keyword: string): Json
  {
    JObj([
      Field("url", JStr(GoogleUrl)),
      Field("keyword", JStr(keyword)),
      Field("language", JStr("")),
      Field("uule", JStr("")),
      Field("brd_mobile", JStr(""))])
  }

  function QueryEntries(keywords: seq<string>): seq<Json>
  {
    seq(|keywords|, i requires 0 <= i < |keywords| => QueryEntry(keywords[i]))
  }

  /** The document `{"input": [...]}` whose text `create_payload` returns. */
  function PayloadDoc(keywords: seq<string>): Json
  {
    JObj([Field("input", JArr(QueryEntries(keywords)))])
  }

  /** The value of the first field named key. */
  function Lookup(fields: seq<Field>, key: string): Option<Json>
  {
    if fields == [] then None
    else if fields[0].key == key then Some(fields[0].value)
    else Lookup(fields[1..], key)
  }

  /** How the provider reads one input entry: its keyword, provided the entry
      targets the Google URL with empty language, uule and mobile hints. */
  function EntryKeyword(entry: Json): Option<string>
  {
    match entry
    case JObj(fields) =>
      if && Lookup(fields, "url") == Some(JStr(GoogleUrl))
         && Lookup(fields, "language") == Some(JStr(""))
         && Lookup(fields, "uule") == Some(JStr(""))
         && Lookup(fields, "brd_mobile") == Some(JStr(""))
         && Lookup(fields, "keyword").Some? && Lookup(fields, "keyword").value.JStr?
      then Some(Lookup(fields, "keyword").value.s)
      else None
    case _ => None
  }

  function EntryKeywords(entries: seq<Json>): Option<seq<string>>
  {
    if entries == [] then Some([])
    else
      match (EntryKeyword(entries[0]), EntryKeywords(entries[1..]))
      case (Some(k), Some(ks)) => Some([k] + ks)
      case _ => None
  }

  /** The keywords of a payload document, in entry order. */
  function KeywordsOf(doc: Json): Option<seq<string>>
  {
    match doc
    case JObj(fields) =>
      (match Lookup(fields, "input")
       case Some(JArr(entries)) => EntryKeywords(entries)
       case _ => None)
    case _ => None
  }

  /** The payload carries one well-formed entry per keyword, in the same order:
      reading the keywords back gives exactly the input list. */
  lemma {:induction false} PayloadKeywords(keywords: seq<string>)
    ensures KeywordsOf(PayloadDoc(keywords)) == Some(keywords)
  {
    EntryKeywordsOf(keywords);
  }

  lemma {:induction false} EntryKeywordsOf(keywords: seq<string>)
    ensures EntryKeywords(QueryEntries(keywords)) == Some(keywords)
  {
    if keywords != [] {
      assert QueryEntries(keywords)[1..] == QueryEntries(keywords[1..]);
      EntryKeywordsOf(keywords[1..]);
      EntryKeywordOf(keywords[0]);
      assert keywords == [keywords[0]] + keywords[1..];
    }
  }

  lemma EntryKeywordOf(keyword: string)
    ensures EntryKeyword(QueryEntry(keyword)) == Some(keyword)
  {
    var f := QueryEntry(keyword).fields;
    assert Lookup(f[4..], "brd_mobile") == Some(JStr(""));
    assert Lookup(f[3..], "uule") == Some(JStr(""));
    assert Lookup(f[2..], "language") == Some(JStr(""));
    assert Lookup(f[1..], "keyword") == Some(JStr(keyword));
    assert Lookup(f[3..], "brd_mobile") == Some(JStr(""));
    assert Lookup(f[2..], "uule") == Some(JStr(""));
    assert Lookup(f[1..], "language") == Some(JStr(""));
    assert Lookup(f[2..], "brd_mobile") == Some(JStr(""));
    assert Lookup(f[1..], "uule") == Some(JStr(""));
    assert Lookup(f[1..], "brd_mobile") == Some(JStr(""));
  }

  /** `create_payload`: appends one entry per keyword, then serialises. */
  method CreatePayload(keywords: seq<string>) returns (payload: string)
    ensures payload == Dumps(PayloadDoc(keywords))
  {
    var inputData: seq<Json> := [];
    for k := 0 to |keywords|
      invariant inputData == QueryEntries(keywords[..k])
    {
      inputData := inputData + [QueryEntry(keywords[k])];
    }
    assert keywords[..|keywords|] == keywords;
    payload := Dumps(JObj([Field("input", JArr(inputData))]));
  }

  /** `send_request`: posts the payload for the keywords; the provider's
      answer (a decoded reply, or None for a transport or decoding failure)
      is the parameter reply. */
  method SendRequest(keywords: seq<string>, reply: Option<map<string, string>>)
      returns (response: Option<map<string, string>>, ghost payload: string)
    ensures payload == Dumps(PayloadDoc(keywords))
    ensures response == reply
  {
    payload := CreatePayload(keywords);
    response := reply;
  }

  /** The batches `queries[i:i + size]` for i = 0, size, 2 * size, ... below N. */
  function Batches(queries: seq<string>, size: nat): seq<seq<string>>
    requires size >= 1
    decreases |queries|
  {
    if |queries| <= size then
      if queries == [] then [] else [queries]
    else
      [queries[..size]] + Batches(queries[size..], size)
  }

  /** Put back together, the batches give the query list; each holds between
      1 and size queries, and all but the last hold exactly size. */
  lemma {:induction false} BatchesPartition(queries: seq<string>, size: nat)
    requires size >= 1
    ensures Concat(Batches(queries, size)) == queries
    ensures forall k :: 0 <= k < |Batches(queries, size)| ==> 1 <= |Batches(queries, size)[k]| <= size
    ensures forall k :: 0 <= k < |Batches(queries, size)| - 1 ==> |Batches(queries, size)[k]| == size
    decreases |queries|
  {
    if |queries| > size {
      var rest := Batches(queries[size..], size);
      BatchesPartition(queries[size..], size);
      var r := Batches(queries, size);
      assert r == [queries[..size]] + rest;
      assert r[1..] == rest;
      assert queries == queries[..size] + queries[size..];
      forall k | 1 <= k < |r|
        ensures r[k] == rest[k - 1]
      {
      }
    }
  }

  /** There are ceil(N / size) batches. */
  lemma {:induction false} BatchCount(queries: seq<string>, size: nat)
    requires size >= 1
    ensures |queries| <= |Batches(queries, size)| * size < |queries| + size
    decreases |queries|
  {
    if |queries| > size {
      var rest := Batches(queries[size..], size);
      BatchCount(queries[size..], size);
      assert |Batches(queries, size)| == |rest| + 1;
      assert (|rest| + 1) * size == |rest| * size + size;
    }
  }

  function Concat(batches: seq<seq<string>>): seq<string>
  {
    if batches == [] then [] else batches[0] + Concat(batches[1..])
  }

  function Min(a: nat, b: nat): nat { if a < b then a else b }

  /** The batches from position i on: the next slice, then the batches after it. */
  lemma BatchesFrom(queries: seq<string>, i: nat, size: nat)
    requires size >= 1 && i < |queries|
    ensures |Batches(queries[i..], size)| >= 1
    ensures Batches(queries[i..], size)[0] == queries[i..Min(i + size, |queries|)]
    ensures Batches(queries[i..], size)[1..]
      == if i + size < |queries| then Batches(queries[i + size..], size) else []
  {
    if i + size < |queries| {
      assert queries[i..][size..] == queries[i + size..];
      assert queries[i..][..size] == queries[i..i + size];
    } else {
      assert queries[i..] == queries[i..|queries|];
    }
  }

  /** The job handle a submission reply carries: `response and 'snapshot_id' in response`. */
  function SnapshotIdOf(reply: Option<map<string, string>>): Option<string>
  {
    if reply.Some? && "snapshot_id" in reply.value then Some(reply.value["snapshot_id"]) else None
  }

  function ReplyAt(replies: seq<Option<map<string, string>>>, k: nat): Option<map<string, string>>
  {
    if k < |replies| then replies[k] else None
  }

  /** The id a batch records: the reply's id, when its insert neither faults
      nor meets an id already in the table. */
  function Accepted(reply: Option<map<string, string>>, fault: Option<string>, jobs: seq<JobRow>): Option<string>
  {
    var id := SnapshotIdOf(reply);
    if id.Some? && fault.None? && id.value !in JobIds(jobs) then id else None
  }

  /** The job table, the recorded ids and the failure count after the first n batches. */
  datatype SubmitState = SubmitState(jobs: seq<JobRow>, submitted: seq<string>, failed: nat)

  function PendingRows(ids: seq<string>): seq<JobRow>
  {
    seq(|ids|, i requires 0 <= i < |ids| => JobRow(ids[i], false))
  }

  /** One batch: a reply whose id is accepted records it and adds a pending
      row for it; anything else counts as a failed batch. */
  function SubmitStep(s: SubmitState, reply: Option<map<string, string>>, fault: Option<string>): SubmitState
  {
    var id := Accepted(reply, fault, s.jobs);
    if id.Some? then SubmitState(s.jobs + [JobRow(id.value, false)], s.submitted + [id.value], s.failed)
    else s.(failed := s.failed + 1)
  }

  /** The state after the first n batches, batch k answered by replies[k]
      and its insert faulting with faults[k]. */
  function SubmitRun(jobs0: seq<JobRow>, replies: seq<Option<map<string, string>>>,
                     faults: seq<Option<string>>, n: nat): SubmitState
  {
    if n == 0 then SubmitState(jobs0, [], 0)
    else SubmitStep(SubmitRun(jobs0, replies, faults, n - 1), ReplyAt(replies, n - 1), FaultAt(faults, n - 1))
  }

  /** Each batch either records an id or fails, and the job table grows by
      one pending row per recorded id, in order. */
  lemma {:induction false} SubmitRunShape(jobs0: seq<JobRow>, replies: seq<Option<map<string, string>>>,
                                          faults: seq<Option<string>>, n: nat)
    ensures var s := SubmitRun(jobs0, replies, faults, n);
      && |s.submitted| + s.failed == n
      && s.jobs == jobs0 + PendingRows(s.submitted)
  {
    if n > 0 {
      SubmitRunShape(jobs0, replies, faults, n - 1);
      var s := SubmitRun(jobs0, replies, faults, n - 1);
      var id := Accepted(ReplyAt(replies, n - 1), FaultAt(faults, n - 1), s.jobs);
      if id.Some? {
        assert PendingRows(s.submitted + [id.value]) == PendingRows(s.submitted) + [JobRow(id.value, false)];
      }
    }
  }

  /** The recorded ids are distinct and new to the job table, and each one was
      carried by the reply to some batch whose insert did not fault. */
  lemma {:induction false} SubmittedIds(jobs0: seq<JobRow>, replies: seq<Option<map<string, string>>>,
                                        faults: seq<Option<string>>, n: nat)
    ensures var s := SubmitRun(jobs0, replies, faults, n);
      && Distinct(s.submitted)
      && (forall x :: x in s.submitted ==> x !in JobIds(jobs0))
      && (forall x :: x in s.submitted ==>
            exists k :: 0 <= k < n && SnapshotIdOf(ReplyAt(replies, k)) == Some(x) && FaultAt(faults, k).None?)
  {
    if n > 0 {
      SubmittedIds(jobs0, replies, faults, n - 1);
      SubmitRunShape(jobs0, replies, faults, n - 1);
      var s := SubmitRun(jobs0, replies, faults, n - 1);
      var id := Accepted(ReplyAt(replies, n - 1), FaultAt(faults, n - 1), s.jobs);
      if id.Some? {
        assert JobIds(s.jobs) == JobIds(jobs0) + s.submitted;
        DistinctAppend(s.submitted, id.value);
      }
    }
  }

  /** The batches not yet sent when the loop index is at i. */
  function Remaining(queries: seq<string>, i: nat, size: nat): seq<seq<string>>
    requires size >= 1
  {
    if i < |queries| then Batches(queries[i..], size) else []
  }

  /** Taking the next batch off the remaining ones. */
  lemma NextBatch(queries: seq<string>, size: nat, i: nat, next: nat)
    requires size >= 1 && i < |queries| && next == i + size
    ensures |Remaining(queries, i, size)| >= 1
    ensures Remaining(queries, i, size)
      == [queries[i..Min(next, |queries|)]] + Remaining(queries, next, size)
  {
    BatchesFrom(queries, i, size);
    var rest := Remaining(queries, i, size);
    assert rest == [rest[0]] + rest[1..];
  }

  /** What `process_queries` returns. */
  datatype SubmitStats = SubmitStats(
    totalQueries: nat,
    successfulSnapshots: nat,
    failedBatches: nat,
    totalBatches: nat,
    submittedIds: seq<string>)

  class EmailScraperEngine {
    const supabase: SupabaseStore

    constructor (supabase: SupabaseStore)
      ensures this.supabase == supabase
    {
      this.supabase := supabase;
    }

    /** One iteration of `process_queries`: the batch is sent with
        `send_request` (answered by reply) and, when the response carries an
        id, the id is saved with `save_snapshot` (whose insert faults with
        fault). The result is the recorded id, if any. */
    method SubmitBatch(batch: seq<string>, reply: Option<map<string, string>>, fault: Option<string>)
        returns (accepted: Option<string>)
      requires supabase.Valid()
      modifies supabase
      ensures supabase.Valid()
      ensures accepted == Accepted(reply, fault, old(supabase.jobs))
      ensures supabase.jobs == if accepted.Some? then old(supabase.jobs) + [JobRow(accepted.value, false)] else old(supabase.jobs)
      ensures supabase.responses == old(supabase.responses) && supabase.emails == old(supabase.emails)
    {
      ghost var payload;
      var response;
      response, payload := SendRequest(batch, reply);
      accepted := None;
      if response.Some? && "snapshot_id" in response.value {
        var snapshotId := response.value["snapshot_id"];
        var saved := supabase.SaveSnapshot(snapshotId, fault);
        if saved {
          accepted := Some(snapshotId);
        }
      }
    }

    /** `process_queries`: the queries are cut into batches (sent, in order,
        to `send_request`); batch k is answered by replies[k] and its id is
        recorded when the reply carries one and `save_snapshot` (faulting with
        saveFaults[k]) succeeds. The tallies add up, every recorded id gets a
        pending job row, and the recorded ids are distinct. */
    method ProcessQueries(queries: seq<string>, batchSize: nat,
                          replies: seq<Option<map<string, string>>>,
                          saveFaults: seq<Option<string>>)
        returns (stats: SubmitStats, ghost sent: seq<seq<string>>)
      requires batchSize >= 1
      requires supabase.Valid()
      modifies supabase
      ensures supabase.Valid()
      ensures sent == Batches(queries, batchSize)
      ensures var run := SubmitRun(old(supabase.jobs), replies, saveFaults, |Batches(queries, batchSize)|);
        && stats == SubmitStats(|queries|, |run.submitted|, run.failed, |Batches(queries, batchSize)|, run.submitted)
        && supabase.jobs == run.jobs
      ensures stats.successfulSnapshots + stats.failedBatches == stats.totalBatches
      ensures supabase.jobs == old(supabase.jobs) + PendingRows(stats.submittedIds)
      ensures Distinct(stats.submittedIds)
      ensures |queries| <= stats.totalBatches * batchSize < |queries| + batchSize
      ensures supabase.responses == old(supabase.responses) && supabase.emails == old(supabase.emails)
    {
      ghost var jobs0 := supabase.jobs;
      ghost var rest := Remaining(queries, 0, batchSize);
      var totalQueries := |queries|;
      var successfulSnapshots := 0;
      var failedBatches := 0;
      var batchCount := 0;
      var submittedIds: seq<string> := [];
      sent := [];
      var i := 0;
      assert queries[0..] == queries;
      while i < totalQueries
        invariant supabase.Valid()
        invariant batchCount == |sent|
        invariant sent + rest == Batches(queries, batchSize)
        invariant rest == Remaining(queries, i, batchSize)
        invariant SubmitRun(jobs0, replies, saveFaults, batchCount)
          == SubmitState(supabase.jobs, submittedIds, failedBatches)
        invariant successfulSnapshots == |submittedIds|
        invariant supabase.responses == old(supabase.responses) && supabase.emails == old(supabase.emails)
        decreases totalQueries - i
      {
        var batch := queries[i..Min(i + batchSize, totalQueries)];
        var next := i + batchSize;
        NextBatch(queries, batchSize, i, next);
        ghost var tail := Remaining(queries, next, batchSize);
        assert (sent + [batch]) + tail == sent + rest;
        ghost var before := SubmitState(supabase.jobs, submittedIds, failedBatches);
        var accepted := SubmitBatch(batch, ReplyAt(replies, batchCount), FaultAt(saveFaults, batchCount));
        if accepted.Some? {
          successfulSnapshots := successfulSnapshots + 1;
          submittedIds := submittedIds + [accepted.value];
        } else {
          failedBatches := failedBatches + 1;
        }
        assert SubmitState(supabase.jobs, submittedIds, failedBatches)
          == SubmitStep(before, ReplyAt(replies, batchCount), FaultAt(saveFaults, batchCount));
        batchCount := batchCount + 1;
        sent, rest := sent + [batch], tail;
        i := next;
      }
      assert sent == Batches(queries, batchSize);
      BatchCount(queries, batchSize);
      SubmitRunShape(jobs0, replies, saveFaults, batchCount);
      SubmittedIds(jobs0, replies, saveFaults, batchCount);
      stats := SubmitStats(totalQueries, successfulSnapshots, failedBatches, batchCount, submittedIds);
    }
  }
}
