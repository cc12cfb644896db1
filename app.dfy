/** The application's pipeline stages: reading the uploaded query list,
    retrieving the scraped data of every pending job into the response table
    (stage 2), and extracting addresses from every response not yet read into
    the email table (stage 3). Provider answers and store faults are inputs. */
module App {
  import opened Common
  import opened Json
  import opened Extraction
  import opened Calendar
  import opened Store

  // ---------------------------------------------------------------- queries

  /** `str.isspace()` for one character. */
  predicate IsSpace(c: char)
  {
    || c == ' ' || '\t' <= c <= '\r' || '\U{1C}' <= c <= '\U{1F}'
    || c == '\U{85}' || c == '\U{A0}' || c == '\U{1680}' || '\U{2000}' <= c <= '\U{200A}'
    || c == '\U{2028}' || c == '\U{2029}' || c == '\U{202F}' || c == '\U{205F}' || c == '\U{3000}'
  }

  function TrimStart(s: string): string
  {
    if s != [] && IsSpace(s[0]) then TrimStart(s[1..]) else s
  }

  function TrimEnd(s: string): string
  {
    if s != [] && IsSpace(s[|s| - 1]) then TrimEnd(s[..|s| - 1]) else s
  }

  /** Trimming the start drops exactly the leading white space. */
  lemma {:induction false} TrimStartShape(s: string)
    ensures |TrimStart(s)| <= |s| && TrimStart(s) == s[|s| - |TrimStart(s)|..]
    ensures TrimStart(s) == [] || !IsSpace(TrimStart(s)[0])
    ensures forall k :: 0 <= k < |s| - |TrimStart(s)| ==> IsSpace(s[k])
    decreases |s|
  {
    if s != [] && IsSpace(s[0]) {
      var t := s[1..];
      TrimStartShape(t);
      assert TrimStart(s) == TrimStart(t);
      forall k | 0 < k < |s| - |TrimStart(s)|
        ensures IsSpace(s[k])
      {
        assert s[k] == t[k - 1];
      }
    }
  }

  /** Trimming the end drops exactly the trailing white space. */
  lemma {:induction false} TrimEndShape(s: string)
    ensures |TrimEnd(s)| <= |s| && TrimEnd(s) == s[..|TrimEnd(s)|]
    ensures TrimEnd(s) == [] || !IsSpace(TrimEnd(s)[|TrimEnd(s)| - 1])
    ensures forall k :: |TrimEnd(s)| <= k < |s| ==> IsSpace(s[k])
    decreases |s|
  {
    if s != [] && IsSpace(s[|s| - 1]) {
      var t := s[..|s| - 1];
      TrimEndShape(t);
      assert TrimEnd(s) == TrimEnd(t);
      forall k | |TrimEnd(s)| <= k < |s| - 1
        ensures IsSpace(s[k])
      {
        assert s[k] == t[k];
      }
    }
  }

  /** r is s[i..i + |r|] and everything of s around it is white space. */
  ghost predicate Padded(s: string, r: string, i: int)
  {
    && 0 <= i <= |s| - |r| && r == s[i..i + |r|]
    && (forall k :: 0 <= k < i ==> IsSpace(s[k]))
    && (forall k :: i + |r| <= k < |s| ==> IsSpace(s[k]))
  }

  /** `str.strip()`. */
  function Strip(s: string): string
  {
    TrimEnd(TrimStart(s))
  }

  /** The stripped text neither starts nor ends with white space, and it is
      the part of s left once the white space around it is cut off. */
  lemma StripShape(s: string)
    ensures var r := Strip(s);
      && (r == [] || (!IsSpace(r[0]) && !IsSpace(r[|r| - 1])))
      && exists i :: Padded(s, r, i)
  {
    var t := TrimStart(s);
    TrimStartShape(s);
    TrimEndShape(t);
    assert Padded(s, Strip(s), |s| - |t|);
  }

  /** Stripping twice changes nothing more. */
  lemma StripIdempotent(s: string)
    ensures Strip(Strip(s)) == Strip(s)
  {
    var r := Strip(s);
    StripShape(s);
    if r != [] {
      assert TrimStart(r) == r;
      assert TrimEnd(r) == r;
    }
  }

  /** The stripped first cell of a row; "" for a row with no cells. */
  function Cell(row: seq<string>): string
  {
    if |row| > 0 then Strip(row[0]) else []
  }

  /** The stripped first cell of every row, in row order. */
  function Cells(rows: seq<seq<string>>): (cells: seq<string>)
    ensures |cells| == |rows|
  {
    seq(|rows|, k requires 0 <= k < |rows| => Cell(rows[k]))
  }

  /** The cells that are not blank, in order. */
  function NonBlank(cells: seq<string>): seq<string>
  {
    if cells == [] then []
    else
      var rest := NonBlank(cells[..|cells| - 1]);
      var cell := cells[|cells| - 1];
      if cell != [] then rest + [cell] else rest
  }

  /** The non-blank cells are exactly the cells other than "", at most one per cell. */
  lemma {:induction false} NonBlankMembers(cells: seq<string>)
    ensures |NonBlank(cells)| <= |cells|
    ensures forall q :: q in NonBlank(cells) <==> q in cells && q != []
  {
    if cells != [] {
      var init := cells[..|cells| - 1];
      assert cells == init + [cells[|cells| - 1]];
      NonBlankMembers(init);
    }
  }

  /** Rows are read independently and in order: the queries of two runs of
      cells are those of the first followed by those of the second. */
  lemma {:induction false} NonBlankAppend(cells: seq<string>, more: seq<string>)
    ensures NonBlank(cells + more) == NonBlank(cells) + NonBlank(more)
    decreases |more|
  {
    if more == [] {
      assert cells + more == cells;
    } else {
      var init := more[..|more| - 1];
      assert (cells + more)[..|cells + more| - 1] == cells + init;
      NonBlankAppend(cells, init);
    }
  }

  /** What `load_csv_queries` returns for the rows of a file: nothing for a
      file without rows; otherwise the non-blank stripped first cells of the
      rows after the header. */
  function CsvQueries(rows: seq<seq<string>>): seq<string>
  {
    if rows == [] then [] else NonBlank(Cells(rows[1..]))
  }

  /** The header row is never read: the result holds exactly the non-blank
      stripped first cells of the later rows, at most one per later row. */
  lemma CsvQueriesCells(rows: seq<seq<string>>)
    ensures rows == [] ==> CsvQueries(rows) == []
    ensures rows != [] ==> |CsvQueries(rows)| <= |rows| - 1
    ensures rows != [] ==> forall q :: q in CsvQueries(rows) <==> q != [] && q in Cells(rows[1..])
  {
    if rows != [] {
      NonBlankMembers(Cells(rows[1..]));
    }
  }

  /** Every query is already stripped: stripping it again changes nothing. */
  lemma CsvQueriesStripped(rows: seq<seq<string>>)
    ensures forall q :: q in CsvQueries(rows) ==> Strip(q) == q
  {
    CsvQueriesCells(rows);
    forall q | q in CsvQueries(rows)
      ensures Strip(q) == q
    {
      var cells := Cells(rows[1..]);
      var k :| 0 <= k < |cells| && cells[k] == q;
      StripIdempotent(rows[k + 1][0]);
    }
  }

  /** `load_csv_queries` after tokenising: skips the header row (a file with
      no rows at all raises and yields []), then keeps the stripped, non-blank
      first cell of each later row. */
  method LoadCsvQueries(rows: seq<seq<string>>) returns (queries: seq<string>)
    ensures queries == CsvQueries(rows)
  {
    queries := [];
    if |rows| == 0 {
      return;
    }
    ghost var cells := Cells(rows[1..]);
    for k := 1 to |rows|
      invariant queries == NonBlank(cells[..k - 1])
    {
      var row := rows[k];
      assert cells[..k][..k - 1] == cells[..k - 1];
      assert cells[k - 1] == Cell(row);
      if |row| > 0 {
        var query := Strip(row[0]);
        if query != [] {
          queries := queries + [query];
        }
      }
    }
    assert cells[..|rows| - 1] == cells;
  }

  // ---------------------------------------------------------------- stage 2

  /** How one pending job ended. */
  datatype JobOutcome =
    | Skipped                    // no data, or data that is empty
    | Stored(marked: bool)       // response saved; marked says whether the mark succeeded
    | AlreadyStored(marked: bool) // a response with that id existed; marked as above
    | StoreFailed                // the save failed for another reason

  /** What `process_unprocessed_snapshots` returns. */
  datatype SnapshotStats = SnapshotStats(
    total: nat, successful: nat, failed: nat, skipped: nat, dbErrors: nat, duplicateSnapshots: nat)

  /** The counters after one more job: a stored and marked job is a success,
      a stored job whose mark failed or a failed save is a failure and a
      database error, an existing response is a duplicate. */
  function CountOne(t: SnapshotStats, o: JobOutcome): SnapshotStats
  {
    match o
    case Skipped => t.(total := t.total + 1, skipped := t.skipped + 1)
    case Stored(marked) =>
      if marked then t.(total := t.total + 1, successful := t.successful + 1)
      else t.(total := t.total + 1, failed := t.failed + 1, dbErrors := t.dbErrors + 1)
    case AlreadyStored(_) => t.(total := t.total + 1, duplicateSnapshots := t.duplicateSnapshots + 1)
    case StoreFailed => t.(total := t.total + 1, failed := t.failed + 1, dbErrors := t.dbErrors + 1)
  }

  /** The counters for a list of outcomes. Every job lands in exactly one of
      successful, failed, skipped and duplicate, and the database errors are
      exactly the failures. */
  function Tally(outcomes: seq<JobOutcome>): (t: SnapshotStats)
    ensures t.total == |outcomes|
    ensures t.successful + t.failed + t.skipped + t.duplicateSnapshots == t.total
    ensures t.dbErrors == t.failed
  {
    if outcomes == [] then SnapshotStats(0, 0, 0, 0, 0, 0)
    else CountOne(Tally(outcomes[..|outcomes| - 1]), outcomes[|outcomes| - 1])
  }

  /** Only a run in which every job was stored and marked reports every job successful. */
  lemma {:induction false} TallyAllSuccessful(outcomes: seq<JobOutcome>)
    ensures Tally(outcomes).successful == |outcomes| <==> forall k :: 0 <= k < |outcomes| ==> outcomes[k] == Stored(true)
  {
    if outcomes != [] {
      var init := outcomes[..|outcomes| - 1];
      TallyAllSuccessful(init);
      assert forall k :: 0 <= k < |init| ==> init[k] == outcomes[k];
    }
  }

  /** Whether the job ended marked as processed. */
  predicate Marks(o: JobOutcome)
  {
    o == Stored(true) || o == AlreadyStored(true)
  }

  /** `get_snapshot_data(id)`: the provider's data for the job, None when the
      download or its decoding fails (here: the id has no entry). */
  function Fetch(provider: map<string, Json>, snapshotId: string): Option<Json>
  {
    if snapshotId in provider then Some(provider[snapshotId]) else None
  }

  /** `if data:` */
  predicate HasData(data: Option<Json>)
  {
    data.Some? && Truthy(data.value)
  }

  /** The two tables stage 2 touches and the outcomes so far. */
  datatype RetrievalState = RetrievalState(jobs: seq<JobRow>, responses: seq<ResponseRow>, outcomes: seq<JobOutcome>)

  /** How one job ends: empty data is skipped; otherwise the response is
      saved and, when it was saved or already existed, the job is marked
      processed, the mark succeeding unless markFault. */
  function StepOutcome(responses: seq<ResponseRow>, snapshotId: string, data: Option<Json>,
                       saveFault: Option<string>, markFault: Option<string>): JobOutcome
  {
    if !HasData(data) then Skipped
    else
      match ResponseSaveOutcome(responses, snapshotId, saveFault)
      case Saved => Stored(markFault.None?)
      case Duplicate => AlreadyStored(markFault.None?)
      case Failed => StoreFailed
  }

  /** One job: its outcome, its mark and the response it stores. */
  function RetrieveStep(s: RetrievalState, snapshotId: string, data: Option<Json>,
                        saveFault: Option<string>, markFault: Option<string>): RetrievalState
  {
    var o := StepOutcome(s.responses, snapshotId, data, saveFault, markFault);
    RetrievalState(
      if Marks(o) then MarkJob(s.jobs, snapshotId) else s.jobs,
      if o.Stored? && data.Some? then s.responses + [ResponseRow(snapshotId, data.value, false)] else s.responses,
      s.outcomes + [o])
  }

  /** The state after the first n pending jobs; job k's save faults with
      saveFaults[k] and its mark with markFaults[k]. */
  function RetrieveRun(ids: seq<string>, provider: map<string, Json>, saveFaults: seq<Option<string>>,
                       markFaults: seq<Option<string>>, jobs0: seq<JobRow>, responses0: seq<ResponseRow>,
                       n: nat): RetrievalState
    requires n <= |ids|
  {
    if n == 0 then RetrievalState(jobs0, responses0, [])
    else
      RetrieveStep(RetrieveRun(ids, provider, saveFaults, markFaults, jobs0, responses0, n - 1),
        ids[n - 1], Fetch(provider, ids[n - 1]), FaultAt(saveFaults, n - 1), FaultAt(markFaults, n - 1))
  }

  /** One job changes the job table only by marking that job, and it marks
      it exactly when the outcome says so. */
  lemma RetrieveStepJobs(s: RetrievalState, snapshotId: string, data: Option<Json>,
                         saveFault: Option<string>, markFault: Option<string>)
    ensures var r := RetrieveStep(s, snapshotId, data, saveFault, markFault);
      && r.outcomes == s.outcomes + [r.outcomes[|s.outcomes|]]
      && (r.outcomes[|s.outcomes|] == Skipped <==> !HasData(data))
      && r.jobs == if Marks(r.outcomes[|s.outcomes|]) then MarkJob(s.jobs, snapshotId) else s.jobs
  {
  }

  /** There is one outcome per job, and a job is skipped exactly when it has no data. */
  lemma {:induction false} RetrieveRunOutcomes(ids: seq<string>, provider: map<string, Json>,
      saveFaults: seq<Option<string>>, markFaults: seq<Option<string>>,
      jobs0: seq<JobRow>, responses0: seq<ResponseRow>, n: nat)
    requires n <= |ids|
    ensures var r := RetrieveRun(ids, provider, saveFaults, markFaults, jobs0, responses0, n);
      && |r.outcomes| == n
      && (forall k :: 0 <= k < n ==> (r.outcomes[k] == Skipped <==> !HasData(Fetch(provider, ids[k]))))
  {
    if n > 0 {
      RetrieveRunOutcomes(ids, provider, saveFaults, markFaults, jobs0, responses0, n - 1);
      var s := RetrieveRun(ids, provider, saveFaults, markFaults, jobs0, responses0, n - 1);
      RetrieveStepJobs(s, ids[n - 1], Fetch(provider, ids[n - 1]), FaultAt(saveFaults, n - 1), FaultAt(markFaults, n - 1));
    }
  }

  /** The job table after marking, in order, job ids[k] for every outcome k
      that says so. */
  function MarkAll(jobs: seq<JobRow>, ids: seq<string>, outcomes: seq<JobOutcome>): seq<JobRow>
    requires |outcomes| <= |ids|
  {
    if outcomes == [] then jobs
    else
      var n := |outcomes|;
      var before := MarkAll(jobs, ids, outcomes[..n - 1]);
      if Marks(outcomes[n - 1]) then MarkJob(before, ids[n - 1]) else before
  }

  /** Stage 2 changes the job table only by marking the jobs whose outcome
      says they were marked. */
  lemma {:induction false} RetrieveRunJobs(ids: seq<string>, provider: map<string, Json>,
      saveFaults: seq<Option<string>>, markFaults: seq<Option<string>>,
      jobs0: seq<JobRow>, responses0: seq<ResponseRow>, n: nat)
    requires n <= |ids|
    ensures var r := RetrieveRun(ids, provider, saveFaults, markFaults, jobs0, responses0, n);
      |r.outcomes| == n && r.jobs == MarkAll(jobs0, ids, r.outcomes)
  {
    if n > 0 {
      RetrieveRunJobs(ids, provider, saveFaults, markFaults, jobs0, responses0, n - 1);
      var s := RetrieveRun(ids, provider, saveFaults, markFaults, jobs0, responses0, n - 1);
      RetrieveStepJobs(s, ids[n - 1], Fetch(provider, ids[n - 1]), FaultAt(saveFaults, n - 1), FaultAt(markFaults, n - 1));
      var r := RetrieveRun(ids, provider, saveFaults, markFaults, jobs0, responses0, n);
      MarkAllSnoc(jobs0, ids, s.outcomes, r.outcomes[n - 1]);
    }
  }

  /** One more outcome marks its own job, or leaves the table alone. */
  lemma MarkAllSnoc(jobs: seq<JobRow>, ids: seq<string>, outcomes: seq<JobOutcome>, o: JobOutcome)
    requires |outcomes| < |ids|
    ensures var before := MarkAll(jobs, ids, outcomes);
      MarkAll(jobs, ids, outcomes + [o]) == if Marks(o) then MarkJob(before, ids[|outcomes|]) else before
  {
    assert (outcomes + [o])[..|outcomes|] == outcomes;
  }

  /** Marking (or not) one job leaves every other job's pending status alone. */
  lemma PendingAfterMark(jobs: seq<JobRow>, snapshotId: string, marked: bool)
    ensures var after := if marked then MarkJob(jobs, snapshotId) else jobs;
      && (forall x :: x != snapshotId ==> (x in Pending(after) <==> x in Pending(jobs)))
      && (snapshotId in Pending(after) <==> !marked && snapshotId in Pending(jobs))
  {
    MarkJobShrinksPending(jobs, snapshotId);
  }

  /** One more outcome: its job leaves the pending list exactly when the
      outcome marks it, and every other job keeps its status. */
  lemma MarkAllLast(jobs0: seq<JobRow>, ids: seq<string>, outcomes: seq<JobOutcome>)
    requires 0 < |outcomes| <= |ids|
    ensures var n := |outcomes|;
      var before := MarkAll(jobs0, ids, outcomes[..n - 1]);
      var after := MarkAll(jobs0, ids, outcomes);
      && (forall x :: x != ids[n - 1] ==> (x in Pending(after) <==> x in Pending(before)))
      && (ids[n - 1] in Pending(after) <==> !Marks(outcomes[n - 1]) && ids[n - 1] in Pending(before))
  {
    var n := |outcomes|;
    PendingAfterMark(MarkAll(jobs0, ids, outcomes[..n - 1]), ids[n - 1], Marks(outcomes[n - 1]));
  }

  /** Over distinct pending jobs, a job leaves the pending list exactly when
      its outcome marks it, and the jobs not reached yet stay pending. */
  lemma {:induction false} MarkAllPending(jobs0: seq<JobRow>, ids: seq<string>, outcomes: seq<JobOutcome>)
    requires |outcomes| <= |ids| && Distinct(ids)
    requires forall k :: 0 <= k < |ids| ==> ids[k] in Pending(jobs0)
    ensures forall k :: 0 <= k < |outcomes| ==> (ids[k] in Pending(MarkAll(jobs0, ids, outcomes)) <==> !Marks(outcomes[k]))
    ensures forall k :: |outcomes| <= k < |ids| ==> ids[k] in Pending(MarkAll(jobs0, ids, outcomes))
  {
    if outcomes != [] {
      var n := |outcomes|;
      var init := outcomes[..n - 1];
      MarkAllPending(jobs0, ids, init);
      MarkAllLast(jobs0, ids, outcomes);
      var after := MarkAll(jobs0, ids, outcomes);
      forall k | 0 <= k < |ids|
        ensures k < n ==> (ids[k] in Pending(after) <==> !Marks(outcomes[k]))
        ensures n <= k ==> ids[k] in Pending(after)
      {
        if k != n - 1 {
          assert ids[k] != ids[n - 1];
          if k < n - 1 {
            assert init[k] == outcomes[k];
          }
        }
      }
    }
  }

  /** Over a list of distinct pending jobs, a job leaves the pending list
      exactly when it was marked, so skipped jobs and failed saves stay
      pending, and the jobs not reached yet are still pending. */
  lemma RetrieveRunPending(ids: seq<string>, provider: map<string, Json>,
      saveFaults: seq<Option<string>>, markFaults: seq<Option<string>>,
      jobs0: seq<JobRow>, responses0: seq<ResponseRow>, n: nat)
    requires n <= |ids| && Distinct(ids)
    requires forall k :: 0 <= k < |ids| ==> ids[k] in Pending(jobs0)
    ensures var r := RetrieveRun(ids, provider, saveFaults, markFaults, jobs0, responses0, n);
      && |r.outcomes| == n
      && (forall k :: 0 <= k < n ==> (ids[k] in Pending(r.jobs) <==> !Marks(r.outcomes[k])))
      && (forall k :: n <= k < |ids| ==> ids[k] in Pending(r.jobs))
  {
    RetrieveRunJobs(ids, provider, saveFaults, markFaults, jobs0, responses0, n);
    var r := RetrieveRun(ids, provider, saveFaults, markFaults, jobs0, responses0, n);
    MarkAllPending(jobs0, ids, r.outcomes);
  }
  /** Stage 2 on the pending list the store returns: every job gets one
      outcome, a job is skipped exactly when it has no data, and a job stops
      being pending exactly when it was marked, so skipped jobs and failed
      saves keep `processed = False`. */
  lemma RetrievalMarks(jobs0: seq<JobRow>, responses0: seq<ResponseRow>, provider: map<string, Json>,
                       saveFaults: seq<Option<string>>, markFaults: seq<Option<string>>)
    requires Distinct(JobIds(jobs0))
    ensures var ids := Pending(jobs0);
      var r := RetrieveRun(ids, provider, saveFaults, markFaults, jobs0, responses0, |ids|);
      && |r.outcomes| == |ids|
      && (forall k :: 0 <= k < |ids| ==> (r.outcomes[k] == Skipped <==> !HasData(Fetch(provider, ids[k]))))
      && (forall k :: 0 <= k < |ids| ==> (ids[k] in Pending(r.jobs) <==> !Marks(r.outcomes[k])))
  {
    var ids := Pending(jobs0);
    PendingDistinct(jobs0);
    RetrieveRunOutcomes(ids, provider, saveFaults, markFaults, jobs0, responses0, |ids|);
    RetrieveRunPending(ids, provider, saveFaults, markFaults, jobs0, responses0, |ids|);
  }

  /** The body of the stage-2 loop for one job: with its data, save the
      response; on success mark the job and count a success or (mark failed)
      a database error; on a duplicate mark the job regardless of the mark's
      result; otherwise count a database error. */
  method ProcessSnapshot(store: SupabaseStore, snapshotId: string, data: Option<Json>,
                         saveFault: Option<string>, markFault: Option<string>, ghost outcomes: seq<JobOutcome>)
      returns (outcome: JobOutcome)
    requires store.Valid()
    modifies store
    ensures store.Valid()
    ensures RetrievalState(store.jobs, store.responses, outcomes + [outcome])
      == RetrieveStep(RetrievalState(old(store.jobs), old(store.responses), outcomes), snapshotId, data, saveFault, markFault)
    ensures outcome == StepOutcome(old(store.responses), snapshotId, data, saveFault, markFault)
    ensures store.jobs == if Marks(outcome) then MarkJob(old(store.jobs), snapshotId) else old(store.jobs)
    ensures store.responses ==
      if outcome.Stored? && data.Some? then old(store.responses) + [ResponseRow(snapshotId, data.value, false)]
      else old(store.responses)
    ensures store.emails == old(store.emails)
  {
    if data.Some? && Truthy(data.value) {
      var saved := store.SaveResponse(snapshotId, data.value, saveFault);
      if saved == Saved {
        var marked := store.MarkAsProcessed(snapshotId, markFault);
        outcome := Stored(marked);
      } else if saved == Duplicate {
        var marked := store.MarkAsProcessed(snapshotId, markFault);
        outcome := AlreadyStored(marked);
      } else {
        outcome := StoreFailed;
      }
    } else {
      outcome := Skipped;
    }
  }

  /** The loop of `process_unprocessed_snapshots` over the pending ids: each
      job is fetched from the provider and run through the loop body with its
      own save and mark faults; the six counters, kept together in one
      record, are those of the outcomes. */
  method RetrieveAll(store: SupabaseStore, snapshotIds: seq<string>, provider: map<string, Json>,
                     saveFaults: seq<Option<string>>, markFaults: seq<Option<string>>)
      returns (stats: SnapshotStats)
    requires store.Valid()
    modifies store
    ensures store.Valid()
    ensures store.emails == old(store.emails)
    ensures var r := RetrieveRun(snapshotIds, provider, saveFaults, markFaults, old(store.jobs), old(store.responses), |snapshotIds|);
      stats == Tally(r.outcomes) && store.jobs == r.jobs && store.responses == r.responses
  {
    ghost var jobs0, responses0 := store.jobs, store.responses;
    ghost var outcomes: seq<JobOutcome> := [];
    stats := SnapshotStats(0, 0, 0, 0, 0, 0);
    for idx := 0 to |snapshotIds|
      invariant store.Valid() && store.emails == old(store.emails)
      invariant RetrieveRun(snapshotIds, provider, saveFaults, markFaults, jobs0, responses0, idx)
        == RetrievalState(store.jobs, store.responses, outcomes)
      invariant |outcomes| == idx && stats == Tally(outcomes)
    {
      var snapshotId := snapshotIds[idx];
      var data := Fetch(provider, snapshotId);
      var outcome := ProcessSnapshot(store, snapshotId, data, FaultAt(saveFaults, idx), FaultAt(markFaults, idx), outcomes);
      stats := CountOne(stats, outcome);
      assert (outcomes + [outcome])[..idx] == outcomes;
      outcomes := outcomes + [outcome];
    }
  }

  /** `process_unprocessed_snapshots`: without an API key, or when the store
      lists no pending job (a listing fault reads as none), the counters are
      all zero and nothing changes. Otherwise every pending job, in table
      order, goes through the loop. */
  method ProcessUnprocessedSnapshots(store: SupabaseStore, apiKey: string, listFault: Option<string>,
                                     provider: map<string, Json>,
                                     saveFaults: seq<Option<string>>, markFaults: seq<Option<string>>)
      returns (stats: SnapshotStats)
    requires store.Valid()
    modifies store
    ensures store.Valid()
    ensures store.emails == old(store.emails)
    ensures apiKey == [] || listFault.Some? ==>
      stats == Tally([]) && store.jobs == old(store.jobs) && store.responses == old(store.responses)
    ensures apiKey != [] && listFault.None? ==>
      var ids := Pending(old(store.jobs));
      var r := RetrieveRun(ids, provider, saveFaults, markFaults, old(store.jobs), old(store.responses), |ids|);
      stats == Tally(r.outcomes) && store.jobs == r.jobs && store.responses == r.responses
  {
    if apiKey == [] {
      return SnapshotStats(0, 0, 0, 0, 0, 0);
    }
    var snapshotIds := store.GetUnprocessedSnapshots(listFault);
    if snapshotIds == [] {
      return SnapshotStats(0, 0, 0, 0, 0, 0);
    }
    stats := RetrieveAll(store, snapshotIds, provider, saveFaults, markFaults);
  }

  // ---------------------------------------------------------------- stage 3

  /** Counts of `save_email` results: saved, duplicates, database errors. */
  datatype SaveTally = SaveTally(saved: nat, duplicate: nat, errors: nat)

  function AddOutcome(t: SaveTally, o: SaveOutcome): SaveTally
  {
    match o
    case Saved => t.(saved := t.saved + 1)
    case Duplicate => t.(duplicate := t.duplicate + 1)
    case Failed => t.(errors := t.errors + 1)
  }

  /** The email table and the tally while saving a list of addresses. */
  datatype SavingState = SavingState(emails: seq<EmailRow>, tally: SaveTally)

  /** The state after saving the first n addresses, address k with the fault
      of call c0 + k, every new row stamped now. */
  function SaveAll(emails0: seq<EmailRow>, addrs: seq<string>, faults: seq<Option<string>>,
                   c0: nat, now: Timestamp, n: nat): SavingState
    requires n <= |addrs|
  {
    if n == 0 then SavingState(emails0, SaveTally(0, 0, 0))
    else
      var s := SaveAll(emails0, addrs, faults, c0, now, n - 1);
      var o := EmailSaveOutcome(s.emails, addrs[n - 1], FaultAt(faults, c0 + n - 1));
      SavingState(if o == Saved then s.emails + [EmailRow(addrs[n - 1], now)] else s.emails, AddOutcome(s.tally, o))
  }

  /** Every save is counted once, as saved, duplicate or error. */
  lemma {:induction false} SaveAllCount(emails0: seq<EmailRow>, addrs: seq<string>, faults: seq<Option<string>>,
                                        c0: nat, now: Timestamp, n: nat)
    requires n <= |addrs|
    ensures var t := SaveAll(emails0, addrs, faults, c0, now, n).tally;
      t.saved + t.duplicate + t.errors == n
  {
    if n > 0 {
      SaveAllCount(emails0, addrs, faults, c0, now, n - 1);
    }
  }

  /** The table only grows, and only by rows for addresses from the list,
      stamped now. */
  lemma {:induction false} SaveAllGrows(emails0: seq<EmailRow>, addrs: seq<string>, faults: seq<Option<string>>,
                                        c0: nat, now: Timestamp, n: nat)
    requires n <= |addrs|
    ensures var e := SaveAll(emails0, addrs, faults, c0, now, n).emails;
      && |emails0| <= |e| && e[..|emails0|] == emails0
      && (forall j :: |emails0| <= j < |e| ==> e[j].email in addrs[..n] && e[j].createdAt == now)
  {
    if n > 0 {
      SaveAllGrows(emails0, addrs, faults, c0, now, n - 1);
      assert addrs[..n] == addrs[..n - 1] + [addrs[n - 1]];
      var e := SaveAll(emails0, addrs, faults, c0, now, n - 1).emails;
      assert (e + [EmailRow(addrs[n - 1], now)])[..|emails0|] == e[..|emails0|];
    }
  }

  /** When none of the saves faults, every address of the list ends up in the table. */
  lemma {:induction false} SaveAllComplete(emails0: seq<EmailRow>, addrs: seq<string>, faults: seq<Option<string>>,
                                           c0: nat, now: Timestamp, n: nat)
    requires n <= |addrs|
    requires forall c :: c0 <= c < c0 + n ==> FaultAt(faults, c).None?
    ensures forall k :: 0 <= k < n ==> addrs[k] in Addresses(SaveAll(emails0, addrs, faults, c0, now, n).emails)
  {
    if n > 0 {
      SaveAllComplete(emails0, addrs, faults, c0, now, n - 1);
      var e := SaveAll(emails0, addrs, faults, c0, now, n - 1).emails;
      var a := addrs[n - 1];
      var r := SaveAll(emails0, addrs, faults, c0, now, n).emails;
      assert FaultAt(faults, c0 + (n - 1)).None?;
      UniqueViolationIsDuplicate();
      if a in Addresses(e) {
        assert r == e;
      } else {
        assert r == e + [EmailRow(a, now)];
        assert Addresses(r) == Addresses(e) + [a];
      }
      forall k | 0 <= k < n
        ensures addrs[k] in Addresses(r)
      {
        if k < n - 1 {
          assert addrs[k] in Addresses(e);
        }
      }
    }
  }

  /** The inner loop of `process_responses_for_emails`: saves each address
      of one response, the k-th with the fault of call c0 + k. */
  method SaveExtracted(store: SupabaseStore, emails: seq<string>, emailFaults: seq<Option<string>>,
                       c0: nat, now: Timestamp)
      returns (tally: SaveTally)
    requires store.Valid() && ValidTimestamp(now)
    modifies store
    ensures store.Valid()
    ensures var s := SaveAll(old(store.emails), emails, emailFaults, c0, now, |emails|);
      tally == s.tally && store.emails == s.emails
    ensures store.jobs == old(store.jobs) && store.responses == old(store.responses)
  {
    ghost var emails0 := store.emails;
    tally := SaveTally(0, 0, 0);
    for k := 0 to |emails|
      invariant store.Valid()
      invariant SaveAll(emails0, emails, emailFaults, c0, now, k) == SavingState(store.emails, tally)
      invariant store.jobs == old(store.jobs) && store.responses == old(store.responses)
    {
      var outcome := store.SaveEmail(emails[k], now, FaultAt(emailFaults, c0 + k));
      tally := AddOutcome(tally, outcome);
    }
  }

  /** What `process_responses_for_emails` returns. */
  datatype ExtractionStats = ExtractionStats(
    total: nat, successful: nat, failed: nat, totalEmails: nat, dbErrors: nat, duplicateEmails: nat)

  /** The two tables stage 3 touches, the number of `save_email` calls so far,
      the mark results and the save tally. */
  datatype ExtractionState = ExtractionState(
    emails: seq<EmailRow>, responses: seq<ResponseRow>, calls: nat,
    successful: nat, failed: nat, tally: SaveTally)

  function Plus(a: SaveTally, b: SaveTally): SaveTally
  {
    SaveTally(a.saved + b.saved, a.duplicate + b.duplicate, a.errors + b.errors)
  }

  /** One row: save every address extracted from its response, then mark the
      row extracted, whatever the saves did. */
  function ExtractStep(s: ExtractionState, id: string, addrs: seq<string>, emailFaults: seq<Option<string>>,
                       markFault: Option<string>, now: Timestamp): ExtractionState
  {
    var saved := SaveAll(s.emails, addrs, emailFaults, s.calls, now, |addrs|);
    var ok := markFault.None?;
    ExtractionState(
      saved.emails,
      if ok then MarkResponse(s.responses, id) else s.responses,
      s.calls + |addrs|,
      if ok then s.successful + 1 else s.successful,
      if ok then s.failed else s.failed + 1,
      Plus(s.tally, saved.tally))
  }

  /** The addresses `extract` finds in each row's response, row by row. */
  function Extracted(rows: seq<ResponseRow>, extract: Json -> seq<string>): (found: seq<seq<string>>)
    ensures |found| == |rows|
    ensures forall k :: 0 <= k < |rows| ==> found[k] == extract(rows[k].response)
  {
    seq(|rows|, k requires 0 <= k < |rows| => extract(rows[k].response))
  }

  /** The state after the first n rows, row k with the addresses found[k];
      row k's mark faults with markFaults[k]. */
  function ExtractRun(rows: seq<ResponseRow>, found: seq<seq<string>>, emailFaults: seq<Option<string>>,
                      markFaults: seq<Option<string>>, now: Timestamp,
                      emails0: seq<EmailRow>, responses0: seq<ResponseRow>, n: nat): ExtractionState
    requires n <= |rows| == |found|
  {
    if n == 0 then ExtractionState(emails0, responses0, 0, 0, 0, SaveTally(0, 0, 0))
    else ExtractStep(ExtractRun(rows, found, emailFaults, markFaults, now, emails0, responses0, n - 1),
                     rows[n - 1].snapshotId, found[n - 1], emailFaults, FaultAt(markFaults, n - 1), now)
  }

  /** The counters reported for a run. */
  function ExtractionStatsOf(total: nat, s: ExtractionState): ExtractionStats
  {
    ExtractionStats(total, s.successful, s.failed, s.tally.saved, s.tally.errors + s.failed, s.tally.duplicate)
  }

  /** The number of addresses in the first n lists. */
  function TotalLength(found: seq<seq<string>>, n: nat): nat
    requires n <= |found|
  {
    if n == 0 then 0 else TotalLength(found, n - 1) + |found[n - 1]|
  }

  /** Each row is marked once, as a success or a failure, and each extracted
      address is saved once, as saved, duplicate or error. */
  lemma {:induction false} ExtractRunCounts(rows: seq<ResponseRow>, found: seq<seq<string>>,
      emailFaults: seq<Option<string>>, markFaults: seq<Option<string>>, now: Timestamp,
      emails0: seq<EmailRow>, responses0: seq<ResponseRow>, n: nat)
    requires n <= |rows| == |found|
    ensures var s := ExtractRun(rows, found, emailFaults, markFaults, now, emails0, responses0, n);
      && s.successful + s.failed == n
      && s.tally.saved + s.tally.duplicate + s.tally.errors == s.calls == TotalLength(found, n)
  {
    if n > 0 {
      ExtractRunCounts(rows, found, emailFaults, markFaults, now, emails0, responses0, n - 1);
      var s := ExtractRun(rows, found, emailFaults, markFaults, now, emails0, responses0, n - 1);
      SaveAllCount(s.emails, found[n - 1], emailFaults, s.calls, now, |found[n - 1]|);
    }
  }

  /** The body of the loop of `process_responses_for_emails` for one row:
      extract the addresses from its response, save them (call calls + k
      faulting with emailFaults[calls + k]), then mark the row extracted
      whatever the saves did. The store and the counters move from state s to
      ExtractStep of s; `count` is the number of addresses found. */
  method ExtractRow(store: SupabaseStore, row: ResponseRow, extract: Json -> seq<string>,
                    emailFaults: seq<Option<string>>, calls: nat, markFault: Option<string>, now: Timestamp,
                    ghost s: ExtractionState)
      returns (tally: SaveTally, marked: bool, count: nat)
    requires store.Valid() && ValidTimestamp(now)
    requires store.emails == s.emails && store.responses == s.responses && calls == s.calls
    modifies store
    ensures store.Valid()
    ensures store.jobs == old(store.jobs)
    ensures marked <==> markFault.None?
    ensures ExtractStep(s, row.snapshotId, extract(row.response), emailFaults, markFault, now)
      == ExtractionState(store.emails, store.responses, s.calls + count,
                         if marked then s.successful + 1 else s.successful,
                         if marked then s.failed else s.failed + 1,
                         Plus(s.tally, tally))
  {
    var emails := extract(row.response);
    tally := SaveExtracted(store, emails, emailFaults, calls, now);
    marked := store.MarkEmailExtracted(row.snapshotId, markFault);
    count := |emails|;
  }

  /** The loop of `process_responses_for_emails` over `rows`, with the
      address extractor `extract`; row k's mark faults with markFaults[k]. */
  method ExtractAll(store: SupabaseStore, rows: seq<ResponseRow>, extract: Json -> seq<string>,
                    emailFaults: seq<Option<string>>, markFaults: seq<Option<string>>, now: Timestamp)
      returns (stats: ExtractionStats)
    requires store.Valid() && ValidTimestamp(now)
    modifies store
    ensures store.Valid()
    ensures store.jobs == old(store.jobs)
    ensures var r := ExtractRun(rows, Extracted(rows, extract), emailFaults, markFaults, now,
                                old(store.emails), old(store.responses), |rows|);
      stats == ExtractionStatsOf(|rows|, r) && store.emails == r.emails && store.responses == r.responses
  {
    ghost var found := Extracted(rows, extract);
    ghost var emails0, responses0 := store.emails, store.responses;
    var total := |rows|;
    var successful: nat, failed: nat, totalEmailsExtracted: nat, dbErrors: nat, duplicateEmails: nat := 0, 0, 0, 0, 0;
    var calls: nat := 0;
    ghost var saveErrors: nat := 0;
    for idx := 0 to total
      invariant store.Valid() && store.jobs == old(store.jobs)
      invariant ExtractRun(rows, found, emailFaults, markFaults, now, emails0, responses0, idx)
        == ExtractionState(store.emails, store.responses, calls, successful, failed,
                           SaveTally(totalEmailsExtracted, duplicateEmails, saveErrors))
      invariant dbErrors == saveErrors + failed
    {
      ghost var s := ExtractRun(rows, found, emailFaults, markFaults, now, emails0, responses0, idx);
      var tally, marked, count := ExtractRow(store, rows[idx], extract, emailFaults, calls, FaultAt(markFaults, idx), now, s);
      totalEmailsExtracted := totalEmailsExtracted + tally.saved;
      duplicateEmails := duplicateEmails + tally.duplicate;
      dbErrors := dbErrors + tally.errors;
      saveErrors := saveErrors + tally.errors;
      calls := calls + count;
      if marked {
        successful := successful + 1;
      } else {
        failed := failed + 1;
        dbErrors := dbErrors + 1;
      }
    }
    stats := ExtractionStats(total, successful, failed, totalEmailsExtracted, dbErrors, duplicateEmails);
  }

  /** `process_responses_for_emails`: every unextracted row (none when the
      listing faults) goes through the loop; with no rows the counters are all
      zero and nothing changes. */
  method ProcessResponsesForEmails(store: SupabaseStore, listFault: Option<string>,
                                   emailFaults: seq<Option<string>>, markFaults: seq<Option<string>>, now: Timestamp)
      returns (stats: ExtractionStats)
    requires store.Valid() && ValidTimestamp(now)
    modifies store
    ensures store.Valid()
    ensures store.jobs == old(store.jobs)
    ensures var rows := if listFault.Some? then [] else Unextracted(old(store.responses));
      var r := ExtractRun(rows, Extracted(rows, ExtractFromJson), emailFaults, markFaults, now,
                          old(store.emails), old(store.responses), |rows|);
      stats == ExtractionStatsOf(|rows|, r) && store.emails == r.emails && store.responses == r.responses
  {
    var rows := store.GetUnextractedResponses(listFault);
    if rows == [] {
      return ExtractionStats(0, 0, 0, 0, 0, 0);
    }
    stats := ExtractAll(store, rows, ExtractFromJson, emailFaults, markFaults, now);
  }

  /** The counters of a run over all of `rows`: every row is marked once, and
      saved, duplicate and failed saves add up to the addresses extracted. */
  lemma ExtractionStatsCounts(rows: seq<ResponseRow>, emailFaults: seq<Option<string>>,
      markFaults: seq<Option<string>>, now: Timestamp, emails0: seq<EmailRow>, responses0: seq<ResponseRow>)
    ensures var found := Extracted(rows, ExtractFromJson);
      var st := ExtractionStatsOf(|rows|, ExtractRun(rows, found, emailFaults, markFaults, now, emails0, responses0, |rows|));
      && st.total == |rows| == st.successful + st.failed
      && st.totalEmails + st.duplicateEmails + st.dbErrors == TotalLength(found, |rows|) + st.failed
  {
    ExtractRunCounts(rows, Extracted(rows, ExtractFromJson), emailFaults, markFaults, now, emails0, responses0, |rows|);
  }

  /** Some of the first n rows has this id and its mark did not fault. */
  predicate MarkedBy(rows: seq<ResponseRow>, markFaults: seq<Option<string>>, n: nat, id: string)
    requires n <= |rows|
  {
    exists k :: 0 <= k < n && FaultAt(markFaults, k).None? && rows[k].snapshotId == id
  }

  /** Stage 3 keeps every response row in place and only sets flags: a row is
      extracted afterwards exactly when it was before or some row with its id
      was marked without a fault. */
  lemma {:induction false} ExtractRunResponses(rows: seq<ResponseRow>, found: seq<seq<string>>,
      emailFaults: seq<Option<string>>, markFaults: seq<Option<string>>, now: Timestamp,
      emails0: seq<EmailRow>, responses0: seq<ResponseRow>, n: nat)
    requires n <= |rows| == |found|
    ensures var r := ExtractRun(rows, found, emailFaults, markFaults, now, emails0, responses0, n).responses;
      && |r| == |responses0|
      && forall i :: 0 <= i < |r| ==>
           r[i] == responses0[i].(extracted := responses0[i].extracted
                                               || MarkedBy(rows, markFaults, n, responses0[i].snapshotId))
  {
    if n > 0 {
      ExtractRunResponses(rows, found, emailFaults, markFaults, now, emails0, responses0, n - 1);
      var p := ExtractRun(rows, found, emailFaults, markFaults, now, emails0, responses0, n - 1).responses;
      var r := ExtractRun(rows, found, emailFaults, markFaults, now, emails0, responses0, n).responses;
      var ok := FaultAt(markFaults, n - 1).None?;
      assert r == if ok then MarkResponse(p, rows[n - 1].snapshotId) else p;
      forall i | 0 <= i < |r|
        ensures r[i] == responses0[i].(extracted := responses0[i].extracted
                                                    || MarkedBy(rows, markFaults, n, responses0[i].snapshotId))
      {
        var id := responses0[i].snapshotId;
        if MarkedBy(rows, markFaults, n - 1, id) {
          var k :| 0 <= k < n - 1 && FaultAt(markFaults, k).None? && rows[k].snapshotId == id;
          assert MarkedBy(rows, markFaults, n, id);
        }
        if ok && rows[n - 1].snapshotId == id {
          assert MarkedBy(rows, markFaults, n, id);
        }
        if MarkedBy(rows, markFaults, n, id) {
          var k :| 0 <= k < n && FaultAt(markFaults, k).None? && rows[k].snapshotId == id;
          if k < n - 1 {
            assert MarkedBy(rows, markFaults, n - 1, id);
          }
        }
      }
    }
  }

  /** A stage 3 run over rows that include every unextracted row (as
      `get_unextracted_responses` returns them), in which no mark faults,
      leaves no row unextracted. */
  lemma BacklogCleared(rows: seq<ResponseRow>, found: seq<seq<string>>, emailFaults: seq<Option<string>>,
      markFaults: seq<Option<string>>, now: Timestamp, emails0: seq<EmailRow>, responses0: seq<ResponseRow>)
    requires |rows| == |found|
    requires forall x :: x in responses0 && !x.extracted ==> x in rows
    requires forall k :: 0 <= k < |rows| ==> FaultAt(markFaults, k).None?
    ensures Unextracted(ExtractRun(rows, found, emailFaults, markFaults, now, emails0, responses0, |rows|).responses) == []
  {
    ExtractRunResponses(rows, found, emailFaults, markFaults, now, emails0, responses0, |rows|);
    var r := ExtractRun(rows, found, emailFaults, markFaults, now, emails0, responses0, |rows|).responses;
    forall i | 0 <= i < |r|
      ensures r[i].extracted
    {
      if !responses0[i].extracted {
        assert responses0[i] in responses0;
        var k :| 0 <= k < |rows| && rows[k] == responses0[i];
        assert MarkedBy(rows, markFaults, |rows|, responses0[i].snapshotId);
      }
    }
    AllExtracted(r);
  }

  /** A table that keeps its old rows as a prefix keeps their addresses. */
  lemma AddressesGrow(e: seq<EmailRow>, f: seq<EmailRow>)
    requires |e| <= |f| && f[..|e|] == e
    ensures forall x :: x in Addresses(e) ==> x in Addresses(f)
  {
    forall x | x in Addresses(e)
      ensures x in Addresses(f)
    {
      var j :| 0 <= j < |e| && Addresses(e)[j] == x;
      assert f[j] == e[j];
      assert Addresses(f)[j] == x;
    }
  }

  /** Stage 3 only adds email rows, each stamped now and holding an address
      extracted from one of the rows processed. */
  lemma {:induction false} ExtractRunEmails(rows: seq<ResponseRow>, found: seq<seq<string>>,
      emailFaults: seq<Option<string>>, markFaults: seq<Option<string>>, now: Timestamp,
      emails0: seq<EmailRow>, responses0: seq<ResponseRow>, n: nat)
    requires n <= |rows| == |found|
    ensures var e := ExtractRun(rows, found, emailFaults, markFaults, now, emails0, responses0, n).emails;
      && |emails0| <= |e| && e[..|emails0|] == emails0
      && forall j :: |emails0| <= j < |e| ==>
           e[j].createdAt == now && exists k :: 0 <= k < n && e[j].email in found[k]
  {
    if n > 0 {
      ExtractRunEmails(rows, found, emailFaults, markFaults, now, emails0, responses0, n - 1);
      var s := ExtractRun(rows, found, emailFaults, markFaults, now, emails0, responses0, n - 1);
      var e := ExtractRun(rows, found, emailFaults, markFaults, now, emails0, responses0, n).emails;
      SaveAllGrows(s.emails, found[n - 1], emailFaults, s.calls, now, |found[n - 1]|);
      assert e[..|emails0|] == e[..|s.emails|][..|emails0|];
      forall j | |emails0| <= j < |e|
        ensures e[j].createdAt == now && exists k :: 0 <= k < n && e[j].email in found[k]
      {
        if j < |s.emails| {
          assert e[j] == s.emails[j];
          var k :| 0 <= k < n - 1 && s.emails[j].email in found[k];
        } else {
          assert e[j].email in found[n - 1][..|found[n - 1]|];
          assert found[n - 1][..|found[n - 1]|] == found[n - 1];
        }
      }
    }
  }

  /** When none of one row's saves faults, each of its addresses is in the
      table afterwards, and so is every address that was there before. */
  lemma ExtractStepComplete(s: ExtractionState, id: string, addrs: seq<string>,
      emailFaults: seq<Option<string>>, markFault: Option<string>, now: Timestamp)
    requires forall c :: s.calls <= c < s.calls + |addrs| ==> FaultAt(emailFaults, c).None?
    ensures var e := ExtractStep(s, id, addrs, emailFaults, markFault, now).emails;
      && (forall a :: a in addrs ==> a in Addresses(e))
      && (forall x :: x in Addresses(s.emails) ==> x in Addresses(e))
  {
    var e := SaveAll(s.emails, addrs, emailFaults, s.calls, now, |addrs|).emails;
    assert ExtractStep(s, id, addrs, emailFaults, markFault, now).emails == e;
    SaveAllComplete(s.emails, addrs, emailFaults, s.calls, now, |addrs|);
    SaveAllGrows(s.emails, addrs, emailFaults, s.calls, now, |addrs|);
    AddressesGrow(s.emails, e);
  }

  /** When no email save faults, every address extracted from the rows
      processed is in the email table afterwards. */
  lemma {:induction false} ExtractRunComplete(rows: seq<ResponseRow>, found: seq<seq<string>>,
      emailFaults: seq<Option<string>>, markFaults: seq<Option<string>>, now: Timestamp,
      emails0: seq<EmailRow>, responses0: seq<ResponseRow>, n: nat)
    requires n <= |rows| == |found|
    requires forall c :: 0 <= c < TotalLength(found, n) ==> FaultAt(emailFaults, c).None?
    ensures var e := ExtractRun(rows, found, emailFaults, markFaults, now, emails0, responses0, n).emails;
      forall k, a :: 0 <= k < n && a in found[k] ==> a in Addresses(e)
  {
    if n > 0 {
      ExtractRunComplete(rows, found, emailFaults, markFaults, now, emails0, responses0, n - 1);
      ExtractRunCounts(rows, found, emailFaults, markFaults, now, emails0, responses0, n - 1);
      var s := ExtractRun(rows, found, emailFaults, markFaults, now, emails0, responses0, n - 1);
      ExtractStepComplete(s, rows[n - 1].snapshotId, found[n - 1], emailFaults, FaultAt(markFaults, n - 1), now);
    }
  }
}
