/** The persistence store: the three tables the pipeline keeps
    (`snapshot_table`, `response_table`, `email_table`), each a sequence of rows
    in table order with a unique key, and the operations the pipeline calls on
    them. A call's transport or database fault is an input (`fault`): the
    message of the exception it raises, or None when the call goes through. */
module Store {
  import opened Common
  import opened Json
  import opened Calendar

  /** A row of `snapshot_table`. */
  datatype JobRow = JobRow(snapshotId: string, processed: bool)

  /** A row of `response_table`. */
  datatype ResponseRow = ResponseRow(snapshotId: string, response: Json, extracted: bool)

  /** A row of `email_table`; `createdAt` is assigned by the database. */
  datatype EmailRow = EmailRow(email: string, createdAt: Timestamp)

  /** What an insert reports: `(True, '')`, `(False, 'duplicate')` or `(False, 'error')`. */
  datatype SaveOutcome = Saved | Duplicate | Failed

  /** The message the database raises when an insert repeats a unique key. */
  const UniqueViolation: string := "duplicate key value violates unique constraint"

  function JobIds(jobs: seq<JobRow>): seq<string>
  {
    seq(|jobs|, i requires 0 <= i < |jobs| => jobs[i].snapshotId)
  }

  function ResponseIds(responses: seq<ResponseRow>): seq<string>
  {
    seq(|responses|, i requires 0 <= i < |responses| => responses[i].snapshotId)
  }

  function Addresses(emails: seq<EmailRow>): seq<string>
  {
    seq(|emails|, i requires 0 <= i < |emails| => emails[i].email)
  }

  function LowerChar(c: char): char
  {
    if 'A' <= c <= 'Z' then (c as int + 32) as char else c
  }

  /** `str.lower()` on the letters that matter for the classification. */
  function Lower(s: string): string
  {
    seq(|s|, i requires 0 <= i < |s| => LowerChar(s[i]))
  }

  /** `w in s` for strings. */
  predicate Contains(s: string, w: string)
  {
    exists i | 0 <= i <= |s| :: w <= s[i..]
  }

  /** How `save_email` and `save_response` read a caught exception. */
  function Classify(message: string): SaveOutcome
  {
    var m := Lower(message);
    if Contains(m, "duplicate") || Contains(m, "unique") then Duplicate else Failed
  }

  /** The database's own uniqueness violation is read as a duplicate. */
  lemma UniqueViolationIsDuplicate()
    ensures Classify(UniqueViolation) == Duplicate
  {
    assert "duplicate" <= Lower(UniqueViolation)[0..];
  }

  /** The classification ignores letter case: a message and its lower-cased
      form are read alike, and upper-case mentions count. */
  lemma {:induction false} ClassifyIgnoresCase(message: string)
    ensures Classify(Lower(message)) == Classify(message)
  {
    assert Lower(Lower(message)) == Lower(message);
  }

  /** What `save_email(email)` reports against the table `emails`. */
  function EmailSaveOutcome(emails: seq<EmailRow>, email: string, fault: Option<string>): SaveOutcome
  {
    match fault
    case Some(message) => Classify(message)
    case None => if email in Addresses(emails) then Classify(UniqueViolation) else Saved
  }

  /** What `save_response(id, data)` reports against the table `responses`. */
  function ResponseSaveOutcome(responses: seq<ResponseRow>, snapshotId: string, fault: Option<string>): SaveOutcome
  {
    match fault
    case Some(message) => Classify(message)
    case None => if snapshotId in ResponseIds(responses) then Classify(UniqueViolation) else Saved
  }

  /** The ids of the jobs whose `processed` flag is false, in table order. */
  function Pending(jobs: seq<JobRow>): (ids: seq<string>)
    ensures |ids| <= |jobs|
    ensures forall x :: x in ids <==> exists i :: 0 <= i < |jobs| && jobs[i].snapshotId == x && !jobs[i].processed
  {
    if jobs == [] then []
    else
      var rest := Pending(jobs[..|jobs| - 1]);
      var last := jobs[|jobs| - 1];
      assert forall i :: 0 <= i < |jobs| - 1 ==> jobs[..|jobs| - 1][i] == jobs[i];
      if last.processed then rest else rest + [last.snapshotId]
  }

  /** Pending ids of a table with unique ids are themselves distinct. */
  lemma {:induction false} PendingDistinct(jobs: seq<JobRow>)
    requires Distinct(JobIds(jobs))
    ensures Distinct(Pending(jobs))
  {
    if jobs != [] {
      var init := jobs[..|jobs| - 1];
      assert JobIds(init) == JobIds(jobs)[..|jobs| - 1];
      PendingDistinct(init);
      var last := jobs[|jobs| - 1];
      if !last.processed {
        forall x | x in Pending(init) ensures x != last.snapshotId {
          var i :| 0 <= i < |init| && init[i].snapshotId == x && !init[i].processed;
          assert JobIds(jobs)[i] == x && JobIds(jobs)[|jobs| - 1] == last.snapshotId;
        }
        DistinctAppend(Pending(init), last.snapshotId);
      }
    }
  }

  /** `update({'processed': True}).eq('snapshot_id', id)`. */
  function MarkJob(jobs: seq<JobRow>, snapshotId: string): (r: seq<JobRow>)
    ensures |r| == |jobs| && JobIds(r) == JobIds(jobs)
    ensures forall i :: 0 <= i < |r| ==> r[i].processed == (jobs[i].processed || jobs[i].snapshotId == snapshotId)
  {
    seq(|jobs|, i requires 0 <= i < |jobs| =>
      if jobs[i].snapshotId == snapshotId then jobs[i].(processed := true) else jobs[i])
  }

  /** Marking a job removes exactly its id from the pending list and leaves
      the others in order: the pending set only shrinks. */
  lemma {:induction false} MarkJobShrinksPending(jobs: seq<JobRow>, snapshotId: string)
    ensures Pending(MarkJob(jobs, snapshotId)) == Without(Pending(jobs), snapshotId)
  {
    if jobs != [] {
      var init := jobs[..|jobs| - 1];
      var marked := MarkJob(jobs, snapshotId);
      assert marked[..|jobs| - 1] == MarkJob(init, snapshotId);
      MarkJobShrinksPending(init, snapshotId);
      WithoutAppend(Pending(init), [jobs[|jobs| - 1].snapshotId], snapshotId);
    }
  }

  /** s with every occurrence of x removed. */
  function Without(s: seq<string>, x: string): (r: seq<string>)
    ensures x !in r
    ensures forall y :: y in r <==> y in s && y != x
  {
    if s == [] then []
    else if s[0] == x then Without(s[1..], x)
    else [s[0]] + Without(s[1..], x)
  }

  lemma {:induction false} WithoutAppend(s: seq<string>, t: seq<string>, x: string)
    ensures Without(s + t, x) == Without(s, x) + Without(t, x)
  {
    if s == [] {
      assert s + t == t;
    } else {
      assert (s + t)[0] == s[0];
      assert (s + t)[1..] == s[1..] + t;
      WithoutAppend(s[1..], t, x);
    }
  }

  /** The rows whose `is_email_extracted` flag is false, in table order. */
  function Unextracted(responses: seq<ResponseRow>): (rows: seq<ResponseRow>)
    ensures |rows| <= |responses|
    ensures forall r :: r in rows <==> r in responses && !r.extracted
  {
    if responses == [] then []
    else
      var rest := Unextracted(responses[..|responses| - 1]);
      var last := responses[|responses| - 1];
      assert responses == responses[..|responses| - 1] + [last];
      if last.extracted then rest else rest + [last]
  }

  /** A table whose every row is extracted has nothing left to extract. */
  lemma {:induction false} AllExtracted(responses: seq<ResponseRow>)
    requires forall i :: 0 <= i < |responses| ==> responses[i].extracted
    ensures Unextracted(responses) == []
  {
    if responses != [] {
      AllExtracted(responses[..|responses| - 1]);
    }
  }

  /** `update({'is_email_extracted': True}).eq('snapshot_id', id)`. */
  function MarkResponse(responses: seq<ResponseRow>, snapshotId: string): (r: seq<ResponseRow>)
    ensures |r| == |responses| && ResponseIds(r) == ResponseIds(responses)
    ensures forall i :: 0 <= i < |r| ==>
      r[i] == responses[i].(extracted := responses[i].extracted || responses[i].snapshotId == snapshotId)
  {
    seq(|responses|, i requires 0 <= i < |responses| =>
      if responses[i].snapshotId == snapshotId then responses[i].(extracted := true) else responses[i])
  }

  /** The rows of `emails` inside the optional bounds [lo, hi). */
  function InWindow(emails: seq<EmailRow>, lo: Option<Timestamp>, hi: Option<Timestamp>): (r: seq<EmailRow>)
    ensures forall x :: x in r <==>
      && x in emails
      && (lo.None? || InstantKey(lo.value) <= InstantKey(x.createdAt))
      && (hi.None? || InstantKey(x.createdAt) < InstantKey(hi.value))
    ensures multiset(r) <= multiset(emails)
  {
    if emails == [] then []
    else
      var rest := InWindow(emails[..|emails| - 1], lo, hi);
      var last := emails[|emails| - 1];
      assert emails == emails[..|emails| - 1] + [last];
      var t := last.createdAt;
      if (lo.None? || InstantKey(lo.value) <= InstantKey(t)) && (hi.None? || InstantKey(t) < InstantKey(hi.value))
      then rest + [last] else rest
  }

  /** Ordered by `created_at`, newest first. */
  predicate NewestFirst(rows: seq<EmailRow>)
  {
    forall i, j :: 0 <= i < j < |rows| ==> InstantKey(rows[j].createdAt) <= InstantKey(rows[i].createdAt)
  }

  /** Places `row` before the first row that is not newer than it. */
  function InsertNewest(row: EmailRow, rows: seq<EmailRow>): seq<EmailRow>
  {
    if rows == [] || InstantKey(rows[0].createdAt) <= InstantKey(row.createdAt) then [row] + rows
    else [rows[0]] + InsertNewest(row, rows[1..])
  }

  /** A row no older than every row of a sorted list can go in front. */
  lemma ConsNewest(head: EmailRow, rows: seq<EmailRow>)
    requires NewestFirst(rows)
    requires forall x :: x in rows ==> InstantKey(x.createdAt) <= InstantKey(head.createdAt)
    ensures NewestFirst([head] + rows)
  {
    var r := [head] + rows;
    forall i, j | 0 <= i < j < |r|
      ensures InstantKey(r[j].createdAt) <= InstantKey(r[i].createdAt)
    {
      assert r[j] == rows[j - 1];
      if i > 0 {
        assert r[i] == rows[i - 1];
      } else {
        assert rows[j - 1] in rows;
      }
    }
  }

  /** Insertion adds exactly the one row. */
  lemma {:induction false} InsertNewestPerm(row: EmailRow, rows: seq<EmailRow>)
    ensures multiset(InsertNewest(row, rows)) == multiset(rows) + multiset{row}
  {
    if rows != [] && InstantKey(row.createdAt) < InstantKey(rows[0].createdAt) {
      InsertNewestPerm(row, rows[1..]);
      assert rows == [rows[0]] + rows[1..];
    }
  }

  /** Insertion into a list sorted newest first keeps it sorted. */
  lemma {:induction false} InsertNewestSorted(row: EmailRow, rows: seq<EmailRow>)
    requires NewestFirst(rows)
    ensures NewestFirst(InsertNewest(row, rows))
  {
    if rows == [] || InstantKey(rows[0].createdAt) <= InstantKey(row.createdAt) {
      forall x | x in rows
        ensures InstantKey(x.createdAt) <= InstantKey(row.createdAt)
      {
        var k :| 0 <= k < |rows| && rows[k] == x;
      }
      ConsNewest(row, rows);
    } else {
      var tail := rows[1..];
      var rest := InsertNewest(row, tail);
      InsertNewestSorted(row, tail);
      InsertNewestPerm(row, tail);
      forall x | x in rest
        ensures InstantKey(x.createdAt) <= InstantKey(rows[0].createdAt)
      {
        assert x in multiset(rest);
        if x != row {
          var k :| 0 <= k < |tail| && tail[k] == x;
          assert rows[k + 1] == x;
        }
      }
      ConsNewest(rows[0], rest);
    }
  }

  /** `order('created_at', desc=True)`: insertion sort, newest first. */
  function SortNewestFirst(rows: seq<EmailRow>): seq<EmailRow>
  {
    if rows == [] then [] else InsertNewest(rows[0], SortNewestFirst(rows[1..]))
  }

  /** The sort yields the same rows, newest first. */
  lemma {:induction false} SortNewestFirstSorted(rows: seq<EmailRow>)
    ensures NewestFirst(SortNewestFirst(rows))
    ensures multiset(SortNewestFirst(rows)) == multiset(rows)
  {
    if rows != [] {
      SortNewestFirstSorted(rows[1..]);
      InsertNewestSorted(rows[0], SortNewestFirst(rows[1..]));
      InsertNewestPerm(rows[0], SortNewestFirst(rows[1..]));
      assert rows == [rows[0]] + rows[1..];
    }
  }

  /** A date of the optional window [start, end], both ends inclusive. */
  predicate InDateRange(d: Date, start: Option<Date>, end: Option<Date>)
  {
    (start.None? || DayKey(start.value) <= DayKey(d)) && (end.None? || DayKey(d) <= DayKey(end.value))
  }

  lemma DistinctAppend<T>(s: seq<T>, x: T)
    requires Distinct(s) && x !in s
    ensures Distinct(s + [x])
  {
  }

  /** In a sequence without repetitions every element occurs once. */
  lemma {:induction false} DistinctCounts<T>(s: seq<T>)
    requires Distinct(s)
    ensures forall x :: multiset(s)[x] <= 1
  {
    if s != [] {
      var init := s[..|s| - 1];
      assert s == init + [s[|s| - 1]];
      DistinctCounts(init);
      assert s[|s| - 1] !in init;
    }
  }

  /** A sequence in which every element occurs at most once has no repetitions. */
  lemma CountsDistinct<T>(s: seq<T>)
    requires forall x :: multiset(s)[x] <= 1
    ensures Distinct(s)
  {
    forall i, j | 0 <= i < j < |s| ensures s[i] != s[j] {
      RepeatCounts(s, i, j);
    }
  }

  lemma RepeatCounts<T>(s: seq<T>, i: nat, j: nat)
    requires i < j < |s|
    ensures s[i] == s[j] ==> multiset(s)[s[i]] >= 2
  {
    assert s == s[..i] + [s[i]] + s[i + 1..j] + [s[j]] + s[j + 1..];
  }

  /** The Supabase tables. */
  class SupabaseStore {
    var jobs: seq<JobRow>
    var responses: seq<ResponseRow>
    var emails: seq<EmailRow>

    /** Unique keys in every table, and well-formed creation times. */
    ghost predicate Valid()
      reads this
    {
      && Distinct(JobIds(jobs))
      && Distinct(ResponseIds(responses))
      && Distinct(Addresses(emails))
      && forall i :: 0 <= i < |emails| ==> ValidTimestamp(emails[i].createdAt)
    }

    constructor ()
      ensures Valid() && jobs == [] && responses == [] && emails == []
    {
      jobs, responses, emails := [], [], [];
    }

    /** `save_snapshot`: inserts the id as not processed; any fault, a repeated
        id included, yields False and changes nothing. */
    method SaveSnapshot(snapshotId: string, fault: Option<string>) returns (ok: bool)
      requires Valid()
      modifies this
      ensures Valid()
      ensures ok <==> fault.None? && snapshotId !in JobIds(old(jobs))
      ensures jobs == if ok then old(jobs) + [JobRow(snapshotId, false)] else old(jobs)
      ensures responses == old(responses) && emails == old(emails)
    {
      ok := fault.None? && snapshotId !in JobIds(jobs);
      if ok {
        assert JobIds(jobs + [JobRow(snapshotId, false)]) == JobIds(jobs) + [snapshotId];
        jobs := jobs + [JobRow(snapshotId, false)];
      }
    }

    /** `get_unprocessed_snapshots`: the ids whose flag is false; a fault yields []. */
    method GetUnprocessedSnapshots(fault: Option<string>) returns (ids: seq<string>)
      requires Valid()
      ensures Distinct(ids)
      ensures fault.Some? ==> ids == []
      ensures fault.None? ==> ids == Pending(jobs)
      ensures forall x :: x in ids <==>
        fault.None? && exists i :: 0 <= i < |jobs| && jobs[i].snapshotId == x && !jobs[i].processed
    {
      PendingDistinct(jobs);
      ids := if fault.Some? then [] else Pending(jobs);
    }

    /** `mark_as_processed`: sets the flag of the rows with that id; True unless
        the call faults (an id with no row is not an error). */
    method MarkAsProcessed(snapshotId: string, fault: Option<string>) returns (ok: bool)
      requires Valid()
      modifies this
      ensures Valid()
      ensures ok <==> fault.None?
      ensures jobs == if ok then MarkJob(old(jobs), snapshotId) else old(jobs)
      ensures responses == old(responses) && emails == old(emails)
    {
      ok := fault.None?;
      if ok {
        jobs := MarkJob(jobs, snapshotId);
      }
    }

    /** `save_email`: inserts the address stamped `now`; a repeated address or a
        fault is classified by its message. */
    method SaveEmail(email: string, now: Timestamp, fault: Option<string>) returns (outcome: SaveOutcome)
      requires Valid() && ValidTimestamp(now)
      modifies this
      ensures Valid()
      ensures outcome == EmailSaveOutcome(old(emails), email, fault)
      ensures outcome == Saved <==> fault.None? && email !in Addresses(old(emails))
      ensures emails == if outcome == Saved then old(emails) + [EmailRow(email, now)] else old(emails)
      ensures jobs == old(jobs) && responses == old(responses)
    {
      UniqueViolationIsDuplicate();
      outcome := EmailSaveOutcome(emails, email, fault);
      if outcome == Saved {
        assert Addresses(emails + [EmailRow(email, now)]) == Addresses(emails) + [email];
        emails := emails + [EmailRow(email, now)];
      }
    }

    /** `save_response`: inserts the payload as not extracted; a repeated id or
        a fault is classified by its message. */
    method SaveResponse(snapshotId: string, data: Json, fault: Option<string>) returns (outcome: SaveOutcome)
      requires Valid()
      modifies this
      ensures Valid()
      ensures outcome == ResponseSaveOutcome(old(responses), snapshotId, fault)
      ensures outcome == Saved <==> fault.None? && snapshotId !in ResponseIds(old(responses))
      ensures responses == if outcome == Saved then old(responses) + [ResponseRow(snapshotId, data, false)] else old(responses)
      ensures jobs == old(jobs) && emails == old(emails)
    {
      UniqueViolationIsDuplicate();
      outcome := ResponseSaveOutcome(responses, snapshotId, fault);
      if outcome == Saved {
        assert ResponseIds(responses + [ResponseRow(snapshotId, data, false)]) == ResponseIds(responses) + [snapshotId];
        responses := responses + [ResponseRow(snapshotId, data, false)];
      }
    }

    /** `get_unextracted_responses`: every row not yet extracted; a fault yields []. */
    method GetUnextractedResponses(fault: Option<string>) returns (rows: seq<ResponseRow>)
      ensures fault.Some? ==> rows == []
      ensures fault.None? ==> rows == Unextracted(responses)
      ensures forall r :: r in rows <==> fault.None? && r in responses && !r.extracted
    {
      rows := if fault.Some? then [] else Unextracted(responses);
    }

    /** `mark_email_extracted`: sets the flag of the rows with that id; True
        unless the call faults. */
    method MarkEmailExtracted(snapshotId: string, fault: Option<string>) returns (ok: bool)
      requires Valid()
      modifies this
      ensures Valid()
      ensures ok <==> fault.None?
      ensures responses == if ok then MarkResponse(old(responses), snapshotId) else old(responses)
      ensures jobs == old(jobs) && emails == old(emails)
    {
      ok := fault.None?;
      if ok {
        responses := MarkResponse(responses, snapshotId);
      }
    }

    /** `get_emails_by_date`: the emails created from the first instant of
        `start` up to, but excluding, the first instant of the day after `end`,
        newest first. Any failure (a fault, a date the database or `strptime`
        rejects, the day after 9999-12-31) yields []. On success the rows are
        exactly the emails whose creation date lies in [start, end], both days
        included. */
    method GetEmailsByDate(start: Option<Date>, end: Option<Date>, fault: Option<string>) returns (rows: seq<EmailRow>)
      requires Valid()
      ensures NewestFirst(rows)
      ensures Distinct(rows)
      ensures fault.Some? ==> rows == []
      ensures ((start.Some? && !ValidDate(start.value)) ||
               (end.Some? && (!ValidDate(end.value) || end.value == Date(9999, 12, 31)))) ==>
        rows == []
      ensures fault.None? && (start.None? || ValidDate(start.value)) &&
              (end.None? || (ValidDate(end.value) && end.value != Date(9999, 12, 31))) ==>
        forall r :: r in rows <==> r in emails && InDateRange(r.createdAt.date, start, end)
    {
      if fault.Some? || (start.Some? && !ValidDate(start.value)) || (end.Some? && !ValidDate(end.value)) {
        return [];
      }
      var lo: Option<Timestamp> := None;
      if start.Some? {
        lo := Some(Midnight(start.value));
      }
      var hi: Option<Timestamp> := None;
      if end.Some? {
        var next := NextDay(end.value);
        if next.None? {
          return [];
        }
        hi := Some(Midnight(next.value));
      }
      var window := InWindow(emails, lo, hi);
      rows := SortNewestFirst(window);
      SortNewestFirstSorted(window);
      forall r | r in emails
        ensures r in window <==> InDateRange(r.createdAt.date, start, end)
      {
        var i :| 0 <= i < |emails| && emails[i] == r;
        assert ValidTimestamp(r.createdAt);
        if start.Some? { MidnightBounds(r.createdAt, start.value); }
        if end.Some? { MidnightBounds(r.createdAt, NextDay(end.value).value); }
      }
      assert forall r :: r in rows <==> r in window by {
        forall r ensures r in rows <==> r in window {
          assert r in rows <==> r in multiset(rows);
        }
      }
      DistinctRows(emails, window, rows);
    }
  }

  /** Rows of a table with unique addresses stay distinct through filtering and sorting. */
  lemma DistinctRows(emails: seq<EmailRow>, window: seq<EmailRow>, rows: seq<EmailRow>)
    requires Distinct(Addresses(emails))
    requires multiset(window) <= multiset(emails)
    requires multiset(rows) == multiset(window)
    ensures Distinct(rows)
  {
    DistinctRowsOfTable(emails);
    DistinctCounts(emails);
    forall x ensures multiset(rows)[x] <= 1 {
      assert multiset(window)[x] <= multiset(emails)[x];
    }
    CountsDistinct(rows);
  }

  lemma DistinctRowsOfTable(emails: seq<EmailRow>)
    requires Distinct(Addresses(emails))
    ensures Distinct(emails)
  {
    forall i, j | 0 <= i < j < |emails| ensures emails[i] != emails[j] {
      assert Addresses(emails)[i] != Addresses(emails)[j];
    }
  }
}
