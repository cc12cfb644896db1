# Email extractor pipeline: a Dafny model

This project models the work pipeline of the Bright Data email extractor.
The pipeline has three stages, a persistence store and a pure extraction engine:

- **Stage 1, submission.** The query list is cut into fixed-size batches. Each
  batch is posted to the scraping provider as a JSON payload. When the reply
  carries a `snapshot_id`, that id is stored as a pending job.
- **Stage 2, retrieval.** Every pending job's data is fetched and saved in the
  response table. The job is marked processed when the save succeeds or finds
  the response already there. Six counters are kept.
- **Stage 3, extraction.** Every response row not yet read has its email
  addresses extracted. Each address is saved in the email table, and the row
  is marked extracted whatever the saves did.
- **The store** (`SupabaseClient`) holds three tables, each with a unique key:
  - `snapshot_table`: job id → processed;
  - `response_table`: job id → (payload, extracted);
  - `email_table`: address → created_at.
  The store classifies a failed insert as `'duplicate'` or `'error'` from the
  text of the error message. It also lists pending jobs and unread responses,
  and lists emails in an inclusive date window, newest first.
- **The extraction engine** runs `re.findall` of the pattern
  `\b[A-Za-z0-9._%+-]+@[A-Za-z0-9.-]+\.[A-Z|a-z]{2,}\b` and then drops repeats,
  on a text or on the `json.dumps` text of a payload.

Modules:

- `Common`: `Option`, `Distinct`, and how a fault script is read.
- `Json`: payload values, Python truthiness, and `json.dumps` with `ensure_ascii`.
- `Calendar`: dates, timestamps and `NextDay`.
- `Extraction`: the regex engine as a deterministic backtracking search, proved
  sound and complete for the pattern.
- `Store`: the class `SupabaseStore`, whose methods update three sequence-of-row fields.
- `Scraper`: `create_payload`, the batching, and the class `EmailScraperEngine`
  with `ProcessQueries`.
- `App`: `load_csv_queries`, and stages 2 and 3, each a loop method proved
  against a run function, with lemmas about that function.

The environment is made of inputs:

- A store fault is the message of the exception a call raises, or `None`.
  A script of faults is indexed per call site.
- A provider reply is an `Option` of a decoded map.
- Snapshot data is a map from job id to payload. A missing id means
  `get_snapshot_data` returned `None`.
- The database's creation time for a new email row is a parameter `now`.

Points where the program's behaviour is narrower than one might expect:

- **Retrieval has two outcomes.** `get_snapshot_data`
  (email_scraper.py:61-80) returns `None` only after a request exception
  (including a non-2xx status, through `raise_for_status`) or an
  undecodable body. Any decoded 2xx body is data. Stage 2 saves a truthy
  one and marks its job, whether or not the job has finished, and skips
  falsy data. The model has "data" and "no data" only: a provider reply is
  either a decoded payload or absent.
- **Stage 3 fetches every unread row at once.** `get_unextracted_responses`
  (email_scraper.py:274) has no limit or offset.
- **Deduplication keeps first occurrences.** `list(set(...))` gives some
  order; the model keeps first occurrences in text order, which has the same
  elements.

## Model

| member | source | states |
|---|---|---|
| Json.Dumps | app.py:554 | the `json.dumps` text is printable ASCII, and it contains an at-sign exactly when some string of the value (key or leaf) does |
| Json.EscapeChar | app.py:554 | an escaped character is printable; it is an at-sign exactly when the character was; a printable character other than quote and backslash stands for itself |
| Calendar.NextDay | email_scraper.py:320-324 | adding one day fails exactly on 9999-12-31; otherwise the result is a valid later date, and a valid date is before it exactly when it is not after the given date |
| Calendar.MidnightBounds | email_scraper.py:318-324 | comparing a valid timestamp with the first instant of a day is the same as comparing its date with that day, for both `<` and `>=` |
| Extraction.RunLength | app.py:532 | the run of class characters starting at i stays inside the text and stops at the end or before a character outside the class |
| Extraction.RunLengthRun | app.py:532 | every character of the run belongs to the class |
| Extraction.RunLengthCovers | app.py:532 | any run of class characters starting at i is no longer than the maximal run |
| Extraction.TryLabel | app.py:532 | `[A-Z\|a-z]{2,}\b` backing off from t characters: the end found is a boundary at least two characters in, with no boundary after it within t; None means no boundary from two to t |
| Extraction.LabelAt | app.py:532 | the final label found is two or more label characters ending at a boundary, and it is the longest such label |
| Extraction.TryDomain | app.py:532 | backing the domain run off one character at a time, the cut found is a dot with a final label after it, strictly inside the run |
| Extraction.LastDot | app.py:532 | the last dot lies inside the domain run after the at-sign, at least one character in, and a final label follows it |
| Extraction.AtSignAt | app.py:532 | an attempt at p gets past the local part only to an at-sign inside the text after p |
| Extraction.AtSignAtSound | app.py:532 | the at-sign found from p follows a local part of local characters that starts at a word boundary |
| Extraction.AfterAtSound | app.py:532 | after the at-sign the engine finds domain characters, a dot, and a label of two or more that ends at a boundary |
| Extraction.MatchAtSound | app.py:532 | a match found at p has the whole shape of the pattern, with word boundaries at both ends |
| Extraction.MatchAtMatches | app.py:532-535 | the text the engine finds at p is nonempty and is a match of the pattern at p |
| Extraction.LabelAfterComplete | app.py:532 | a label of two or more after the dot that ends at a boundary e is found, and the label found ends no earlier than e |
| Extraction.TryDomainComplete | app.py:532 | a dot inside the domain run with a label after it is found, or a later one is |
| Extraction.LastDotComplete | app.py:532 | any dot after a domain part, with a final label after it, is found as the last dot or a later one is |
| Extraction.AfterAtComplete | app.py:532 | if a domain, dot and label ending at a boundary follow the at-sign, the search succeeds with the last dot no earlier and, for the same dot, the end no earlier |
| Extraction.LocalPartComplete | app.py:532 | the local part of a match is exactly the maximal run of local characters |
| Extraction.MatchAtIsAfterAt | app.py:532 | at a boundary, a local run that ends at an at-sign hands over to the search after the at-sign |
| Extraction.MatchAtComplete | app.py:532 | whenever the pattern matches text[p..e], the attempt at p succeeds with the same at-sign, a last dot no earlier and, for the same dot, an end no earlier (greedy priority) |
| Extraction.FindAll | app.py:535 | every text `findall` returns from p is a match of the pattern at some position at or after p |
| Extraction.RunLengthExact | app.py:532 | a run of n class characters that ends at the end of the text or before a character outside the class is the maximal run |
| Extraction.NoMatchAt | app.py:532 | the attempt at p fails when p is not a word boundary or the local run from p is empty or not followed by an at-sign |
| Extraction.AtSignAtRun | app.py:532 | at a boundary, a non-empty local run followed by an at-sign takes the attempt to that at-sign |
| Extraction.FindAllSkip | app.py:535 | a failed attempt at p moves the scan on to p + 1 |
| Extraction.FindAllSkipRange | app.py:535 | a stretch of failed attempts is skipped: the scan from q returns what the scan from p returns |
| Extraction.FindAllReaches | app.py:535 | when every attempt from q up to p fails and the attempt at p succeeds, the text found at p is among those returned from q |
| Extraction.FindAllComplete | app.py:532-535 | when the pattern matches text[p..e] at word boundaries and every attempt from q up to p fails, the greedy match at p is returned, with the same at-sign, a last dot no earlier and, for the same dot, an end no earlier |
| Extraction.FindAllNeedsAt | app.py:535 | with no at-sign after p, `findall` returns nothing |
| Extraction.FoundHasShape | app.py:532-535 | a found text has the address shape on its own and contains an at-sign |
| Extraction.FoundOccurs | app.py:535 | a found text occurs in the text |
| Extraction.Dedup | app.py:538 | the result has no repeats, has exactly the elements of the input, and is no longer |
| Extraction.ExtractFromText | app.py:521-538 | the result has no repeats, holds exactly the texts `findall` returns, and each is a match in the text |
| Extraction.ExtractedAreAddresses | app.py:532-538 | every extracted address occurs in the text and has the shape: local part, at-sign, domain, dot, label of two or more |
| Extraction.ExtractFindsFirstMatch | app.py:521-538 | when the pattern matches text[p..e] at word boundaries and no attempt before p succeeds, the attempt at p succeeds and its text is among the extracted addresses |
| Extraction.ExtractRepeated | app.py:521-538 | `contact: a@b.com, a@b.com` yields exactly `["a@b.com"]`: both occurrences are found and the repeat is dropped |
| Extraction.ExtractNeedsAt | app.py:532-538 | a text with no at-sign yields no address |
| Extraction.ExtractFromJson | app.py:541-557 | the addresses are distinct matches in the `json.dumps` text, and a payload with no at-sign in any string yields none |
| Store.UniqueViolationIsDuplicate | email_scraper.py:256-261 | the database's unique-key violation message is classified as `'duplicate'` |
| Store.ClassifyIgnoresCase | email_scraper.py:224-231 | the classification lower-cases first, so a message and its lower-cased form are classified alike |
| Store.Pending | email_scraper.py:176-178 | the listed ids are exactly the ids of rows whose `processed` flag is false, at most one per row |
| Store.PendingDistinct | email_scraper.py:176-180 | in a table with unique ids, the pending ids are distinct |
| Store.MarkJob | email_scraper.py:197 | marking keeps every row and id in place and sets exactly the flags of the rows with that id |
| Store.MarkJobShrinksPending | email_scraper.py:176-197 | after a mark, the pending list is the old one without that id |
| Store.Unextracted | email_scraper.py:274-276 | the listed rows are exactly those whose `is_email_extracted` flag is false |
| Store.AllExtracted | email_scraper.py:274-276 | a table whose every row is extracted lists nothing |
| Store.MarkResponse | email_scraper.py:295 | marking keeps every row and id in place and sets exactly the flags of the rows with that id |
| Store.InWindow | email_scraper.py:315-324 | the rows kept are exactly the table's rows with `start <= created_at < bound`, and none is added |
| Store.SortNewestFirstSorted | email_scraper.py:327 | the ordering by `created_at` descending is sorted newest first and is a permutation of its input |
| Store.InsertNewestSorted | email_scraper.py:327 | inserting into a list sorted newest first keeps it sorted |
| Store.DistinctRows | email_scraper.py:315-330 | filtering and sorting a table with unique addresses yields distinct rows |
| Store.SupabaseStore.constructor | email_scraper.py:141-142 | a new store has three empty tables and satisfies the unique-key invariant |
| Store.SupabaseStore.SaveSnapshot | email_scraper.py:144-166 | succeeds exactly when there is no fault and the id is new; then it appends the id as not processed; any failure, a duplicate included, changes nothing; the other tables are unchanged |
| Store.SupabaseStore.GetUnprocessedSnapshots | email_scraper.py:168-184 | returns the distinct ids whose flag is false in table order, or `[]` on a fault |
| Store.SupabaseStore.MarkAsProcessed | email_scraper.py:186-203 | True exactly without a fault; then only the flags of that id are set; the other tables are unchanged |
| Store.SupabaseStore.SaveEmail | email_scraper.py:205-231 | `Saved` exactly when there is no fault and the address is new; then one row stamped now is appended; a fault is `'duplicate'` exactly when the lower-cased message mentions duplicate or unique |
| Store.SupabaseStore.SaveResponse | email_scraper.py:233-264 | `Saved` exactly when there is no fault and the id is new; then the payload is appended as not extracted; faults are classified as in `save_email` |
| Store.SupabaseStore.GetUnextractedResponses | email_scraper.py:266-282 | returns every row not yet extracted, in table order, or `[]` on a fault |
| Store.SupabaseStore.MarkEmailExtracted | email_scraper.py:284-301 | True exactly without a fault; then only the flags of that id are set; the other tables are unchanged |
| Store.SupabaseStore.GetEmailsByDate | email_scraper.py:303-336 | distinct rows, newest first; `[]` on a fault, an invalid start or end date, or an end of 9999-12-31 (where adding a day overflows); otherwise exactly the emails whose creation date lies in [start, end], both days included |
| Scraper.EntryKeywordOf | email_scraper.py:94-100 | one entry reads back as its keyword, with the Google URL and empty language, uule and mobile fields |
| Scraper.EntryKeywordsOf | email_scraper.py:93-100 | the entries read back as the keyword list, one per keyword, in order |
| Scraper.PayloadKeywords | email_scraper.py:92-102 | the payload document's `input` list reads back as exactly the keywords, in order |
| Scraper.CreatePayload | email_scraper.py:82-104 | the loop builds one entry per keyword, and the result is the `json.dumps` text of the payload document |
| Scraper.SendRequest | email_scraper.py:106-135 | the request carries the payload for the keywords, and the result is the provider's reply |
| Scraper.BatchesPartition | email_scraper.py:366-369 | the batches concatenate back to the queries; each holds 1 to B queries; all but the last hold exactly B |
| Scraper.BatchCount | email_scraper.py:366 | there are ⌈N/B⌉ batches |
| Scraper.NextBatch | email_scraper.py:366-368 | the batches still to send from offset i are the slice `queries[i:i+B]` followed by those from i + B |
| Scraper.SubmitRunShape | email_scraper.py:376-387 | each batch either records an id or counts as failed, and the job table grows by one pending row per recorded id, in order |
| Scraper.SubmittedIds | email_scraper.py:376-382 | the recorded ids are distinct and new to the table, and each was carried by the reply to some batch whose insert did not fault |
| Scraper.EmailScraperEngine.constructor | email_scraper.py:342-344 | the engine keeps the store it is given |
| Scraper.EmailScraperEngine.SubmitBatch | email_scraper.py:374-387 | a batch's id is recorded exactly when the reply has a `snapshot_id` and `save_snapshot` succeeds; then one pending row is added |
| Scraper.EmailScraperEngine.ProcessQueries | email_scraper.py:346-401 | the batches sent are the partition of the queries; successes plus failures equal the batch count; `total_queries` = N; B·batches covers N with less than one batch to spare; the submitted ids are distinct and each has a new pending row |
| App.TrimStartShape | app.py:110 | trimming the start drops exactly the leading white space |
| App.TrimEndShape | app.py:110 | trimming the end drops exactly the trailing white space |
| App.StripShape | app.py:110 | `strip()` yields the part of the cell between white space, and it neither starts nor ends with white space |
| App.StripIdempotent | app.py:110 | stripping twice equals stripping once |
| App.NonBlankMembers | app.py:108-112 | the kept cells are exactly the cells other than `""`, at most one per row |
| App.NonBlankAppend | app.py:108-112 | rows are read independently and in order: the result for two runs of rows is their results concatenated |
| App.CsvQueriesCells | app.py:104-114 | the header row is never read; the result is at most one query per later row, and holds exactly the non-blank stripped first cells of the later rows |
| App.CsvQueriesStripped | app.py:110-112 | every query is already stripped |
| App.LoadCsvQueries | app.py:100-117 | the loop that skips the header and appends non-blank stripped first cells computes the query list |
| App.Tally | app.py:376-441 | `total` equals the number of jobs; `successful + failed + skipped + duplicate_snapshots = total`; `db_errors = failed` |
| App.TallyAllSuccessful | app.py:400-403 | every job counts as successful exactly when every job was stored and marked |
| App.RetrieveRunOutcomes | app.py:388-424 | a run has one outcome per job, and job k is skipped exactly when its data is missing or empty |
| App.RetrieveRunJobs | app.py:397-424 | the job table after a run is the old table with exactly the marked outcomes' jobs marked, in order |
| App.PendingAfterMark | app.py:402-414 | marking a job or not leaves every other job's pending status alone; the job is pending afterwards exactly when it was not marked and was pending before |
| App.MarkAllLast | app.py:402-414 | the last job of a run leaves the pending list exactly when its outcome marks it, and the others keep their status |
| App.MarkAllPending | app.py:397-424 | over distinct pending jobs, a processed job leaves the pending list exactly when its outcome marks it; jobs not reached yet stay pending |
| App.RetrieveRunPending | app.py:388-424 | skipped jobs and failed saves stay pending; stored or duplicate jobs whose mark succeeded leave it; jobs not reached yet stay pending |
| App.RetrievalMarks | app.py:364-424 | on the store's pending list: one outcome per job, a skip exactly when there is no data, and `processed` set exactly for the marked jobs |
| App.ProcessSnapshot | app.py:395-424 | the loop body moves the store one step of the run: a save, then a mark on success or duplicate; the emails are unchanged |
| App.RetrieveAll | app.py:376-441 | the loop over the pending ids leaves the tables as the run describes, and its counters are the tally of the run's outcomes |
| App.ProcessUnprocessedSnapshots | app.py:332-454 | with no API key or no pending job, the counters are zero and nothing changes; otherwise every pending job goes through the loop in table order |
| App.SaveAllCount | app.py:611-623 | each save counts once: saved + duplicate + errors = the number of addresses |
| App.SaveAllGrows | app.py:611-623 | the email table only grows, by rows for listed addresses stamped now |
| App.SaveAllComplete | app.py:611-621 | when no save faults, every address of the list is in the table afterwards |
| App.SaveExtracted | app.py:609-623 | the inner loop leaves the email table and tally that the saving run describes |
| App.ExtractRunCounts | app.py:598-631 | each row is marked once, as a success or a failure, and each address is saved once, as saved, duplicate or error |
| App.ExtractRow | app.py:604-634 | the loop body for one row moves the store and counters one step of the run; `marked` holds exactly without a mark fault |
| App.ExtractAll | app.py:585-647 | the loop leaves the tables as the run describes, and its counters (`db_errors` = save errors + mark failures) are those of the run |
| App.ProcessResponsesForEmails | app.py:560-660 | every unread row (none on a listing fault) goes through the loop; with none, the counters are zero and nothing changes; the job table is untouched |
| App.ExtractionStatsCounts | app.py:586-647 | `total = successful + failed`, and `total_emails + duplicate_emails + db_errors` = addresses extracted + mark failures |
| App.ExtractRunResponses | app.py:626-631 | response rows stay in place; a row is extracted afterwards exactly when it was before or a row with its id was marked without a fault, even with zero addresses |
| App.BacklogCleared | app.py:574-631 | a run over every unread row with no mark fault leaves no unread row |
| App.AddressesGrow | app.py:611-621 | a table that keeps its old rows as a prefix keeps their addresses |
| App.ExtractRunEmails | app.py:611-615 | stage 3 only appends email rows, each stamped now and holding an address extracted from a processed row |
| App.ExtractStepComplete | app.py:606-621 | when no save for one row faults, all its addresses and every address already there are in the table afterwards |
| App.ExtractRunComplete | app.py:604-621 | when no email save faults, every address extracted from the processed rows is in the email table afterwards |

## Left out

- Streamlit rendering, progress bars, session state and the download buttons are not modelled. They are presentation only.
- HTTP transport, timeouts, `time.sleep`, logging, `os.getenv` and `load_dotenv` are not modelled. Provider replies and store faults are inputs instead.
- The Supabase client itself is not modelled. The tables are sequences of rows with a unique-key invariant.
- `csv.reader` and UTF-8 decoding are not modelled. `load_csv_queries` takes the already-split rows. A decoding error and the empty-file `StopIteration` both yield `[]`, as the code's handler does.
- `datetime.strptime` and string dates are not modelled. `get_emails_by_date` takes parsed `(year, month, day)` dates, and an invalid date yields `[]`. Time zones of `created_at` are not modelled.
- The database assigns `created_at`. Stage 3 uses one parameter `now` for every row of a run.
- The order that `list(set(...))` gives is not modelled. `Extraction.Dedup` keeps first occurrences.
- `Extraction.IsWordChar` covers ASCII word characters only. The text searched is `json.dumps` output with `ensure_ascii`, which is printable ASCII, so `\b` sees only ASCII there. `extract_emails_from_text` on a raw non-ASCII text would also treat Unicode letters as word characters.
- Floating-point numbers in payloads are not modelled. `Json.JNum` holds integers.
- Store.SupabaseStore.GetUnprocessedSnapshots and Store.SupabaseStore.GetUnextractedResponses: the queries have no `ORDER BY`, so the database may list rows in any order; the model fixes table (insertion) order.
- Store.SortNewestFirstSorted: equal `created_at` values may come back in any order from the database; the model fixes one order.
- Scraper.EmailScraperEngine.ProcessQueries: a `batch_size` of 0 or less is not modelled (it requires `batchSize >= 1`). For 0, `range` raises. For a negative B, `range(0, N, B)` is empty, so the code sends nothing and returns zero counters with `total_queries` = N. The rebinding of `batch_size` to `len(batch)` at line 369 is not modelled separately: every batch but the last has length B, so the slices are the same.
- App.ProcessUnprocessedSnapshots: the early return for an empty pending list has no `db_errors` or `duplicate_snapshots` keys; the model reports 0 for them. The `except Exception` branch at lines 443-454 is not modelled.
- App.ProcessResponsesForEmails: the early return for no rows has no `db_errors` or `duplicate_emails` keys; the model reports 0. The `except Exception` branch at lines 649-660 is not modelled. `row.get('response', {})` always finds the response, which every listed row has.
- App.ExtractAll: takes the extractor as a parameter; `ProcessResponsesForEmails` passes `ExtractFromJson`.
- App.RetrieveAll: the six counters are kept in one record instead of six variables, with the same increments.
- Faults are scripted per call site and per call index (`Common.FaultAt`). A call whose fault index is past the script succeeds.
