# Research assistant backend: a Dafny model

This project models the core of a research-assistant service. The service
searches the web for a prompt and fetches and summarises the pages it finds.
It stores them as the sources of a research session and renders an SVG
infographic whose claims cite those sources. The model covers:

- `WebSearch` (`web_search.py`):
  - the TTL cache, with lazy expiry and first-key eviction;
  - the token-bucket rate limiter, with its blocking `acquire`;
  - the DuckDuckGo HTML search client, with its cache key and marker-scanning parse loop;
  - the `_strip_tags` helper.
- `SourceFetcher` (`source_fetcher.py`):
  - the cached, rate-limited fetch;
  - the `<title>` extractor;
  - the HTML-to-text scanner.
- `Summarizer` and `Ingest`: the deterministic summariser, and the one-URL
  ingest pipeline with its text cut and 240-character snippet.
- `ResearchWorker`: the end-to-end job. It searches, ingests the first
  hits, persists one source per ingested hit, renders and stores the SVG,
  and updates or creates the session's infographic.
- `Jobs`: the in-process job queue and its status record. A record goes
  queued → running → succeeded | failed.
- `Infographic`: XML escaping, the numbered bullets, the claims with their
  provenance ids, the layout metadata and the SVG lines.
- `Storage`: `LocalMediaStorage` path validation and URL formation.
- The API decision logic:
  - `ApiIngest`: the bounded update loop of the ingest endpoint.
  - `ApiSearch`: error mapping, URL de-duplication and the status update.
  - `ApiSessions`: the image-URL dispatch of the SVG export.
  - `ApiMetrics`: the day clamp and the derived counts.
  - `SourceSchema`: the title validator.
- `HistoryFilter`: the frontend's history filter.

Shared modules:
- `Wrappers` holds `Option` and `Result`.
- `Strings` gives Python's `find`, `rfind`, slicing, `replace`, `split`,
  `strip`, `lower` and `str(int)`, and JavaScript's `trim`, with their own
  semantics.
- `Records` holds the database rows. A `ResearchSession` object owns its
  sources, messages and infographic, as the ORM relationships load them.
- `Http` holds the HTTP error of the endpoints.

Each stateful part is a class whose methods take the time as a `now`
parameter. It is proved equal to a specification function of its old
state (`TtlCache`, `RateLimiter`, `SearchClient`, `Fetcher`,
`IngestPipeline`, `JobQueue`). Each loop of the source is a method with
invariants, proved equal to a back-recursive specification function. The
properties are lemmas about those functions. Network responses are inputs:
an HTML body or an error. A cache key is the prefixed string that the
source hashes.

## Model

| member | source | states |
|---|---|---|
| WebSearch.IndexOfKey | backend/app/services/web_search.py:44 | the dict lookup finds a slot holding the key, and finds none exactly when no slot holds it |
| WebSearch.CacheConfigError | backend/app/services/web_search.py:33-37 | the cache constructor accepts exactly positive ttl and max_items, and reports ttl first with its own message |
| WebSearch.TtlCache.Create | backend/app/services/web_search.py:33-41 | construction fails exactly for a non-positive parameter; otherwise the cache is empty and valid |
| WebSearch.TtlCache.Get | backend/app/services/web_search.py:43-51 | get returns and keeps the table exactly as the lookup specification says, and keeps the table valid |
| WebSearch.TtlCache.Set | backend/app/services/web_search.py:53-58 | set leaves the table as the store specification says, within max_items and with distinct keys |
| WebSearch.CacheStoreBounded | backend/app/services/web_search.py:53-58 | after set the table has at most max_items entries and distinct keys |
| WebSearch.CacheStoreThenLookup | backend/app/services/web_search.py:43-58 | a stored value reads back unchanged, with the table untouched, until now + ttl |
| WebSearch.CacheStoreEvictsFirst | backend/app/services/web_search.py:54-57 | on a full table set evicts the first key in insertion order |
| WebSearch.CacheStoreKeepsOthers | backend/app/services/web_search.py:53-58 | set leaves the answer of get for every other key as it was, except for the first key, which a full table evicts |
| WebSearch.CacheLookupExpired | backend/app/services/web_search.py:48-50 | reading an expired entry returns absent and removes exactly that entry |
| WebSearch.CacheLookupShrinks | backend/app/services/web_search.py:43-51 | a lookup never adds entries, keeps keys distinct, and changes nothing on a hit |
| WebSearch.Refill | backend/app/services/web_search.py:83-87 | refill keeps the capacity, moves last to now, and caps tokens at capacity |
| WebSearch.AllowKeepsTokensInRange | backend/app/services/web_search.py:83-94 | with time not going back, tokens stay in [0, capacity]; allow grants iff the refilled count is ≥ 1 and then deducts exactly 1 |
| WebSearch.RefillAfterOneInterval | backend/app/services/web_search.py:80-94 | an exhausted limiter grants again after 60 / rate seconds |
| WebSearch.BurstGrantsExactly | backend/app/services/web_search.py:89-94 | with n whole tokens and no elapsed time, exactly the first n calls are granted |
| WebSearch.FreshLimiterBurst | backend/app/services/web_search.py:74-94 | a fresh limiter grants rate_per_minute immediate calls and refuses the next |
| WebSearch.SleepDelay | backend/app/services/web_search.py:106-108 | the poll delay lies in [0.05, 1.0] |
| WebSearch.SleepRefillsSomething | backend/app/services/web_search.py:103-108 | each sleep refills at least 1/60 of a token, so acquire terminates |
| WebSearch.AcquireFrom | backend/app/services/web_search.py:96-103 | acquire is granted at now + polls × delay, no earlier than now, with a non-negative token count |
| WebSearch.AcquireStep | backend/app/services/web_search.py:100-103 | one poll either grants at once, or sleeps with strictly fewer polls left |
| WebSearch.LimiterConfigError | backend/app/services/web_search.py:75-76 | the limiter accepts exactly a positive rate |
| WebSearch.RateLimiter.Create | backend/app/services/web_search.py:74-81 | construction fails exactly for a non-positive rate; a new limiter is full, with last = now |
| WebSearch.RateLimiter.RefillAt | backend/app/services/web_search.py:83-87 | the limiter's new state is the refill of its old state |
| WebSearch.RateLimiter.AllowAt | backend/app/services/web_search.py:89-94 | the answer and the new state are those of the allow specification |
| WebSearch.RateLimiter.Acquire | backend/app/services/web_search.py:96-103 | the polling loop ends in the acquire specification's state, grant time and poll count |
| WebSearch.RemoveTags | backend/app/services/web_search.py:199-210 | the in_tag scan never lengthens the text and leaves no `<` or `>` |
| WebSearch.RemoveTagsDropsTag | backend/app/services/web_search.py:201-209 | a tag is dropped together with its brackets, and the text around it is kept in order |
| WebSearch.RemoveTagsPlain | backend/app/services/web_search.py:201-209 | text without brackets passes through unchanged |
| WebSearch.StripTags | backend/app/services/web_search.py:196-217 | the loop gives the tag removal followed by the five entity replacements |
| WebSearch.DoubleUnescape | backend/app/services/web_search.py:211-217 | `&amp;` is replaced first, so `&amp;lt;` becomes `<` |
| WebSearch.SearchCacheKeyInjective | backend/app/services/web_search.py:140-142 | distinct (query, max_results) pairs never share a cache key |
| WebSearch.ScanAt | backend/app/services/web_search.py:171-190 | a turn without href= moves strictly forward; a hit has no snippet |
| WebSearch.ParseFrom | backend/app/services/web_search.py:169-190 | the parse yields at most max_results results, none with a snippet |
| WebSearch.NoMarkerNoResults | backend/app/services/web_search.py:171-174 | a page without the result marker yields no results |
| WebSearch.TurnEnd | backend/app/services/web_search.py:171-174 | when no marker lies ahead of pos the loop stops there, whatever the budget |
| WebSearch.TurnOf | backend/app/services/web_search.py:171-190 | a turn whose marker has an `href=` before it appends the result read there and goes on from its `</a>` with one result fewer wanted |
| WebSearch.AnchorResult | backend/app/services/web_search.py:172-190 | at an anchor `<a href="url" class="result__a">text</a>` the marker search, the rfind of `href=`, the two quotes and the `>`/`</a>` searches pick out exactly that url and text, and the loop resumes at its `</a>` |
| WebSearch.ParseTurns | backend/app/services/web_search.py:171-190 | when the turns from pos read the links' results one after another and then find no marker, the loop returns those results in order, cut to the budget |
| WebSearch.ParseAnchorPage | backend/app/services/web_search.py:168-190 | a page of such anchors (urls without `"` or `href=`, texts without tag brackets) parses to one result per anchor in page order, with the href's url and the unescaped, stripped text as title (the url when that is blank), cut to max_results |
| WebSearch.ReadResult | backend/app/services/web_search.py:179-189 | the loop body reads the result and the resume index as specified |
| WebSearch.ScanFrom | backend/app/services/web_search.py:172-178 | one turn of the parse loop is the scan specification |
| WebSearch.ParseResults | backend/app/services/web_search.py:165-190 | the parse loop returns the parse specification's list |
| WebSearch.BlankQueryIsInert | backend/app/services/web_search.py:145-146 | a blank query returns [] and touches neither the cache nor the limiter |
| WebSearch.SearchHitIsServed | backend/app/services/web_search.py:148-151 | a cached list, even an empty one, is returned without a token or a request |
| WebSearch.SearchFailureNotCached | backend/app/services/web_search.py:154-162 | an upstream error propagates and caches nothing |
| WebSearch.SearchMiss | backend/app/services/web_search.py:153-193 | a miss waits for a token, parses the page, and caches the list under the query's key |
| WebSearch.SearchRepeatIsCached | backend/app/services/web_search.py:144-193 | a repeat of a successful search within the ttl is served from the cache, whatever the upstream would answer |
| WebSearch.SearchClient.Search | backend/app/services/web_search.py:144-193 | search's result, cache and limiter are those of the search specification |
| SourceFetcher.StepAt | backend/app/services/source_fetcher.py:105-131 | one scan step moves strictly forward and never emits a `<` |
| SourceFetcher.TextFrom | backend/app/services/source_fetcher.py:102-133 | the scanned text is no longer than the input and has no `<` |
| SourceFetcher.RawStepIs | backend/app/services/source_fetcher.py:106-117 | at a `<script` or `<style` (any case) the step emits nothing and resumes just after the first matching closing tag at or after it |
| SourceFetcher.UnclosedRawStep | backend/app/services/source_fetcher.py:106-117 | a script or style element with no closing tag after it stops the scan |
| SourceFetcher.TagChunk | backend/app/services/source_fetcher.py:124-126 | a tag leaves a newline exactly when its stripped body starts with `br`, `p` or `/p`, and nothing otherwise |
| SourceFetcher.UnclosedStep | backend/app/services/source_fetcher.py:120-123 | a `<` with no `>` anywhere after it stops the scan |
| SourceFetcher.PlainStep | backend/app/services/source_fetcher.py:119-131 | a character other than `<` is copied and the scan goes on with the next one |
| SourceFetcher.TextFromRun | backend/app/services/source_fetcher.py:119-131 | a run of characters without `<` is copied verbatim ahead of whatever follows it |
| SourceFetcher.TextFromPlain | backend/app/services/source_fetcher.py:119-131 | from an index after which the page has no `<`, the text is the rest of the page unchanged |
| SourceFetcher.TextAroundStep | backend/app/services/source_fetcher.py:102-133 | a page made of text a, one step emitting a chunk, then text b gives a, the chunk and b in that order |
| SourceFetcher.TextBeforeStop | backend/app/services/source_fetcher.py:102-133 | a page made of text a, then a step that stops gives a |
| SourceFetcher.TextAroundBreak | backend/app/services/source_fetcher.py:120-128 | a `<br>` between two texts without `<` becomes a newline between them |
| SourceFetcher.TextAroundDiv | backend/app/services/source_fetcher.py:120-128 | a `<div>` between two texts without `<` leaves nothing between them |
| SourceFetcher.TextBeforeUnclosed | backend/app/services/source_fetcher.py:120-123 | text followed by a `<` with no `>` after it gives just the text |
| SourceFetcher.TextAroundRaw | backend/app/services/source_fetcher.py:106-117 | a script or style element whose content has no `<` is dropped whole; the text on both sides is kept in order |
| SourceFetcher.TextBeforeUnclosedRaw | backend/app/services/source_fetcher.py:106-117 | text followed by a script or style element never closed gives just the text |
| SourceFetcher.HtmlTextOfPlain | backend/app/services/source_fetcher.py:99-140 | for plain text, _html_to_text only unescapes entities |
| SourceFetcher.ScanText | backend/app/services/source_fetcher.py:105-131 | one turn of the loop, on the lower-cased copy, is the step specification |
| SourceFetcher.HtmlToText | backend/app/services/source_fetcher.py:99-140 | the scan loop followed by the unescaping gives the text specification |
| SourceFetcher.ExtractTitle | backend/app/services/source_fetcher.py:84-96 | a title found is non-empty and whitespace-collapsed; no `<title` (case-insensitive) gives None |
| SourceFetcher.TitleOfPage | backend/app/services/source_fetcher.py:84-96 | on text without `<`, then `<title>` t `</title>`, then anything, the title is t entity-unescaped and whitespace-collapsed, or None when that is empty |
| SourceFetcher.TitleUnclosed | backend/app/services/source_fetcher.py:92-94 | a title element with no `</title>` after it gives None |
| SourceFetcher.TitleUnterminated | backend/app/services/source_fetcher.py:89-91 | a `<title` with no `>` after it gives None |
| SourceFetcher.FetchCacheKeyInjective | backend/app/services/source_fetcher.py:50-51 | distinct urls never share a cache key |
| SourceFetcher.BlankUrlRejected | backend/app/services/source_fetcher.py:54-56 | a blank url fails with "url is required" before the cache or the limiter is touched |
| SourceFetcher.FetchCachesOnlyPages | backend/app/services/source_fetcher.py:58-78 | a failure leaves no cache entry for the url; a fresh page reports the stripped url |
| SourceFetcher.FetchRefusedWithoutToken | backend/app/services/source_fetcher.py:63-64 | a limiter refusal fails with "Fetch rate limit exceeded", with no request and no cache write |
| SourceFetcher.FetchRepeatIsCached | backend/app/services/source_fetcher.py:58-78 | a page fetched afresh is returned from the cache by a repeat within the ttl |
| SourceFetcher.Fetcher.Fetch | backend/app/services/source_fetcher.py:53-81 | fetch's result, cache and limiter are those of the fetch specification |
| Summarizer.NonBlankPiecesShape | backend/app/services/summarizer.py:33 | the kept pieces are non-empty, stripped, and contain no '.' |
| Summarizer.SummaryIsCollapsedPrefix | backend/app/services/summarizer.py:26-31 | the summary is exactly `cleaned[:max_chars]`: the prefix of the collapsed text of length min(max_chars, len) for max_chars >= 0, len + max_chars floored at 0 otherwise; url and title are copied |
| Summarizer.SummaryEmptyIffBlank | backend/app/services/summarizer.py:26-29 | blank text gives an empty summary and no bullets; with max_chars > 0 only blank text does |
| Summarizer.KeyPointShape | backend/app/services/summarizer.py:33-34 | at most max_points bullets, each "- " + a non-empty stripped '.'-free piece + "." |
| Summarizer.NonEmptyIndexIncreasing | backend/app/services/summarizer.py:33 | the positions of the pieces kept by the `if p.strip()` filter are strictly increasing |
| Summarizer.NonEmptyIndexCovers | backend/app/services/summarizer.py:33 | every non-empty piece's position is among the kept positions |
| Summarizer.NonEmptyIndexPicks | backend/app/services/summarizer.py:33 | the filtered list is exactly the pieces at the kept positions, in order |
| Summarizer.KeyPointsFromSummary | backend/app/services/summarizer.py:31-34 | for any text, bullet k is "- " + the stripped k-th non-blank '.'-segment of the summary + "."; the segments come in increasing order, every non-blank segment is a candidate, and there are at most max_points bullets (Python slice semantics for a negative max_points) |
| Summarizer.DefaultBounds | backend/app/services/summarizer.py:21-34 | the default summariser keeps at most 800 characters and 5 bullets |
| Ingest.CutText | backend/app/services/ingest.py:34-35 | the text is cut to max_chars only when that is set and positive; it is always a prefix |
| Ingest.FromFetchedKeepsSource | backend/app/services/ingest.py:36-44 | url and title come from the fetched source; the summary is the collapsed cut text sliced at the summarizer's max_chars, with its exact length |
| Ingest.SnippetIsSummaryHead | backend/app/services/ingest.py:39-41 | the snippet is None iff the summary is empty, and otherwise the summary's first 240 characters |
| Ingest.NoSnippetIffBlankText | backend/app/services/ingest.py:33-41 | with a positive summariser limit, there is no snippet iff the cut text is blank |
| Ingest.DefaultIngestBounds | backend/app/services/ingest.py:31-44 | with the default summariser, the summary is at most 800 characters whatever max_chars is |
| Ingest.IngestPipeline.Ingest | backend/app/services/ingest.py:31-44 | a fetch error propagates without summarising; otherwise the result is built from the fetched source |
| Jobs.QueuedIsFresh | backend/app/services/jobs.py:46-52 | enqueue writes a queued record with the job's fields and nothing else set |
| Jobs.StartAdvances | backend/app/services/jobs.py:55-63 | starting moves queued to running, sets started_at and keeps the other fields |
| Jobs.FinishAdvances | backend/app/services/jobs.py:64-86 | finishing gives succeeded with the result, or failed with the error and no result; finished_at is set |
| Jobs.StartShape | backend/app/services/jobs.py:55-63 | the unguarded start keeps a well-formed record well formed exactly when the job has not finished yet |
| Jobs.FinishShape | backend/app/services/jobs.py:64-86 | the unguarded finish keeps a well-formed record well formed exactly from running, or when it repeats the record's own outcome |
| Jobs.JobQueue.constructor | backend/app/services/jobs.py:35-38 | a new queue has no records and no runners |
| Jobs.JobQueue.Enqueue | backend/app/services/jobs.py:40-88 | enqueue (over)writes a queued record for the id and registers its runner |
| Jobs.JobQueue.Start | backend/app/services/jobs.py:55-63 | the id's record becomes its started record; nothing else changes |
| Jobs.JobQueue.Finish | backend/app/services/jobs.py:64-86 | the id's record becomes its finished record; nothing else changes |
| Jobs.JobQueue.GetStatus | backend/app/services/jobs.py:90-92 | get_status gives None for an unknown id, and the current record otherwise |
| Jobs.RunToEnd | backend/app/services/jobs.py:46-92 | a job run to the end reads back as a well-formed finished record; other ids are untouched |
| Infographic.XmlEscapeIsCharwise | backend/app/services/infographic.py:15-21 | the chain of four replacements escapes character by character |
| Infographic.XmlEscapeRoundTrip | backend/app/services/infographic.py:15-21 | each `&` is escaped exactly once, so escaped text reads back to the input |
| Infographic.EscapedIsSafe | backend/app/services/infographic.py:15-21 | escaped text has no raw `<`, `>` or `"`, and is never shorter |
| Infographic.KeyBullets | backend/app/services/infographic.py:36-42 | there are between 1 and 5 bullets |
| Infographic.NumberedKeepsTitled | backend/app/services/infographic.py:36-40 | every titled source gets a bullet numbered by its own position |
| Infographic.NumberedOnlyTitled | backend/app/services/infographic.py:36-40 | every bullet comes from a titled source at its own position |
| Infographic.NumberedEmptyIff | backend/app/services/infographic.py:36-41 | there are no numbered bullets exactly when no source has a title |
| Infographic.KeyBulletsFromTitledSources | backend/app/services/infographic.py:36-42 | the bullets are exactly the titled sources among the first five, numbered by position; the default bullet stands alone iff there is none |
| Infographic.DefaultIsNoBullet | backend/app/services/infographic.py:37-42 | the default bullet is never a numbered bullet |
| Infographic.SomeIdsMembers | backend/app/services/infographic.py:46-50 | an id is in the non-None id list exactly when some source carries it |
| Infographic.ClaimSourceIds | backend/app/services/infographic.py:46-50 | the ids are exactly the non-None source_ids of the first min(2, len) sources, in source order; the list is empty iff there are none |
| Infographic.BuildClaims | backend/app/services/infographic.py:44-59 | the claims loop builds one claim per bullet (up to 8) with the shared ids |
| Infographic.ClaimsShape | backend/app/services/infographic.py:44-59 | claim k has id "c{k+1}" and bullet k's text; ids are distinct; grounded iff there are source ids |
| Infographic.BuildLines | backend/app/services/infographic.py:70-85 | the lines loop builds the header, one element per bullet at y = 160 + 36k, and the closing tag |
| Infographic.SvgShape | backend/app/services/infographic.py:70-87 | there are 7 lines more than bullets; the title is line 3; the SVG starts `<svg` and ends `</svg>` |
| Infographic.SvgBullets | backend/app/services/infographic.py:78-83 | line 6+k is the text element of bullet k, escaped, at y = 160+36k |
| Infographic.Render | backend/app/services/infographic.py:33-87 | rendering gives the specified SVG and layout metadata |
| Infographic.RenderedTitleReadsBack | backend/app/services/infographic.py:34 | the title reads back to the stripped prompt cut to 80 characters, and holds no raw markup |
| Infographic.RenderedMeta | backend/app/services/infographic.py:61-68 | the metadata echoes the sources, with version 2, "mvp-svg-template" and one claim per bullet |
| Infographic.RenderedSvg | backend/app/services/infographic.py:70-87 | the SVG is a whole `<svg>` document with one text element per bullet |
| Storage.RStripSlash | backend/app/services/storage.py:28 | rstrip("/") removes exactly the trailing slashes |
| Storage.NewStorage | backend/app/services/storage.py:26-28 | the base url keeps no trailing '/' and is a prefix of the given one, followed there only by slashes |
| Storage.SaveBytesOutcome | backend/app/services/storage.py:30-45 | an empty or absolute path fails first; an accepted path is within the root, with url base + "/" + rel_path |
| Storage.ResolveNamed | backend/app/services/storage.py:34 | resolving a path without ".." appends its named segments |
| Storage.NamedOfPlain | backend/app/services/storage.py:34 | a path of plain names resolves to exactly those names |
| Storage.PlainPathAccepted | backend/app/services/storage.py:30-45 | a relative path without ".." is stored below the root at its own segments |
| Storage.ParentPathRejected | backend/app/services/storage.py:34-37 | "../name" escapes the root and is rejected |
| Records.OrElse | backend/app/services/research_worker.py:50-52 | `a or b`: a when it is truthy, b otherwise |
| ResearchWorker.Collected | backend/app/services/research_worker.py:38-43 | the ingest loop keeps at most as many pairs as hits attempted |
| ResearchWorker.CollectedAreSuccesses | backend/app/services/research_worker.py:38-43 | the kept pairs are exactly the hits whose ingest succeeded, in hit order |
| ResearchWorker.AllSucceededAllKept | backend/app/services/research_worker.py:38-43 | when every ingest succeeds, every attempted hit is kept |
| ResearchWorker.NewRowsFallbacks | backend/app/services/research_worker.py:46-56 | each source has the ingested url, `ing.title or h.title`, `ing.snippet or h.snippet` and confidence 1.0 |
| ResearchWorker.WorkerPathSegments | backend/app/services/research_worker.py:86 | the storage path splits into "sessions", the id and "infographic.svg" |
| ResearchWorker.WorkerPathAccepted | backend/app/services/research_worker.py:84-88 | the worker's path is always accepted and stored at root/sessions/{id}/infographic.svg |
| ResearchWorker.IngestHits | backend/app/services/research_worker.py:36-43 | the ingest loop skips failed hits and keeps the rest in order |
| ResearchWorker.Persist | backend/app/services/research_worker.py:46-64 | one source per kept pair, then exactly one "Collected n sources." message, even for n = 0 |
| ResearchWorker.RunResearchAndRender | backend/app/services/research_worker.py:24-110 | a missing session gives the "missing" payload; otherwise the sources, message, single infographic, "completed" status and result payload |
| ResearchWorker.CreatedBounded | backend/app/services/research_worker.py:38-110 | sources_created equals the rows added and is at most the hits attempted |
| ApiIngest.Updated | backend/app/api/ingest.py:69-73 | the title is replaced by ingested.title[:500] only when truthy; the snippet is overwritten; fetched_at is set |
| ApiIngest.StoppedStays | backend/app/api/ingest.py:58-59 | once max_sources are processed, no later source changes anything |
| ApiIngest.TallyBounds | backend/app/api/ingest.py:55-86 | processed ≤ max_sources; processed + skipped ≤ sources seen, with fewer only after the stop |
| ApiIngest.SourcesAfter | backend/app/api/ingest.py:57-73 | a source with a snippet, a failed fetch, or after the stop is unchanged; any other changed source is its updated form |
| ApiIngest.RoomForAll | backend/app/api/ingest.py:57-73 | with room for all, every fillable source is updated and processed counts exactly those |
| ApiIngest.IngestLoop | backend/app/api/ingest.py:55-73 | the loop, with its break and continues, ends in the loop specification's state |
| ApiIngest.IngestSourcesForSession | backend/app/api/ingest.py:34-86 | 404 for a missing or foreign session; otherwise the sources are updated, and the message and "ingested" status are written iff processed > 0 |
| ApiSearch.CountUrl | backend/app/api/search.py:57-60 | the duplicate query finds no row exactly when no row has the url |
| ApiSearch.AttachUpto | backend/app/api/search.py:54-72 | after n results, created ≤ n rows have been appended |
| ApiSearch.AttachDedupes | backend/app/api/search.py:55-72 | with distinct urls to begin with, the loop never fails and the urls stay distinct |
| ApiSearch.AttachCovers | backend/app/api/search.py:55-72 | afterwards every result's url is among the session's sources |
| ApiSearch.AttachNumbers | backend/app/api/search.py:62-72 | existing rows are kept; new rows have consecutive ids, no confidence and fetched_at = now |
| ApiSearch.AttachRows | backend/app/api/search.py:54-72 | the rows after the loop are the existing ones, then one row per result whose url neither an existing row nor an earlier result has, in result order, with ids firstId, firstId + 1, … and created equal to their number |
| ApiSearch.AddedAtMostFound | backend/app/api/search.py:54-86 | a result is added exactly when no source has its url; added ≤ found |
| ApiSearch.AttachResults | backend/app/api/search.py:54-72 | the dedupe loop ends in the attach specification's state |
| ApiSearch.StaysFailed | backend/app/api/search.py:57-60 | once the duplicate query has raised, the request stays failed |
| ApiSearch.SearchAndAttachSources | backend/app/api/search.py:38-86 | 404, 429 with the message, or 502, and no write on failure; otherwise the sources, the message and "sourced" iff created > 0, and {added, found} |
| ApiSessions.NotFoundCases | backend/app/api/sessions.py:108-114 | 404 for a missing session or a missing image url; success needs both |
| ApiSessions.LocalUrlServedFromDisk | backend/app/api/sessions.py:123-142 | a url under the stripped media base url is read from the rest of the url, before any http check |
| ApiSessions.StoredUrlIsLocal | backend/app/api/sessions.py:123-142 | a url the storage hands out is exported exactly when its file is read |
| ApiSessions.RemoteUrlRedirects | backend/app/api/sessions.py:145-146 | any other http(s) url is redirected to |
| ApiSessions.DataUrlBody | backend/app/api/sessions.py:149-164 | 409 for a non-data url, 500 for a data url without ',', otherwise the body after the first ',' |
| ApiSessions.DataBranch | backend/app/api/sessions.py:152-164 | a data url is exported as what follows its first ',' |
| ApiSessions.DataUrlRoundTrip | backend/app/api/sessions.py:152-164 | a body wrapped as a data url is exported unchanged, named infographic-session-{id}.svg |
| ApiSessions.StoredUrlFailsAsWritten | backend/app/api/sessions.py:123-134 | as written, every stored local url ends in a 500 |
| ApiMetrics.ClampBounds | backend/app/api/metrics.py:33 | days is clamped into [1, 365]; values in range are kept |
| ApiMetrics.CountInWindow | backend/app/api/metrics.py:36-42 | the count is at most the number of rows |
| ApiMetrics.MetricsShape | backend/app/api/metrics.py:44-58 | eligible iff ≥ 1 session, two-plus iff ≥ 2, two-plus ≤ eligible, rate 1.0 iff two-plus else 0.0 |
| ApiMetrics.CountIsOwn | backend/app/api/metrics.py:38 | other users' sessions are never counted |
| ApiMetrics.CountMonotone | backend/app/api/metrics.py:39 | an earlier window start counts at least as many sessions |
| ApiMetrics.LongerWindowCountsMore | backend/app/api/metrics.py:33-42 | a longer requested window never lowers the count |
| SourceSchema.TitleValidation | backend/app/schemas/sources.py:14-21 | accepted iff not blank and ≤ 500 characters stripped, with both error messages; returns the stripped title |
| SourceSchema.TitleIdempotent | backend/app/schemas/sources.py:16-21 | re-validating an accepted title returns it unchanged |
| HistoryFilter.FilterIsSubsequence | frontend/src/ui/historyFilter.ts:20 | filter keeps exactly the satisfying elements, at increasing positions |
| HistoryFilter.StageMatchesSource | frontend/src/ui/historyFilter.ts:18-43 | each stage filters by its own test when given, and is the identity otherwise |
| HistoryFilter.SourceOrder | frontend/src/ui/historyFilter.ts:15-45 | the function is the four stages, topic, tag, from and to, in order |
| HistoryFilter.StagesAreConjunction | frontend/src/ui/historyFilter.ts:15-45 | stages applied one after another equal one filter by their conjunction |
| HistoryFilter.ApplyIsMatchFilter | frontend/src/ui/historyFilter.ts:15-45 | the result is one filter by "matches every given filter" |
| HistoryFilter.OrderIndependent | frontend/src/ui/historyFilter.ts:15-45 | any order of the four stages gives the same result |
| HistoryFilter.ResultIsSubsequence | frontend/src/ui/historyFilter.ts:15-45 | the result is an order-preserving subsequence of the input |
| HistoryFilter.KeptAreMatching | frontend/src/ui/historyFilter.ts:15-45 | a position is kept exactly when its session matches |
| HistoryFilter.MembershipIff | frontend/src/ui/historyFilter.ts:15-45 | a session is in the result iff it is an input session that matches |
| HistoryFilter.KeptSatisfiesFilters | frontend/src/ui/historyFilter.ts:18-43 | a kept session contains the topic and "#"+tag, and its created_at lies from the from day's start to the to day's 23:59:59.999 |
| HistoryFilter.UnparsedDatesIgnored | frontend/src/ui/historyFilter.ts:28-43 | a date that is empty or does not parse is ignored |
| HistoryFilter.BlankKeys | frontend/src/ui/historyFilter.ts:18-26 | a blank topic or tag normalises to nothing |
| HistoryFilter.NoFiltersKeepAll | frontend/src/ui/historyFilter.ts:15-45 | with no filter given, or only blank ones, the input is returned |
| HistoryFilter.HashTagKey | frontend/src/ui/historyFilter.ts:23 | the key of "#" + tag drops the '#' and lower-cases |
| HistoryFilter.PlainTagKey | frontend/src/ui/historyFilter.ts:23 | the key of a plain tag is the tag lower-cased |
| HistoryFilter.HashTagEquivalent | frontend/src/ui/historyFilter.ts:23-26 | "#ev" and "ev" give the same tag key |
| HistoryFilter.HashTagSameResult | frontend/src/ui/historyFilter.ts:23-26 | hence the whole filter ignores one leading '#' on the tag |

## Findings

| source | as written | input that shows it | evidently intended | confidence | as-written member | corrected member |
|---|---|---|---|---|---|---|
| backend/app/api/sessions.py:127 | `storage.resolve(rel)` calls a method LocalMediaStorage does not have. The AttributeError is not a ValueError, so the request ends in a 500 | any session whose image_url the storage returned, e.g. `http://localhost:8000/media/sessions/1/infographic.svg` | map the relative path to the file under media_root; return its bytes, or 404 when it is missing | not executed | ApiSessions.StoredUrlFailsAsWritten | ApiSessions.StoredUrlIsLocal |

The rest of the model uses `ApiSessions.ExportInfographicSvg`, whose local lookup is a parameter.

## Left out

- The network: upstream HTTP exchanges are inputs, either a page body or an error. Latency is not modelled. The search cache is stamped at the time the token is granted; the fetch cache at the call's `now`.
- The wall clock: `time.time()` and `datetime.utcnow()` are `now` parameters.
- asyncio: the sleeps of `acquire` are modelled as a sequence of poll times. The job queue's lock and `create_task` are left out; the runner's steps are sequential method calls.
- The database and ORM: rows live in memory. A session owns its sources, messages and infographic. New row ids are given by the caller as consecutive numbers.
- SQLAlchemy autoflush: the search endpoint's duplicate query is taken to see the rows added earlier in the same request. This is autoflush's default, so duplicate urls within one result list are de-duplicated. Two matching rows make the query raise: a 500 with nothing written.
- SHA-256: cache keys are the prefixed strings the source hashes, `"ddg:" + query + ":" + max_results` and `"fetch:" + url`. This assumes the hash has no collisions.
- The filesystem: `mkdir`, the write, the atomic replace and the symlink semantics of `Path.resolve` are left out. Paths resolve lexically, and the media root is given already resolved.
- `LocalMediaStorage.resolve`, called at backend/app/api/sessions.py:127, is not part of this model because it does not exist. The corrected export takes the local lookup as a parameter.
- `settings.search_max_results`, used by the research worker, is not defined in the configuration. It is a parameter.
- Floats: confidences, the adoption rate and limiter tokens are `real`, without IEEE rounding.
- Unicode: strings are sequences of characters, with ASCII lower-casing and the ASCII whitespace of `str.split`/`strip` and JavaScript `trim`. The UTF-8 encoding of the SVG is not modelled.
- Dates in the history filter: the YYYY-MM-DD to local-midnight parse is a parameter, and `created_at` is its parsed millisecond value. The end of the `to` day is midnight + 86 399 999 ms, which ignores daylight-saving days.
- RateLimitError: the search client never raises it. The search endpoint's 429 branch is modelled from what the client call gave.
- ApiIngest.IngestSourcesForSession: exceptions other than FetchError raised by ingest are not modelled; each source's outcome is a result or a FetchError.
- ResearchWorker.RunResearchAndRender: the search and each hit's ingest are inputs. A search failure is returned as a failure and writes nothing, where the source raises out of the job.
- Features that tests expect but the code lacks are not modelled: content-quality checks, `acquire_or_raise`, `timing_ms`, extra FetchedSource fields, prompt validation, OAuth state helpers.
