/**
 * The end-to-end research job (backend/app/services/research_worker.py):
 * search, ingest the first hits (skipping any that fail), persist one
 * source per ingested hit and a message, render the infographic, store it
 * and attach it to the session. The search result and each hit's ingest
 * outcome are inputs; the database is the in-memory session of Records.
 */
module ResearchWorker {
  import opened Wrappers
  import opened Strings
  import opened WebSearch
  import opened Ingest
  import opened Infographic
  import opened Storage
  import opened Records
  import opened Jobs

  /** A hit and what ingesting its URL gave. */
  datatype Pair = Pair(hit: SearchResult, ing: IngestedSource)

  /** The pairs the ingest loop keeps, in hit order: the hits whose ingest succeeded. */
  function Collected(hits: seq<SearchResult>, outcomes: seq<Result<IngestedSource, string>>): (ps: seq<Pair>)
    requires |outcomes| == |hits|
    ensures |ps| <= |hits|
  {
    if hits == [] then []
    else
      var n := |hits| - 1;
      Collected(hits[..n], outcomes[..n]) + (if outcomes[n].Success? then [Pair(hits[n], outcomes[n].value)] else [])
  }

  /** The positions of the successful outcomes, in increasing order. */
  function Successes(outcomes: seq<Result<IngestedSource, string>>): (ix: seq<nat>)
    ensures forall k :: 0 <= k < |ix| ==> ix[k] < |outcomes| && outcomes[ix[k]].Success?
    ensures forall k, l :: 0 <= k < l < |ix| ==> ix[k] < ix[l]
  {
    if outcomes == [] then []
    else
      var n := |outcomes| - 1;
      Successes(outcomes[..n]) + (if outcomes[n].Success? then [n] else [])
  }

  /**
   * The kept pairs are exactly the successful hits, in hit order: pair k is
   * the hit at the k-th successful position with its ingested source.
   */
  lemma {:induction false} CollectedAreSuccesses(hits: seq<SearchResult>, outcomes: seq<Result<IngestedSource, string>>)
    requires |outcomes| == |hits|
    ensures var ps, ix := Collected(hits, outcomes), Successes(outcomes);
      && |ps| == |ix|
      && forall k :: 0 <= k < |ps| ==> ps[k] == Pair(hits[ix[k]], outcomes[ix[k]].value)
  {
    if hits != [] {
      var n := |hits| - 1;
      CollectedAreSuccesses(hits[..n], outcomes[..n]);
      var ps, ix := Collected(hits, outcomes), Successes(outcomes);
      var ps', ix' := Collected(hits[..n], outcomes[..n]), Successes(outcomes[..n]);
      forall k | 0 <= k < |ps| ensures ps[k] == Pair(hits[ix[k]], outcomes[ix[k]].value) {
        if k < |ps'| {
          assert ps[k] == ps'[k] && ix[k] == ix'[k];
          assert hits[..n][ix'[k]] == hits[ix[k]];
          assert outcomes[..n][ix'[k]] == outcomes[ix[k]];
        }
      }
    }
  }

  /** When every ingest succeeds, every attempted hit is kept. */
  lemma {:induction false} AllSucceededAllKept(hits: seq<SearchResult>, outcomes: seq<Result<IngestedSource, string>>)
    requires |outcomes| == |hits|
    requires forall k :: 0 <= k < |outcomes| ==> outcomes[k].Success?
    ensures |Collected(hits, outcomes)| == |hits|
  {
    if hits != [] {
      var n := |hits| - 1;
      AllSucceededAllKept(hits[..n], outcomes[..n]);
    }
  }

  /** The Source persisted for a pair: the ingested title or else the hit's, likewise the snippet. */
  function RowFor(p: Pair, id: int, now: int): SourceRow {
    SourceRow(id, if Truthy(p.ing.title) then p.ing.title.value else p.hit.title,
              p.ing.url, OrElse(p.ing.snippet, p.hit.snippet), Some(1.0), Some(now))
  }

  /** The rows added for the kept pairs, numbered from firstId. */
  function NewRows(ps: seq<Pair>, firstId: int, now: int): (rows: seq<SourceRow>)
    ensures |rows| == |ps|
  {
    seq(|ps|, k requires 0 <= k < |ps| => RowFor(ps[k], firstId + k, now))
  }

  /**
   * Each new row has the ingested URL, the ingested title when truthy and
   * the hit's title otherwise, the same fallback for the snippet, and
   * confidence 1.0.
   */
  lemma NewRowsFallbacks(ps: seq<Pair>, firstId: int, now: int)
    ensures var rows := NewRows(ps, firstId, now);
      forall k :: 0 <= k < |ps| ==>
        && rows[k].url == ps[k].ing.url
        && rows[k].title == (if Truthy(ps[k].ing.title) then ps[k].ing.title.value else ps[k].hit.title)
        && (Truthy(ps[k].ing.snippet) ==> rows[k].snippet == ps[k].ing.snippet)
        && (!Truthy(ps[k].ing.snippet) ==> rows[k].snippet == ps[k].hit.snippet)
        && rows[k].confidence == Some(1.0) && rows[k].id == firstId + k
  {
  }

  /** The sources list handed to the renderer. */
  function SourcesMeta(rows: seq<SourceRow>): (meta: seq<SourceMeta>)
    ensures |meta| == |rows|
  {
    seq(|rows|, k requires 0 <= k < |rows| =>
      SourceMeta(Some(rows[k].id), Some(rows[k].title), rows[k].url, rows[k].confidence))
  }

  function CollectedMessage(n: int): MessageRow {
    MessageRow("assistant", "Collected " + IntToString(n) + " sources.")
  }

  /** Where the worker stores a session's SVG. */
  function WorkerPath(sessionId: int): string {
    "sessions" + "/" + IntToString(sessionId) + "/" + "infographic.svg"
  }

  function MissingPayload(sessionId: int): Payload {
    map["session_id" := IntValue(sessionId), "status" := StrValue("missing")]
  }

  function DonePayload(sessionId: int, created: int, url: string): Payload {
    map["session_id" := IntValue(sessionId), "status" := StrValue("completed"),
        "sources_created" := IntValue(created), "infographic_url" := StrValue(url)]
  }

  lemma {:induction false} SplitOnAfterSep(a: string, b: string, c: char)
    requires c !in a
    ensures SplitOn(a + [c] + b, c) == [a] + SplitOn(b, c)
  {
    if a == [] {
      assert a + [c] + b == [c] + b;
      assert ([c] + b)[1..] == b;
    } else {
      SplitOnAfterSep(a[1..], b, c);
      assert (a + [c] + b)[1..] == a[1..] + [c] + b;
      assert [a[0]] + a[1..] == a;
    }
  }

  lemma NoSlashInInt(n: int)
    ensures '/' !in IntToString(n)
  {
    var s := IntToString(n);
    if n < 0 {
      assert s == "-" + NatToString(-n);
      forall i | 0 <= i < |s| ensures s[i] != '/' {
        if i > 0 { assert s[i] == NatToString(-n)[i - 1]; }
      }
    }
  }

  /** Three separator-free names joined by the separator split back into themselves. */
  lemma ThreeSegments(a: string, b: string, c: string, sep: char)
    requires sep !in a && sep !in b && sep !in c
    ensures SplitOn(a + [sep] + b + [sep] + c, sep) == [a, b, c]
  {
    SplitOnNoSep(c, sep);
    SplitOnAfterSep(b, c, sep);
    assert a + [sep] + b + [sep] + c == a + [sep] + (b + [sep] + c);
    SplitOnAfterSep(a, b + [sep] + c, sep);
  }

  /** The worker's path splits into "sessions", the id and "infographic.svg". */
  lemma WorkerPathSegments(sessionId: int)
    ensures SplitOn(WorkerPath(sessionId), '/') == ["sessions", IntToString(sessionId), "infographic.svg"]
  {
    var d := IntToString(sessionId);
    NoSlashInInt(sessionId);
    var a: string, c: string := "sessions", "infographic.svg";
    assert '/' !in a && '/' !in c;
    ThreeSegments(a, d, c, '/');
    assert WorkerPath(sessionId) == a + ['/'] + d + ['/'] + c;
  }

  /**
   * The worker's path never escapes the media root: the SVG of a session is
   * always stored at root/sessions/{id}/infographic.svg.
   */
  lemma WorkerPathAccepted(s: LocalMediaStorage, sessionId: int)
    ensures s.SaveBytes(WorkerPath(sessionId))
         == Success(StoredObject(s.baseUrl + "/" + WorkerPath(sessionId),
                                 s.root + ["sessions", IntToString(sessionId), "infographic.svg"]))
  {
    var d := IntToString(sessionId);
    var segs: seq<string> := ["sessions", d, "infographic.svg"];
    WorkerPathSegments(sessionId);
    assert d != ".." && d != "." && d != "" by {
      SignOfString(sessionId);
      if sessionId >= 0 { assert IsDigit(d[0]); }
    }
    assert WorkerPath(sessionId)[0] == 's';
    PlainPathAccepted(s, WorkerPath(sessionId));
    NamedOfPlain(segs);
  }

  /** The ingest loop: the hits whose ingest succeeded, paired with what it gave. */
  method IngestHits(attempted: seq<SearchResult>, outcomes: seq<Result<IngestedSource, string>>)
      returns (ingested: seq<Pair>)
    requires |outcomes| == |attempted|
    ensures ingested == Collected(attempted, outcomes)
  {
    ingested := [];
    var i := 0;
    while i < |attempted|
      invariant 0 <= i <= |attempted|
      invariant ingested == Collected(attempted[..i], outcomes[..i])
    {
      assert attempted[..i + 1][..i] == attempted[..i] && outcomes[..i + 1][..i] == outcomes[..i];
      match outcomes[i] {
        case Failure(_) =>
        case Success(ing) =>
          ingested := ingested + [Pair(attempted[i], ing)];
      }
      i := i + 1;
    }
    assert attempted[..i] == attempted && outcomes[..i] == outcomes;
  }

  /** The persist loop: one Source per kept pair, then the assistant message. */
  method Persist(session: ResearchSession, ingested: seq<Pair>, firstId: int, now: int)
    modifies session
    ensures session.sources == old(session.sources) + NewRows(ingested, firstId, now)
    ensures session.messages == old(session.messages) + [CollectedMessage(|ingested|)]
    ensures session.infographic == old(session.infographic) && session.status == old(session.status)
  {
    var k := 0;
    while k < |ingested|
      invariant 0 <= k <= |ingested|
      invariant session.sources == old(session.sources) + NewRows(ingested[..k], firstId, now)
      invariant session.messages == old(session.messages)
      invariant session.infographic == old(session.infographic) && session.status == old(session.status)
    {
      var p := ingested[k];
      var title := if Truthy(p.ing.title) then p.ing.title.value else p.hit.title;
      session.sources := session.sources + [SourceRow(firstId + k, title, p.ing.url, OrElse(p.ing.snippet, p.hit.snippet), Some(1.0), Some(now))];
      assert NewRows(ingested[..k + 1], firstId, now) == NewRows(ingested[..k], firstId, now) + [RowFor(p, firstId + k, now)];
      k := k + 1;
    }
    assert ingested[..k] == ingested;
    session.messages := session.messages + [MessageRow("assistant", "Collected " + IntToString(|ingested|) + " sources.")];
  }

  /**
   * run_research_and_render. The session lookup gives the session or null;
   * the search result and each attempted hit's ingest outcome are inputs,
   * and new source ids are firstId, firstId+1, ...
   */
  method RunResearchAndRender(session: ResearchSession?, sessionId: int,
                              search: Result<seq<SearchResult>, string>, searchMaxResults: int,
                              outcomes: seq<Result<IngestedSource, string>>,
                              firstId: int, now: int, storage: LocalMediaStorage)
      returns (r: Result<Payload, string>)
    requires session != null ==> session.id == sessionId
    requires search.Success? ==> |outcomes| == |Prefix(search.value, searchMaxResults)|
    modifies session
    ensures session == null ==> r == Success(MissingPayload(sessionId))
    ensures session != null && search.Failure? ==>
      r == Failure(search.error) && unchanged(session)
    ensures session != null && search.Success? ==>
      var ps := Collected(Prefix(search.value, searchMaxResults), outcomes);
      var url := storage.baseUrl + "/" + WorkerPath(sessionId);
      && session.sources == old(session.sources) + NewRows(ps, firstId, now)
      && session.messages == old(session.messages) + [CollectedMessage(|ps|)]
      && session.infographic == Some(InfographicRow(url, Rendered(session.prompt, SourcesMeta(session.sources)).layoutMeta))
      && session.status == "completed"
      && r == Success(DonePayload(sessionId, |ps|, url))
  {
    if session == null {
      return Success(MissingPayload(sessionId));
    }
    if search.Failure? {
      return Failure(search.error);
    }
    var hits := search.value;
    var attempted := Prefix(hits, searchMaxResults);
    // 2) Ingest a few sources, skipping failures.
    var ingested := IngestHits(attempted, outcomes);
    // 3) Persist sources and the assistant message.
    Persist(session, ingested, firstId, now);

    // 4) Render and store the infographic.
    var rendered := Render(session.prompt, SourcesMeta(session.sources));
    var stored := storage.SaveBytes(WorkerPath(session.id));
    WorkerPathAccepted(storage, session.id);
    var url := stored.value.url;
    if session.infographic.Some? {
      session.infographic := Some(session.infographic.value.(imageUrl := url, layoutMeta := rendered.layoutMeta));
    } else {
      session.infographic := Some(InfographicRow(url, rendered.layoutMeta));
    }
    session.status := "completed";
    r := Success(DonePayload(session.id, |ingested|, url));
  }

  /**
   * The result reports as many created sources as rows were added, never
   * more than the hits attempted (at most search_max_results of them).
   */
  lemma CreatedBounded(hits: seq<SearchResult>, searchMaxResults: int, outcomes: seq<Result<IngestedSource, string>>)
    requires |outcomes| == |Prefix(hits, searchMaxResults)|
    ensures var ps := Collected(Prefix(hits, searchMaxResults), outcomes);
      && |NewRows(ps, 0, 0)| == |ps| <= |Prefix(hits, searchMaxResults)| <= |hits|
      && (searchMaxResults >= 0 ==> |ps| <= searchMaxResults)
  {
  }
}
