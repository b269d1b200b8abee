/**
 * The search endpoint (backend/app/api/search.py): run a web search and
 * attach each result as a Source of the session, skipping URLs the session
 * already has. What the search client returned or raised is an input; the
 * session's source rows stand for the table the duplicate query reads,
 * and a row added earlier in the same request is seen by later queries
 * (the database session flushes before each query).
 */
module ApiSearch {
  import opened Wrappers
  import opened Strings
  import opened WebSearch
  import opened Records
  import opened Http

  /** What client.search raised: RateLimitError (with its message) or anything else. */
  datatype SearchError = RateLimitError(message: string) | OtherError

  /** The loop's state: the session's rows so far and how many were created. */
  datatype Attached = Attached(rows: seq<SourceRow>, created: int)

  /** The response body. */
  datatype Added = Added(added: int, found: int)

  /** How many rows have the URL: what the duplicate query selects. */
  function CountUrl(rows: seq<SourceRow>, url: string): (c: nat)
    ensures c <= |rows|
    ensures c == 0 <==> forall k :: 0 <= k < |rows| ==> rows[k].url != url
  {
    if rows == [] then 0
    else CountUrl(rows[..|rows| - 1], url) + (if rows[|rows| - 1].url == url then 1 else 0)
  }

  /** The Source created for a result. */
  function NewRow(r: SearchResult, id: int, now: int): SourceRow {
    SourceRow(id, r.title, r.url, r.snippet, None, Some(now))
  }

  /**
   * The state after the first n results: None once a duplicate query found
   * two rows or more (scalar_one_or_none raises and nothing is committed).
   */
  function AttachUpto(existing: seq<SourceRow>, results: seq<SearchResult>, firstId: int, now: int, n: nat): (a: Option<Attached>)
    requires n <= |results|
    ensures a.Some? ==> 0 <= a.value.created <= n && |a.value.rows| == |existing| + a.value.created
  {
    if n == 0 then Some(Attached(existing, 0))
    else match AttachUpto(existing, results, firstId, now, n - 1)
      case None => None
      case Some(a) => AttachStep(a, results[n - 1], firstId, now)
  }

  /**
   * One turn of the loop: the duplicate query raises on two rows or more,
   * skips the result on one, and adds a new row otherwise.
   */
  function AttachStep(a: Attached, r: SearchResult, firstId: int, now: int): (b: Option<Attached>)
    ensures b.Some? ==> b.value.created - a.created == |b.value.rows| - |a.rows| <= 1 && b.value.created >= a.created
  {
    var c := CountUrl(a.rows, r.url);
    if c >= 2 then None
    else if c == 1 then Some(a)
    else Some(Attached(a.rows + [NewRow(r, firstId + a.created, now)], a.created + 1))
  }

  /** No two rows share a URL. */
  predicate DistinctUrls(rows: seq<SourceRow>) {
    forall i, j :: 0 <= i < j < |rows| ==> rows[i].url != rows[j].url
  }

  lemma {:induction false} CountDistinct(rows: seq<SourceRow>, url: string)
    requires DistinctUrls(rows)
    ensures CountUrl(rows, url) <= 1
  {
    if rows != [] {
      var n := |rows| - 1;
      CountDistinct(rows[..n], url);
      if rows[n].url == url {
        assert forall k :: 0 <= k < n ==> rows[..n][k].url != url by {
          forall k | 0 <= k < n ensures rows[..n][k].url != url {
            assert rows[..n][k] == rows[k];
          }
        }
      }
    }
  }

  lemma DistinctAppend(rows: seq<SourceRow>, row: SourceRow)
    requires DistinctUrls(rows) && forall k :: 0 <= k < |rows| ==> rows[k].url != row.url
    ensures DistinctUrls(rows + [row])
  {
    var rows' := rows + [row];
    forall i, j | 0 <= i < j < |rows'| ensures rows'[i].url != rows'[j].url {
      assert rows'[i] == rows[i];
    }
  }

  /**
   * De-duplication: when the session's URLs are distinct to begin with, the
   * loop never fails and leaves the URLs distinct.
   */
  lemma {:induction false} AttachDedupes(existing: seq<SourceRow>, results: seq<SearchResult>, firstId: int, now: int, n: nat)
    requires n <= |results| && DistinctUrls(existing)
    ensures var a := AttachUpto(existing, results, firstId, now, n);
      a.Some? && DistinctUrls(a.value.rows)
  {
    if n > 0 {
      AttachDedupes(existing, results, firstId, now, n - 1);
      var a := AttachUpto(existing, results, firstId, now, n - 1).value;
      var r := results[n - 1];
      CountDistinct(a.rows, r.url);
      if CountUrl(a.rows, r.url) == 0 {
        DistinctAppend(a.rows, NewRow(r, firstId + a.created, now));
      }
    }
  }

  /** Some row has the URL. */
  predicate HasUrl(rows: seq<SourceRow>, url: string) {
    exists j :: 0 <= j < |rows| && rows[j].url == url
  }

  lemma HasUrlAppend(rows: seq<SourceRow>, row: SourceRow, url: string)
    requires HasUrl(rows, url) || row.url == url
    ensures HasUrl(rows + [row], url)
  {
    if row.url == url {
      assert (rows + [row])[|rows|] == row;
    } else {
      var j :| 0 <= j < |rows| && rows[j].url == url;
      assert (rows + [row])[j] == rows[j];
    }
  }

  /**
   * One successful turn keeps every URL already covered and covers the
   * result's URL: the rows are kept when the URL is already there, and one
   * new row with the URL is appended otherwise.
   */
  lemma AttachStepCovers(a: Attached, r: SearchResult, firstId: int, now: int, results: seq<SearchResult>, n: nat)
    requires 0 < n <= |results| && r == results[n - 1]
    requires forall k :: 0 <= k < n - 1 ==> HasUrl(a.rows, results[k].url)
    requires AttachStep(a, r, firstId, now).Some?
    ensures forall k :: 0 <= k < n ==> HasUrl(AttachStep(a, r, firstId, now).value.rows, results[k].url)
  {
    if CountUrl(a.rows, r.url) != 0 {
      assert HasUrl(a.rows, r.url);
    } else {
      CoversAppend(a.rows, NewRow(r, firstId + a.created, now), results, n);
    }
  }

  /** Afterwards every result's URL is among the session's rows. */
  lemma {:induction false} AttachCovers(existing: seq<SourceRow>, results: seq<SearchResult>, firstId: int, now: int, n: nat)
    requires n <= |results| && AttachUpto(existing, results, firstId, now, n).Some?
    ensures var rows := AttachUpto(existing, results, firstId, now, n).value.rows;
      forall k :: 0 <= k < n ==> HasUrl(rows, results[k].url)
  {
    if n > 0 {
      AttachCovers(existing, results, firstId, now, n - 1);
      var a := AttachUpto(existing, results, firstId, now, n - 1).value;
      AttachUptoNext(existing, results, firstId, now, n - 1, a);
      AttachStepCovers(a, results[n - 1], firstId, now, results, n);
    }
  }

  lemma CoversAppend(prev: seq<SourceRow>, row: SourceRow, results: seq<SearchResult>, n: nat)
    requires 0 < n <= |results| && row.url == results[n - 1].url
    requires forall k :: 0 <= k < n - 1 ==> HasUrl(prev, results[k].url)
    ensures forall k :: 0 <= k < n ==> HasUrl(prev + [row], results[k].url)
  {
    forall k | 0 <= k < n
      ensures HasUrl(prev + [row], results[k].url)
    {
      HasUrlAppend(prev, row, results[k].url);
    }
  }

  /**
   * The rows after the existing ones are the created ones: consecutive ids
   * from firstId, no confidence, fetched now.
   */
  lemma {:induction false} AttachNumbers(existing: seq<SourceRow>, results: seq<SearchResult>, firstId: int, now: int, n: nat)
    requires n <= |results| && AttachUpto(existing, results, firstId, now, n).Some?
    ensures var rows := AttachUpto(existing, results, firstId, now, n).value.rows;
      && rows[..|existing|] == existing
      && forall j :: |existing| <= j < |rows| ==>
           rows[j].id == firstId + (j - |existing|) && rows[j].confidence.None? && rows[j].fetchedAt == Some(now)
  {
    if n > 0 {
      AttachNumbers(existing, results, firstId, now, n - 1);
      var a := AttachUpto(existing, results, firstId, now, n - 1).value;
      AttachUptoNext(existing, results, firstId, now, n - 1, a);
      AttachStepNumbers(existing, a, results[n - 1], firstId, now);
    }
  }

  /** The rows are the existing ones followed by rows created as the loop creates them. */
  predicate CreatedAfter(existing: seq<SourceRow>, rows: seq<SourceRow>, firstId: int, now: int) {
    && |existing| <= |rows|
    && rows[..|existing|] == existing
    && forall j :: |existing| <= j < |rows| ==>
         rows[j].id == firstId + (j - |existing|) && rows[j].confidence.None? && rows[j].fetchedAt == Some(now)
  }

  lemma AttachStepNumbers(existing: seq<SourceRow>, a: Attached, r: SearchResult, firstId: int, now: int)
    requires CreatedAfter(existing, a.rows, firstId, now) && |a.rows| == |existing| + a.created
    requires AttachStep(a, r, firstId, now).Some?
    ensures CreatedAfter(existing, AttachStep(a, r, firstId, now).value.rows, firstId, now)
  {
    if CountUrl(a.rows, r.url) == 0 {
      var rows := a.rows + [NewRow(r, firstId + a.created, now)];
      assert rows[..|existing|] == a.rows[..|existing|];
      forall j | |existing| <= j < |rows|
        ensures rows[j].id == firstId + (j - |existing|) && rows[j].confidence.None? && rows[j].fetchedAt == Some(now)
      {
        if j < |a.rows| {
          assert rows[j] == a.rows[j];
        }
      }
    }
  }

  /** Some result has the URL. */
  predicate InResults(rs: seq<SearchResult>, url: string) {
    exists i :: 0 <= i < |rs| && rs[i].url == url
  }

  /**
   * The results the loop should add, in order: each one whose URL neither an
   * existing row nor an earlier result has.
   */
  function FirstNew(existing: seq<SourceRow>, rs: seq<SearchResult>): seq<SearchResult>
    decreases |rs|
  {
    if rs == [] then []
    else
      var r := rs[|rs| - 1];
      var prev := FirstNew(existing, rs[..|rs| - 1]);
      if HasUrl(existing, r.url) || InResults(rs[..|rs| - 1], r.url) then prev else prev + [r]
  }

  /** The rows created for the new results: consecutive ids from firstId, fetched now. */
  function NewRows(adds: seq<SearchResult>, firstId: int, now: int): (rows: seq<SourceRow>)
    ensures |rows| == |adds|
  {
    seq(|adds|, j requires 0 <= j < |adds| => NewRow(adds[j], firstId + j, now))
  }

  /** Between them, the existing rows and the new results have every URL the results have. */
  lemma {:induction false} FirstNewCovers(existing: seq<SourceRow>, rs: seq<SearchResult>, url: string)
    ensures HasUrl(existing, url) || InResults(FirstNew(existing, rs), url)
      <==> HasUrl(existing, url) || InResults(rs, url)
    decreases |rs|
  {
    if rs != [] {
      var front := rs[..|rs| - 1];
      var r := rs[|rs| - 1];
      var prev := FirstNew(existing, front);
      FirstNewCovers(existing, front, url);
      InResultsSnoc(front, r, url);
      assert rs == front + [r];
      if !(HasUrl(existing, r.url) || InResults(front, r.url)) {
        InResultsSnoc(prev, r, url);
      }
    }
  }

  lemma InResultsSnoc(rs: seq<SearchResult>, r: SearchResult, url: string)
    ensures InResults(rs + [r], url) <==> InResults(rs, url) || r.url == url
  {
    if InResults(rs, url) {
      var i :| 0 <= i < |rs| && rs[i].url == url;
      assert (rs + [r])[i] == rs[i];
    }
    if r.url == url {
      assert (rs + [r])[|rs|] == r;
    }
    if InResults(rs + [r], url) && r.url != url {
      var i :| 0 <= i < |rs + [r]| && (rs + [r])[i].url == url;
      assert i < |rs| && rs[i] == (rs + [r])[i];
    }
  }

  /** A row of existing + created rows has the URL exactly when an existing row or a new result has it. */
  lemma HasUrlNewRows(existing: seq<SourceRow>, adds: seq<SearchResult>, firstId: int, now: int, url: string)
    ensures HasUrl(existing + NewRows(adds, firstId, now), url) <==> HasUrl(existing, url) || InResults(adds, url)
  {
    var rows := existing + NewRows(adds, firstId, now);
    if HasUrl(rows, url) {
      var j :| 0 <= j < |rows| && rows[j].url == url;
      if j < |existing| {
        assert existing[j] == rows[j];
      } else {
        assert adds[j - |existing|].url == url;
      }
    }
    if HasUrl(existing, url) {
      var j :| 0 <= j < |existing| && existing[j].url == url;
      assert rows[j] == existing[j];
    }
    if InResults(adds, url) {
      var i :| 0 <= i < |adds| && adds[i].url == url;
      assert rows[|existing| + i].url == url;
    }
  }

  /** One turn of the loop adds the row of its result exactly when the result is new. */
  lemma AttachRowsStep(existing: seq<SourceRow>, results: seq<SearchResult>, n: nat, a: Attached, firstId: int, now: int)
    requires 0 < n <= |results|
    requires a.rows == existing + NewRows(FirstNew(existing, results[..n - 1]), firstId, now)
    requires a.created == |FirstNew(existing, results[..n - 1])|
    requires AttachStep(a, results[n - 1], firstId, now).Some?
    ensures var b := AttachStep(a, results[n - 1], firstId, now).value;
      && b.rows == existing + NewRows(FirstNew(existing, results[..n]), firstId, now)
      && b.created == |FirstNew(existing, results[..n])|
  {
    var r := results[n - 1];
    var adds := FirstNew(existing, results[..n - 1]);
    assert results[..n][..n - 1] == results[..n - 1] && results[..n][n - 1] == r;
    HasUrlNewRows(existing, adds, firstId, now, r.url);
    FirstNewCovers(existing, results[..n - 1], r.url);
    if CountUrl(a.rows, r.url) == 0 {
      assert !HasUrl(a.rows, r.url);
      assert NewRows(adds + [r], firstId, now) == NewRows(adds, firstId, now) + [NewRow(r, firstId + a.created, now)];
    } else {
      assert HasUrl(a.rows, r.url);
    }
  }

  /**
   * The session's rows after n results: the existing rows, then one new row
   * per result whose URL was not there yet, in the order of the results,
   * numbered from firstId.
   */
  lemma {:induction false} AttachRows(existing: seq<SourceRow>, results: seq<SearchResult>, firstId: int, now: int, n: nat)
    requires n <= |results| && AttachUpto(existing, results, firstId, now, n).Some?
    ensures var a := AttachUpto(existing, results, firstId, now, n).value;
      && a.rows == existing + NewRows(FirstNew(existing, results[..n]), firstId, now)
      && a.created == |FirstNew(existing, results[..n])|
  {
    if n > 0 {
      AttachRows(existing, results, firstId, now, n - 1);
      var a := AttachUpto(existing, results, firstId, now, n - 1).value;
      AttachUptoNext(existing, results, firstId, now, n - 1, a);
      AttachRowsStep(existing, results, n, a, firstId, now);
    }
  }

  /**
   * A result is added exactly when no row so far has its URL; whatever
   * happens, no more rows are added than results were found.
   */
  lemma AddedAtMostFound(existing: seq<SourceRow>, results: seq<SearchResult>, firstId: int, now: int, n: nat)
    requires 0 < n <= |results|
    requires AttachUpto(existing, results, firstId, now, n - 1).Some?
    requires AttachUpto(existing, results, firstId, now, n).Some?
    ensures var a, a' := AttachUpto(existing, results, firstId, now, n - 1).value, AttachUpto(existing, results, firstId, now, n).value;
      && a'.created <= n
      && (a'.created == a.created + 1 <==> forall k :: 0 <= k < |a.rows| ==> a.rows[k].url != results[n - 1].url)
      && (a'.created == a.created ==> a'.rows == a.rows)
  {
  }

  function AddedMessage(created: int, query: string): MessageRow {
    MessageRow("assistant", "Added " + IntToString(created) + " sources from web search: '" + query + "'.")
  }

  /** The loop over the results. */
  method AttachResults(existing: seq<SourceRow>, results: seq<SearchResult>, firstId: int, now: int)
      returns (a: Option<Attached>)
    ensures a == AttachUpto(existing, results, firstId, now, |results|)
  {
    var rows := existing;
    var created := 0;
    var i := 0;
    while i < |results|
      invariant 0 <= i <= |results|
      invariant AttachUpto(existing, results, firstId, now, i) == Some(Attached(rows, created))
    {
      var r := results[i];
      ghost var prev := Attached(rows, created);
      AttachUptoNext(existing, results, firstId, now, i, prev);
      var matches := CountUrl(rows, r.url);
      if matches >= 2 {
        StaysFailed(existing, results, firstId, now, i + 1, |results|);
        return None;
      }
      if matches == 0 {
        rows := rows + [NewRow(r, firstId + created, now)];
        created := created + 1;
      }
      assert AttachStep(prev, r, firstId, now) == Some(Attached(rows, created));
      i := i + 1;
    }
    a := Some(Attached(rows, created));
  }

  /** The state after one more result is one turn of the loop on the state before. */
  lemma AttachUptoNext(existing: seq<SourceRow>, results: seq<SearchResult>, firstId: int, now: int, i: nat, a: Attached)
    requires i < |results| && AttachUpto(existing, results, firstId, now, i) == Some(a)
    ensures AttachUpto(existing, results, firstId, now, i + 1) == AttachStep(a, results[i], firstId, now)
  {
  }

  /** Once the loop has raised it stays raised. */
  lemma {:induction false} StaysFailed(existing: seq<SourceRow>, results: seq<SearchResult>, firstId: int, now: int, i: nat, n: nat)
    requires i <= n <= |results|
    requires AttachUpto(existing, results, firstId, now, i).None?
    ensures AttachUpto(existing, results, firstId, now, n).None?
  {
    if n > i {
      StaysFailed(existing, results, firstId, now, i, n - 1);
    }
  }

  /**
   * search_and_attach_sources. The lookup gives the session with the
   * requested id, or null; it must also belong to the caller. search is
   * what client.search(query, max_results) returned or raised. Nothing is
   * written unless the request succeeds.
   */
  method SearchAndAttachSources(session: ResearchSession?, userId: int, query: string,
                                search: Result<seq<SearchResult>, SearchError>, firstId: int, now: int)
      returns (r: Result<Added, HttpError>)
    modifies session
    ensures session == null || session.userId != userId ==> r == Failure(SessionNotFound)
    ensures session != null && session.userId == userId && search.Failure? ==>
      r == Failure(match search.error
                   case RateLimitError(m) => HttpError(429, m)
                   case OtherError => HttpError(502, "Search failed"))
    ensures session != null && r.Failure? ==> unchanged(session)
    ensures session != null && session.userId == userId && search.Success? ==>
      var a := AttachUpto(old(session.sources), search.value, firstId, now, |search.value|);
      && (a.None? ==> r == Failure(HttpError(500, "Internal Server Error")))
      && (a.Some? ==>
          && session.sources == a.value.rows
          && session.messages == old(session.messages) + (if a.value.created != 0 then [AddedMessage(a.value.created, query)] else [])
          && session.status == (if a.value.created != 0 then "sourced" else old(session.status))
          && session.infographic == old(session.infographic)
          && r == Success(Added(a.value.created, |search.value|)))
  {
    if session == null || session.userId != userId {
      return Failure(SessionNotFound);
    }
    if search.Failure? {
      match search.error
      case RateLimitError(m) =>
        return Failure(HttpError(429, m));
      case OtherError =>
        return Failure(HttpError(502, "Search failed"));
    }
    var results := search.value;
    var a := AttachResults(session.sources, results, firstId, now);
    if a.None? {
      return Failure(HttpError(500, "Internal Server Error"));
    }
    session.sources := a.value.rows;
    if a.value.created != 0 {
      session.messages := session.messages + [MessageRow("assistant", "Added " + IntToString(a.value.created) + " sources from web search: '" + query + "'.")];
      session.status := "sourced";
    }
    r := Success(Added(a.value.created, |results|));
  }
}
