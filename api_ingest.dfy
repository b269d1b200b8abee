/**
 * The ingest endpoint's loop (backend/app/api/ingest.py): walk the
 * session's sources in order, stop once max_sources have been processed,
 * skip sources that already have a snippet or whose fetch fails, and fill
 * in the others from the ingest pipeline. What ingesting each source's URL
 * gives is an input, aligned with the sources; the pipeline itself is the
 * Ingest module.
 */
module ApiIngest {
  import opened Wrappers
  import opened Strings
  import opened SourceFetcher
  import opened Ingest
  import opened Records
  import opened Http

  /** The longest title the endpoint writes back. */
  const MaxTitleChars := 500

  /** The loop's state: the sources as updated so far and the two counters. */
  datatype Tally = Tally(sources: seq<SourceRow>, processed: int, skipped: int)

  /** The response body. */
  datatype Report = Report(processed: int, skipped: int, total: int)

  /** A source filled in from what ingesting its URL gave. */
  function Updated(src: SourceRow, ing: IngestedSource, now: int): (u: SourceRow)
    ensures u.id == src.id && u.url == src.url && u.confidence == src.confidence
    ensures Truthy(ing.title) ==> u.title == Prefix(ing.title.value, MaxTitleChars)
    ensures !Truthy(ing.title) ==> u.title == src.title
    ensures |u.title| <= MaxTitleChars || u.title == src.title
    ensures u.snippet == ing.snippet && u.fetchedAt == Some(now)
  {
    src.(title := if Truthy(ing.title) then Prefix(ing.title.value, MaxTitleChars) else src.title,
         snippet := ing.snippet,
         fetchedAt := Some(now))
  }

  /** One pass of the loop body on source k. */
  function Step(t: Tally, k: nat, outcome: Result<IngestedSource, FetchError>, maxSources: int, now: int): Tally
    requires k < |t.sources|
  {
    if t.processed >= maxSources then t
    else if Truthy(t.sources[k].snippet) then t.(skipped := t.skipped + 1)
    else match outcome
      case Failure(_) => t.(skipped := t.skipped + 1)
      case Success(ing) => Tally(t.sources[k := Updated(t.sources[k], ing, now)], t.processed + 1, t.skipped)
  }

  /** The state after the loop has looked at the first n sources. */
  function Upto(sources: seq<SourceRow>, outcomes: seq<Result<IngestedSource, FetchError>>,
                maxSources: int, now: int, n: nat): (t: Tally)
    requires |outcomes| == |sources| && n <= |sources|
    ensures |t.sources| == |sources|
  {
    if n == 0 then Tally(sources, 0, 0)
    else Step(Upto(sources, outcomes, maxSources, now, n - 1), n - 1, outcomes[n - 1], maxSources, now)
  }

  /** Once max_sources have been processed no later source changes anything (the `break`). */
  lemma {:induction false} StoppedStays(sources: seq<SourceRow>, outcomes: seq<Result<IngestedSource, FetchError>>,
                                        maxSources: int, now: int, i: nat, n: nat)
    requires |outcomes| == |sources| && i <= n <= |sources|
    requires Upto(sources, outcomes, maxSources, now, i).processed >= maxSources
    ensures Upto(sources, outcomes, maxSources, now, n) == Upto(sources, outcomes, maxSources, now, i)
  {
    if n > i {
      StoppedStays(sources, outcomes, maxSources, now, i, n - 1);
    }
  }

  /**
   * The counters: never more than max_sources processed (none when it is
   * not positive), never more processed and skipped than sources looked
   * at, and fewer only when the loop stopped at max_sources.
   */
  lemma {:induction false} TallyBounds(sources: seq<SourceRow>, outcomes: seq<Result<IngestedSource, FetchError>>,
                                       maxSources: int, now: int, n: nat)
    requires |outcomes| == |sources| && n <= |sources|
    ensures var t := Upto(sources, outcomes, maxSources, now, n);
      && 0 <= t.processed && 0 <= t.skipped
      && t.processed <= (if maxSources < 0 then 0 else maxSources)
      && t.processed + t.skipped <= n
      && (t.processed + t.skipped < n ==> t.processed >= maxSources)
  {
    if n > 0 {
      TallyBounds(sources, outcomes, maxSources, now, n - 1);
    }
  }

  /**
   * Source by source: a source the loop has not reached is as it was; one
   * it reached either is as it was or had no snippet, ingested successfully
   * and is the updated source. A source that already had a snippet is never
   * touched.
   */
  lemma {:induction false} SourcesAfter(sources: seq<SourceRow>, outcomes: seq<Result<IngestedSource, FetchError>>,
                                        maxSources: int, now: int, n: nat)
    requires |outcomes| == |sources| && n <= |sources|
    ensures var t := Upto(sources, outcomes, maxSources, now, n);
      forall k :: 0 <= k < |sources| ==>
        || t.sources[k] == sources[k]
        || (k < n && !Truthy(sources[k].snippet) && outcomes[k].Success?
            && t.sources[k] == Updated(sources[k], outcomes[k].value, now))
    ensures var t := Upto(sources, outcomes, maxSources, now, n);
      forall k :: 0 <= k < |sources| && (n <= k || Truthy(sources[k].snippet) || outcomes[k].Failure?) ==>
        t.sources[k] == sources[k]
  {
    if n > 0 {
      SourcesAfter(sources, outcomes, maxSources, now, n - 1);
    }
  }

  /**
   * With room for every source, each one without a snippet whose ingest
   * succeeds is filled in, and the processed count is exactly the number
   * of such sources among those looked at.
   */
  lemma {:induction false} RoomForAll(sources: seq<SourceRow>, outcomes: seq<Result<IngestedSource, FetchError>>,
                                      maxSources: int, now: int, n: nat)
    requires |outcomes| == |sources| && n <= |sources| && maxSources >= |sources|
    ensures var t := Upto(sources, outcomes, maxSources, now, n);
      && t.processed == Fillable(sources[..n], outcomes[..n])
      && t.processed + t.skipped == n
      && forall k :: 0 <= k < n && !Truthy(sources[k].snippet) && outcomes[k].Success? ==>
           t.sources[k] == Updated(sources[k], outcomes[k].value, now)
  {
    if n > 0 {
      var prev := Upto(sources, outcomes, maxSources, now, n - 1);
      var t := Upto(sources, outcomes, maxSources, now, n);
      RoomForAll(sources, outcomes, maxSources, now, n - 1);
      SourcesAfter(sources, outcomes, maxSources, now, n - 1);
      assert prev.processed < maxSources;
      assert prev.sources[n - 1] == sources[n - 1];
      assert t == Step(prev, n - 1, outcomes[n - 1], maxSources, now);
      assert sources[..n][..n - 1] == sources[..n - 1];
      assert outcomes[..n][..n - 1] == outcomes[..n - 1];
      assert Fillable(sources[..n], outcomes[..n])
          == Fillable(sources[..n - 1], outcomes[..n - 1])
           + (if !Truthy(sources[n - 1].snippet) && outcomes[n - 1].Success? then 1 else 0);
      forall k | 0 <= k < n - 1
        ensures t.sources[k] == prev.sources[k]
      {
        StepKeepsOthers(prev, n - 1, outcomes[n - 1], maxSources, now, k);
      }
    }
  }

  /** A pass of the loop body on source i leaves every other source as it was. */
  lemma StepKeepsOthers(t: Tally, i: nat, outcome: Result<IngestedSource, FetchError>, maxSources: int, now: int, k: nat)
    requires i < |t.sources| && k < |t.sources| && k != i
    ensures Step(t, i, outcome, maxSources, now).sources[k] == t.sources[k]
  {
  }

  /** How many of the sources have no snippet and ingest successfully. */
  function Fillable(sources: seq<SourceRow>, outcomes: seq<Result<IngestedSource, FetchError>>): (c: nat)
    requires |outcomes| == |sources|
    ensures c <= |sources|
  {
    if sources == [] then 0
    else
      var n := |sources| - 1;
      Fillable(sources[..n], outcomes[..n]) + (if !Truthy(sources[n].snippet) && outcomes[n].Success? then 1 else 0)
  }

  function IngestedMessage(processed: int): MessageRow {
    MessageRow("assistant", "Ingested " + IntToString(processed) + " sources (fetched + summarized).")
  }

  /** The loop itself, on a copy of the session's sources. */
  method IngestLoop(sources: seq<SourceRow>, outcomes: seq<Result<IngestedSource, FetchError>>, maxSources: int, now: int)
      returns (t: Tally)
    requires |outcomes| == |sources|
    ensures t == Upto(sources, outcomes, maxSources, now, |sources|)
  {
    var srcs := sources;
    var processed := 0;
    var skipped := 0;
    var i := 0;
    while i < |srcs|
      invariant 0 <= i <= |sources| && |srcs| == |sources|
      invariant Tally(srcs, processed, skipped) == Upto(sources, outcomes, maxSources, now, i)
    {
      if processed >= maxSources {
        StoppedStays(sources, outcomes, maxSources, now, i, |sources|);
        break;
      }
      if Truthy(srcs[i].snippet) {
        skipped := skipped + 1;
        i := i + 1;
        continue;
      }
      if outcomes[i].Failure? {
        skipped := skipped + 1;
        i := i + 1;
        continue;
      }
      var ing := outcomes[i].value;
      var src := srcs[i];
      if Truthy(ing.title) {
        src := src.(title := Prefix(ing.title.value, MaxTitleChars));
      }
      src := src.(snippet := ing.snippet, fetchedAt := Some(now));
      srcs := srcs[i := src];
      processed := processed + 1;
      i := i + 1;
    }
    t := Tally(srcs, processed, skipped);
  }

  /**
   * ingest_sources_for_session. The lookup gives the session with the
   * requested id, or null; it must also belong to the caller. The session
   * is written only on success, where the commit happens.
   */
  method IngestSourcesForSession(session: ResearchSession?, userId: int, maxSources: int,
                                 outcomes: seq<Result<IngestedSource, FetchError>>, now: int)
      returns (r: Result<Report, HttpError>)
    requires session != null ==> |outcomes| == |session.sources|
    modifies session
    ensures session == null || session.userId != userId ==> r == Failure(SessionNotFound)
    ensures session != null && session.userId != userId ==> unchanged(session)
    ensures session != null && session.userId == userId ==>
      var t := Upto(old(session.sources), outcomes, maxSources, now, |old(session.sources)|);
      && session.sources == t.sources
      && session.messages == old(session.messages) + (if t.processed != 0 then [IngestedMessage(t.processed)] else [])
      && session.status == (if t.processed != 0 then "ingested" else old(session.status))
      && session.infographic == old(session.infographic)
      && r == Success(Report(t.processed, t.skipped, |old(session.sources)|))
  {
    if session == null || session.userId != userId {
      return Failure(SessionNotFound);
    }
    var t := IngestLoop(session.sources, outcomes, maxSources, now);
    session.sources := t.sources;
    if t.processed != 0 {
      session.messages := session.messages + [MessageRow("assistant", "Ingested " + IntToString(t.processed) + " sources (fetched + summarized).")];
      session.status := "ingested";
    }
    r := Success(Report(t.processed, t.skipped, |session.sources|));
  }
}
