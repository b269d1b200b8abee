/**
 * The single-URL ingest pipeline (backend/app/services/ingest.py): fetch the
 * page, cut its text to the configured length, summarize it, and keep the
 * first 240 characters of the summary as the snippet.
 */
module Ingest {
  import opened Wrappers
  import opened Strings
  import opened WebSearch
  import opened SourceFetcher
  import opened Summarizer

  datatype IngestedSource = IngestedSource(url: string, title: Option<string>, snippet: Option<string>, summary: Summary)

  /** The snippet length. */
  const SnippetChars := 240

  /** The fetched text, cut to max_chars when that is set and positive. */
  function CutText(text: string, maxChars: Option<int>): (r: string)
    ensures |r| <= |text| && r == text[..|r|]
    ensures maxChars.Some? && maxChars.value > 0 ==> |r| == if |text| > maxChars.value then maxChars.value else |text|
    ensures maxChars.None? || maxChars.value <= 0 ==> r == text
  {
    if maxChars.Some? && maxChars.value > 0 && |text| > maxChars.value then text[..maxChars.value] else text
  }

  /** What `ingest` builds from a fetched source. */
  function FromFetched(fetched: FetchedSource, summarizer: SimpleSummarizer, maxChars: Option<int>): IngestedSource {
    var summary := summarizer.Summarize(fetched.url, fetched.title, CutText(fetched.text, maxChars));
    var snippet := if summary.summary != [] then Some(Prefix(summary.summary, SnippetChars)) else None;
    IngestedSource(fetched.url, fetched.title, snippet, summary)
  }

  /**
   * The result carries the fetched URL and title, and its summary is made
   * from the fetched text cut to max_chars.
   */
  lemma FromFetchedKeepsSource(fetched: FetchedSource, summarizer: SimpleSummarizer, maxChars: Option<int>)
    ensures var r := FromFetched(fetched, summarizer, maxChars);
      && r.url == fetched.url && r.title == fetched.title
      && r.summary.url == fetched.url && r.summary.title == fetched.title
      && var c := Collapse(CutText(fetched.text, maxChars));
         && |r.summary.summary| <= |c| && r.summary.summary == c[..|r.summary.summary|]
         && var m := summarizer.maxChars;
            |r.summary.summary| == (if m >= 0 then (if m < |c| then m else |c|)
                                    else (if |c| + m > 0 then |c| + m else 0))
  {
    SummaryIsCollapsedPrefix(summarizer, fetched.url, fetched.title, CutText(fetched.text, maxChars));
  }

  /**
   * There is a snippet exactly when the summary is non-empty, and it is the
   * summary's first 240 characters.
   */
  lemma SnippetIsSummaryHead(fetched: FetchedSource, summarizer: SimpleSummarizer, maxChars: Option<int>)
    ensures var r := FromFetched(fetched, summarizer, maxChars);
      && (r.snippet.None? <==> r.summary.summary == [])
      && (r.snippet.Some? ==>
            && r.snippet.value != []
            && |r.snippet.value| == (if |r.summary.summary| < SnippetChars then |r.summary.summary| else SnippetChars)
            && r.snippet.value == r.summary.summary[..|r.snippet.value|])
  {
  }

  /**
   * With a positive max_chars on the summarizer, the snippet is missing
   * exactly when the (cut) fetched text is blank.
   */
  lemma NoSnippetIffBlankText(fetched: FetchedSource, summarizer: SimpleSummarizer, maxChars: Option<int>)
    requires summarizer.maxChars > 0
    ensures FromFetched(fetched, summarizer, maxChars).snippet.None? <==> IsBlank(CutText(fetched.text, maxChars))
  {
    SummaryEmptyIffBlank(summarizer, fetched.url, fetched.title, CutText(fetched.text, maxChars));
  }

  /** The default summarizer's summary is at most 800 characters, its bullets at most 5. */
  lemma DefaultIngestBounds(fetched: FetchedSource, maxChars: Option<int>)
    ensures var r := FromFetched(fetched, DefaultSummarizer(), maxChars);
      |r.summary.summary| <= 800 && |r.summary.keyPoints| <= 5
      && (r.snippet.Some? ==> |r.snippet.value| <= SnippetChars)
  {
    DefaultBounds(fetched.url, fetched.title, CutText(fetched.text, maxChars));
  }

  /** IngestPipeline: a fetcher, a summarizer and an optional text limit. */
  class IngestPipeline {
    const fetcher: Fetcher
    const summarizer: SimpleSummarizer
    const maxChars: Option<int>

    ghost predicate Valid()
      reads this, fetcher, fetcher.cache, fetcher.limiter
    {
      fetcher.Valid()
    }

    constructor (fetcher: Fetcher, summarizer: SimpleSummarizer, maxChars: Option<int>)
      requires fetcher.Valid()
      ensures Valid() && this.fetcher == fetcher && this.summarizer == summarizer && this.maxChars == maxChars
    {
      this.fetcher := fetcher;
      this.summarizer := summarizer;
      this.maxChars := maxChars;
    }

    /** ingest: a fetch failure is passed on; a fetched source is summarized. */
    method Ingest(url: string, now: real, upstream: HttpOutcome) returns (r: Result<IngestedSource, FetchError>)
      requires Valid()
      modifies fetcher.cache, fetcher.limiter
      ensures Valid()
      ensures var s := FetchSpec(old(fetcher.cache.entries), fetcher.cache.maxItems, fetcher.cache.ttlSeconds,
                                 old(fetcher.limiter.State()), url, now, upstream);
        && fetcher.cache.entries == s.entries && fetcher.limiter.State() == s.bucket
        && r == match s.result
                case Failure(e) => Failure(e)
                case Success(f) => Success(FromFetched(f, summarizer, maxChars))
    {
      var fetched := fetcher.Fetch(url, now, upstream);
      match fetched
      case Failure(e) =>
        return Failure(e);
      case Success(f) =>
        var text := f.text;
        if maxChars.Some? && maxChars.value > 0 && |text| > maxChars.value {
          text := text[..maxChars.value];
        }
        var summary := summarizer.Summarize(f.url, f.title, text);
        var snippet := None;
        if summary.summary != [] {
          snippet := Some(Prefix(summary.summary, SnippetChars));
        }
        return Success(IngestedSource(f.url, f.title, snippet, summary));
    }
  }
}
