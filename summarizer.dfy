/**
 * The deterministic summarizer (backend/app/services/summarizer.py): the
 * whitespace-collapsed text cut to max_chars, and up to max_points bullets
 * made from its '.'-separated pieces.
 */
module Summarizer {
  import opened Wrappers
  import opened Strings

  datatype Summary = Summary(url: string, title: Option<string>, summary: string, keyPoints: seq<string>)

  /** p.strip() for each piece. */
  function StripEach(parts: seq<string>): (ps: seq<string>)
    ensures |ps| == |parts|
  {
    seq(|parts|, k requires 0 <= k < |parts| => Strip(parts[k]))
  }

  /** The non-empty pieces, in order. */
  function NonEmpty(ps: seq<string>): (r: seq<string>)
    ensures |r| <= |ps|
    ensures forall k :: 0 <= k < |r| ==> r[k] != [] && r[k] in ps
  {
    if ps == [] then []
    else if ps[0] == [] then NonEmpty(ps[1..])
    else [ps[0]] + NonEmpty(ps[1..])
  }

  /** Each index one further on. */
  function ShiftUp(idx: seq<nat>): (r: seq<nat>)
    ensures |r| == |idx| && forall k :: 0 <= k < |idx| ==> r[k] == idx[k] + 1
  {
    seq(|idx|, k requires 0 <= k < |idx| => idx[k] + 1)
  }

  /** The positions of the non-empty pieces, in order. */
  function NonEmptyIndex(ps: seq<string>): (idx: seq<nat>)
    ensures forall k :: 0 <= k < |idx| ==> idx[k] < |ps| && ps[idx[k]] != []
  {
    if ps == [] then []
    else
      var rest := NonEmptyIndex(ps[1..]);
      assert forall k :: 0 <= k < |rest| ==> ps[rest[k] + 1] == ps[1..][rest[k]];
      if ps[0] == [] then ShiftUp(rest) else [0] + ShiftUp(rest)
  }

  /** Strictly increasing positions. */
  predicate Increasing(idx: seq<nat>) {
    forall k, l :: 0 <= k < l < |idx| ==> idx[k] < idx[l]
  }

  /** The positions are strictly increasing. */
  lemma {:induction false} NonEmptyIndexIncreasing(ps: seq<string>)
    ensures Increasing(NonEmptyIndex(ps))
  {
    if ps != [] {
      var idx := NonEmptyIndex(ps);
      var rest := NonEmptyIndex(ps[1..]);
      var up := ShiftUp(rest);
      NonEmptyIndexIncreasing(ps[1..]);
      forall k, l | 0 <= k < l < |up| ensures up[k] < up[l] {
        assert rest[k] < rest[l];
      }
      if ps[0] != [] {
        assert idx == [0] + up;
        forall k, l | 0 <= k < l < |idx| ensures idx[k] < idx[l] {
          if k > 0 { assert idx[k] == up[k - 1] && idx[l] == up[l - 1]; }
          else { assert idx[l] == up[l - 1]; }
        }
      }
    }
  }

  /** Every non-empty piece has its position listed. */
  lemma {:induction false} NonEmptyIndexCovers(ps: seq<string>)
    ensures var idx := NonEmptyIndex(ps);
      forall j :: 0 <= j < |ps| && ps[j] != [] ==> j in idx
  {
    if ps != [] {
      var idx := NonEmptyIndex(ps);
      var rest := NonEmptyIndex(ps[1..]);
      var up := ShiftUp(rest);
      NonEmptyIndexCovers(ps[1..]);
      forall j | 0 <= j < |ps| && ps[j] != []
        ensures j in idx
      {
        if j == 0 {
          assert idx[0] == 0;
        } else {
          assert ps[1..][j - 1] == ps[j];
          var k :| 0 <= k < |rest| && rest[k] == j - 1;
          assert up[k] == j;
          assert up == idx || up == idx[1..];
        }
      }
    }
  }

  /** Putting a kept first piece in front keeps the positions matching. */
  lemma PicksCons(ps: seq<string>, tail: seq<string>, rest: seq<nat>)
    requires ps != [] && |tail| == |rest|
    requires forall k :: 0 <= k < |rest| ==> rest[k] + 1 < |ps| && tail[k] == ps[rest[k] + 1]
    ensures var idx := [0] + ShiftUp(rest);
      forall k :: 0 <= k < |idx| ==> ([ps[0]] + tail)[k] == ps[idx[k]]
  {
    var idx := [0] + ShiftUp(rest);
    forall k | 0 <= k < |idx| ensures ([ps[0]] + tail)[k] == ps[idx[k]] {
      if k > 0 { assert idx[k] == rest[k - 1] + 1; }
    }
  }

  /** The listed positions pick out exactly what NonEmpty keeps. */
  lemma {:induction false} NonEmptyIndexPicks(ps: seq<string>)
    ensures var idx := NonEmptyIndex(ps);
      |NonEmpty(ps)| == |idx| && forall k :: 0 <= k < |idx| ==> NonEmpty(ps)[k] == ps[idx[k]]
  {
    if ps != [] {
      var rest := NonEmptyIndex(ps[1..]);
      var tail := NonEmpty(ps[1..]);
      NonEmptyIndexPicks(ps[1..]);
      forall k | 0 <= k < |rest| ensures rest[k] + 1 < |ps| && tail[k] == ps[rest[k] + 1] {
        assert ps[1..][rest[k]] == ps[rest[k] + 1];
      }
      if ps[0] != [] {
        PicksCons(ps, tail, rest);
      }
    }
  }

  /** [p.strip() for p in parts if p.strip()]. */
  function NonBlankPieces(parts: seq<string>): seq<string> {
    NonEmpty(StripEach(parts))
  }

  /** Stripping a piece without '.' leaves a piece without '.'. */
  lemma StripKeepsNoDot(p: string)
    requires forall i :: 0 <= i < |p| ==> p[i] != '.'
    ensures forall i :: 0 <= i < |Strip(p)| ==> Strip(p)[i] != '.'
  {
    var k := LeadCount(p, PySpace, 0);
    StripIsStripped(p);
    var r := Strip(p);
    forall i | 0 <= i < |r| ensures r[i] != '.' {
      assert r[i] == p[k + i];
    }
  }

  /** A bullet's piece: non-empty, stripped, without '.'. */
  predicate IsPiece(p: string) {
    p != [] && IsStripped(p) && forall i :: 0 <= i < |p| ==> p[i] != '.'
  }

  /** A bullet: "- " + a piece + ".". */
  ghost predicate IsBullet(b: string) {
    exists p :: IsPiece(p) && b == "- " + p + "."
  }

  /**
   * The pieces kept from a '.'-split are non-empty, stripped, and contain no
   * '.' themselves.
   */
  lemma NonBlankPiecesShape(parts: seq<string>)
    requires forall k :: 0 <= k < |parts| ==> '.' !in parts[k]
    ensures forall p :: p in NonBlankPieces(parts) ==> IsPiece(p)
  {
    var ps := StripEach(parts);
    forall k | 0 <= k < |ps|
      ensures IsStripped(ps[k]) && forall i :: 0 <= i < |ps[k]| ==> ps[k][i] != '.'
    {
      StripIsStripped(parts[k]);
      StripKeepsNoDot(parts[k]);
    }
  }

  /** f"- {p}." for each piece. */
  function Bullets(ps: seq<string>): (bs: seq<string>)
    ensures |bs| == |ps|
    ensures forall k :: 0 <= k < |ps| ==> bs[k] == "- " + ps[k] + "."
  {
    seq(|ps|, k requires 0 <= k < |ps| => "- " + ps[k] + ".")
  }

  /** SimpleSummarizer with its two limits. */
  datatype SimpleSummarizer = SimpleSummarizer(maxChars: int, maxPoints: int) {

    /** summarize: blank text gives an empty summary and no bullets. */
    function Summarize(url: string, title: Option<string>, text: string): Summary {
      var cleaned := Strip(Collapse(text));
      if cleaned == [] then Summary(url, title, [], [])
      else
        var summary := Prefix(cleaned, maxChars);
        var parts := NonBlankPieces(SplitOn(summary, '.'));
        Summary(url, title, summary, Bullets(Prefix(parts, maxPoints)))
    }
  }

  /** The defaults: max_chars=800, max_points=5. */
  function DefaultSummarizer(): SimpleSummarizer {
    SimpleSummarizer(800, 5)
  }

  predicate IsBlank(text: string) {
    forall i :: 0 <= i < |text| ==> IsPySpace(text[i])
  }

  /** The summary is the whitespace-collapsed text cut to max_chars, as a Python slice cuts it. */
  lemma SummaryIsCollapsedPrefix(s: SimpleSummarizer, url: string, title: Option<string>, text: string)
    ensures var r := s.Summarize(url, title, text);
      var c := Collapse(text);
      && r.url == url && r.title == title
      && |r.summary| <= |c| && r.summary == c[..|r.summary|]
      && (s.maxChars >= 0 ==> |r.summary| <= s.maxChars)
      && |r.summary| == (if s.maxChars >= 0 then (if s.maxChars < |c| then s.maxChars else |c|)
                         else (if |c| + s.maxChars > 0 then |c| + s.maxChars else 0))
  {
    var c := Collapse(text);
    CollapseIsNormal(text);
    assert Strip(c) == c;
    var r := s.Summarize(url, title, text);
    if c != [] {
      assert r.summary == Prefix(c, s.maxChars);
    }
  }

  /**
   * Blank text gives an empty summary and no bullets; with a positive
   * max_chars nothing else gives an empty summary.
   */
  lemma SummaryEmptyIffBlank(s: SimpleSummarizer, url: string, title: Option<string>, text: string)
    ensures var r := s.Summarize(url, title, text);
      && (IsBlank(text) ==> r.summary == [] && r.keyPoints == [])
      && (s.maxChars > 0 ==> (r.summary == [] <==> IsBlank(text)))
  {
    var c := Collapse(text);
    CollapseIsNormal(text);
    assert Strip(c) == c;
    var r := s.Summarize(url, title, text);
    if c == [] {
      assert IsBlank(text);
      assert r == Summary(url, title, [], []);
    } else {
      assert !IsBlank(text);
      assert r.summary == Prefix(c, s.maxChars);
    }
  }

  /**
   * Each bullet is "- " + piece + ".", the piece non-empty, stripped and
   * free of '.'; there are at most max_points of them.
   */
  lemma KeyPointShape(s: SimpleSummarizer, url: string, title: Option<string>, text: string)
    ensures var r := s.Summarize(url, title, text);
      && (s.maxPoints >= 0 ==> |r.keyPoints| <= s.maxPoints)
      && forall k :: 0 <= k < |r.keyPoints| ==> IsBullet(r.keyPoints[k])
  {
    var r := s.Summarize(url, title, text);
    var cleaned := Strip(Collapse(text));
    if cleaned != [] {
      var summary := Prefix(cleaned, s.maxChars);
      var parts := NonBlankPieces(SplitOn(summary, '.'));
      NonBlankPiecesShape(SplitOn(summary, '.'));
      var kept := Prefix(parts, s.maxPoints);
      assert r.keyPoints == Bullets(kept);
      forall k | 0 <= k < |r.keyPoints| ensures IsBullet(r.keyPoints[k]) {
        assert kept[k] == parts[k];
        assert parts[k] in parts;
        assert IsPiece(kept[k]) && r.keyPoints[k] == "- " + kept[k] + ".";
      }
    }
  }

  /**
   * Bullet k is "- " + the k-th non-blank '.'-separated segment of the
   * summary, stripped, + "."; the segments are taken in order, every
   * non-blank one is a candidate, and at most max_points are kept.
   */
  lemma KeyPointsFromSummary(s: SimpleSummarizer, url: string, title: Option<string>, text: string)
    ensures var r := s.Summarize(url, title, text);
      var segs := SplitOn(r.summary, '.');
      var all := NonEmptyIndex(StripEach(segs));
      var idx := Prefix(all, s.maxPoints);
      && (forall j :: 0 <= j < |segs| && Strip(segs[j]) != [] ==> j in all)
      && Increasing(all)
      && |r.keyPoints| == |idx| && (s.maxPoints >= 0 ==> |idx| <= s.maxPoints)
      && forall k :: 0 <= k < |idx| ==>
           idx[k] < |segs| && Strip(segs[idx[k]]) != [] && r.keyPoints[k] == "- " + Strip(segs[idx[k]]) + "."
  {
    var r := s.Summarize(url, title, text);
    var segs := SplitOn(r.summary, '.');
    var ps := StripEach(segs);
    var all := NonEmptyIndex(ps);
    var idx := Prefix(all, s.maxPoints);
    var kept := Prefix(NonEmpty(ps), s.maxPoints);
    NonEmptyIndexIncreasing(ps);
    NonEmptyIndexCovers(ps);
    NonEmptyIndexPicks(ps);
    CollapseIsNormal(text);
    if IsBlank(text) {
      assert r.summary == [] && segs == [[]];
      assert Strip([]) == [];
      assert NonEmpty(ps) == [];
    }
    assert r.keyPoints == Bullets(kept);
    assert |kept| == |idx|;
    forall j | 0 <= j < |segs| && Strip(segs[j]) != []
      ensures j in all
    {
      assert ps[j] == Strip(segs[j]);
    }
    forall k | 0 <= k < |idx|
      ensures idx[k] < |segs| && Strip(segs[idx[k]]) != [] && r.keyPoints[k] == "- " + Strip(segs[idx[k]]) + "."
    {
      assert idx[k] == all[k] && kept[k] == NonEmpty(ps)[k];
      assert NonEmpty(ps)[k] == ps[all[k]];
    }
  }

  /** The default summarizer keeps at most 800 characters and 5 bullets. */
  lemma DefaultBounds(url: string, title: Option<string>, text: string)
    ensures var r := DefaultSummarizer().Summarize(url, title, text);
      |r.summary| <= 800 && |r.keyPoints| <= 5
  {
    SummaryIsCollapsedPrefix(DefaultSummarizer(), url, title, text);
    KeyPointShape(DefaultSummarizer(), url, title, text);
  }
}
