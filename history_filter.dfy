/**
 * The session-history filter of the frontend
 * (frontend/src/ui/historyFilter.ts): a topic substring, a hashtag and a
 * day range, each applied only when given, as successive filters that keep
 * the order of the sessions. A session's created_at is given as the
 * millisecond timestamp it parses to (None when it does not parse); the
 * parse of a YYYY-MM-DD day to its local midnight is a function parameter.
 */
module HistoryFilter {
  import opened Wrappers
  import opened Strings

  datatype Session = Session(id: int, prompt: string, status: string, createdAt: Option<int>)

  datatype HistoryFilters = HistoryFilters(topic: Option<string>, tag: Option<string>,
                                           fromDate: Option<string>, toDate: Option<string>)

  /** From local midnight to 23:59:59.999 the same day, in milliseconds. */
  const DayEndOffset := 86_399_999

  // ---------------------------------------------------------------------------
  // Array.prototype.filter

  /** The elements satisfying p, in order. */
  function Filter<T>(s: seq<T>, p: T -> bool): (r: seq<T>)
    ensures |r| <= |s|
  {
    if s == [] then []
    else
      var n := |s| - 1;
      Filter(s[..n], p) + (if p(s[n]) then [s[n]] else [])
  }

  /** The positions Filter keeps. */
  function KeptIndices<T>(s: seq<T>, p: T -> bool): (ix: seq<nat>)
    ensures forall k :: 0 <= k < |ix| ==> ix[k] < |s|
  {
    if s == [] then []
    else
      var n := |s| - 1;
      KeptIndices(s[..n], p) + (if p(s[n]) then [n] else [])
  }

  /**
   * filter keeps exactly the elements satisfying p, in their order: its
   * result is s at increasing positions, and those positions are exactly
   * the ones where p holds.
   */
  lemma {:induction false} FilterIsSubsequence<T>(s: seq<T>, p: T -> bool)
    ensures var r, ix := Filter(s, p), KeptIndices(s, p);
      && |r| == |ix|
      && (forall k :: 0 <= k < |ix| ==> r[k] == s[ix[k]])
      && (forall k, l :: 0 <= k < l < |ix| ==> ix[k] < ix[l])
      && (forall i :: 0 <= i < |s| ==> (p(s[i]) <==> i in ix))
  {
    if s != [] {
      var n := |s| - 1;
      FilterIsSubsequence(s[..n], p);
      var r, ix := Filter(s, p), KeptIndices(s, p);
      var r', ix' := Filter(s[..n], p), KeptIndices(s[..n], p);
      forall k | 0 <= k < |ix'| ensures r[k] == s[ix[k]] && ix[k] < n {
        assert r[k] == r'[k] && ix[k] == ix'[k];
        assert s[..n][ix'[k]] == s[ix[k]];
      }
      forall i | 0 <= i < n ensures p(s[i]) <==> i in ix {
        assert s[..n][i] == s[i];
        assert i in ix <==> i in ix';
      }
    }
  }

  /** Membership in a filtered sequence. */
  lemma FilterMembers<T>(s: seq<T>, p: T -> bool, x: T)
    ensures x in Filter(s, p) <==> x in s && p(x)
  {
    FilterIsSubsequence(s, p);
    var r, ix := Filter(s, p), KeptIndices(s, p);
    if x in r {
      var k :| 0 <= k < |r| && r[k] == x;
      assert s[ix[k]] == x;
    }
    if x in s && p(x) {
      var i :| 0 <= i < |s| && s[i] == x;
      assert i in ix;
      var k :| 0 <= k < |ix| && ix[k] == i;
      assert r[k] == x;
    }
  }

  lemma {:induction false} FilterAppend<T>(a: seq<T>, b: seq<T>, p: T -> bool)
    ensures Filter(a + b, p) == Filter(a, p) + Filter(b, p)
  {
    if b != [] {
      var n := |b| - 1;
      FilterAppend(a, b[..n], p);
      assert (a + b)[..|a + b| - 1] == a + b[..n];
      assert (a + b)[|a + b| - 1] == b[n];
    } else {
      assert a + b == a;
    }
  }

  /** The conjunction of two tests. */
  function Both<T>(p: T -> bool, q: T -> bool): T -> bool {
    x => p(x) && q(x)
  }

  /** Filtering twice is filtering once by the conjunction. */
  lemma {:induction false} FilterFilter<T>(s: seq<T>, p: T -> bool, q: T -> bool)
    ensures Filter(Filter(s, p), q) == Filter(s, Both(p, q))
  {
    if s != [] {
      var n := |s| - 1;
      FilterFilter(s[..n], p, q);
      FilterAppend(Filter(s[..n], p), if p(s[n]) then [s[n]] else [], q);
      if p(s[n]) {
        assert Filter([s[n]], q) == Filter([s[n]][..0], q) + (if q(s[n]) then [s[n]] else []);
      }
    }
  }

  /** Predicates that agree everywhere filter alike. */
  lemma {:induction false} FilterExt<T>(s: seq<T>, p: T -> bool, q: T -> bool)
    requires forall x :: p(x) == q(x)
    ensures Filter(s, p) == Filter(s, q)
  {
    if s != [] {
      FilterExt(s[..|s| - 1], p, q);
    }
  }

  /** A predicate true of every element keeps them all. */
  lemma {:induction false} FilterAll<T>(s: seq<T>, p: T -> bool)
    requires forall k :: 0 <= k < |s| ==> p(s[k])
    ensures Filter(s, p) == s
  {
    if s != [] {
      FilterAll(s[..|s| - 1], p);
    }
  }

  // ---------------------------------------------------------------------------
  // The four filters

  /** (filters.topic ?? '').trim().toLowerCase() */
  function TopicKey(f: HistoryFilters): string {
    Lower(JsTrim(f.topic.GetOr("")))
  }

  /** .replace(/^#/, ''): drops one leading '#'. */
  function DropHash(t: string): string {
    if t != [] && t[0] == '#' then t[1..] else t
  }

  /** (filters.tag ?? '').trim().toLowerCase().replace(/^#/, '') */
  function TagKey(f: HistoryFilters): string {
    DropHash(Lower(JsTrim(f.tag.GetOr(""))))
  }

  /** The day a date filter names, when it is given (non-empty) and parses. */
  function Day(date: Option<string>, dayStart: string -> Option<int>): Option<int> {
    if date.Some? && date.value != [] then dayStart(date.value) else None
  }

  predicate TopicOk(s: Session, topic: string) {
    Contains(Lower(s.prompt), topic)
  }

  predicate TagOk(s: Session, tag: string) {
    Contains(Lower(s.prompt), "#" + tag)
  }

  /** created_at on or after the start of the day (an unparseable created_at compares false). */
  predicate FromOk(s: Session, from: int) {
    s.createdAt.Some? && s.createdAt.value >= from
  }

  /** created_at on or before the last millisecond of the day. */
  predicate ToOk(s: Session, to: int) {
    s.createdAt.Some? && s.createdAt.value <= to + DayEndOffset
  }

  /** One of the four filters. */
  datatype Stage = TopicStage | TagStage | FromStage | ToStage

  /** Whether a session passes a stage; a stage whose filter is absent passes everything. */
  predicate Passes(s: Session, st: Stage, f: HistoryFilters, dayStart: string -> Option<int>) {
    match st
    case TopicStage => TopicKey(f) == [] || TopicOk(s, TopicKey(f))
    case TagStage => TagKey(f) == [] || TagOk(s, TagKey(f))
    case FromStage => Day(f.fromDate, dayStart).None? || FromOk(s, Day(f.fromDate, dayStart).value)
    case ToStage => Day(f.toDate, dayStart).None? || ToOk(s, Day(f.toDate, dayStart).value)
  }

  // The tests as values for Filter, each defined once.
  function TopicTest(topic: string): Session -> bool { s => TopicOk(s, topic) }
  function TagTest(tag: string): Session -> bool { s => TagOk(s, tag) }
  function FromTest(from: int): Session -> bool { s => FromOk(s, from) }
  function ToTest(to: int): Session -> bool { s => ToOk(s, to) }

  /** The chain of filters, given the normalised topic and tag and the parsed days. */
  function ApplyKeys(sessions: seq<Session>, topic: string, tag: string, from: Option<int>, to: Option<int>): seq<Session> {
    var r1 := if topic != [] then Filter(sessions, TopicTest(topic)) else sessions;
    var r2 := if tag != [] then Filter(r1, TagTest(tag)) else r1;
    var r3 := if from.Some? then Filter(r2, FromTest(from.value)) else r2;
    if to.Some? then Filter(r3, ToTest(to.value)) else r3
  }

  /** applyHistoryFilters: topic, then tag, then the from day, then the to day. */
  function ApplyHistoryFilters(sessions: seq<Session>, f: HistoryFilters, dayStart: string -> Option<int>): seq<Session> {
    ApplyKeys(sessions, TopicKey(f), TagKey(f), Day(f.fromDate, dayStart), Day(f.toDate, dayStart))
  }

  /** One stage as a filter over the sessions. */
  function ApplyStage(sessions: seq<Session>, st: Stage, f: HistoryFilters, dayStart: string -> Option<int>): seq<Session> {
    Filter(sessions, StageTest(st, f, dayStart))
  }

  function StageTest(st: Stage, f: HistoryFilters, dayStart: string -> Option<int>): Session -> bool {
    s => Passes(s, st, f, dayStart)
  }

  /** The stages applied in the given order. */
  function ApplyStages(sessions: seq<Session>, stages: seq<Stage>, f: HistoryFilters, dayStart: string -> Option<int>): seq<Session>
    decreases |stages|
  {
    if stages == [] then sessions
    else ApplyStages(ApplyStage(sessions, stages[0], f, dayStart), stages[1..], f, dayStart)
  }

  /** A session passes every stage in the list. */
  predicate PassesAll(s: Session, stages: seq<Stage>, f: HistoryFilters, dayStart: string -> Option<int>) {
    forall k :: 0 <= k < |stages| ==> Passes(s, stages[k], f, dayStart)
  }

  function AllTest(stages: seq<Stage>, f: HistoryFilters, dayStart: string -> Option<int>): Session -> bool {
    s => PassesAll(s, stages, f, dayStart)
  }

  /** A stage whose filter is absent changes nothing; a present one filters by its own test. */
  lemma StageMatchesSource(sessions: seq<Session>, st: Stage, f: HistoryFilters, dayStart: string -> Option<int>)
    ensures ApplyStage(sessions, st, f, dayStart) == match st
      case TopicStage => if TopicKey(f) != [] then Filter(sessions, TopicTest(TopicKey(f))) else sessions
      case TagStage => if TagKey(f) != [] then Filter(sessions, TagTest(TagKey(f))) else sessions
      case FromStage => if Day(f.fromDate, dayStart).Some? then Filter(sessions, FromTest(Day(f.fromDate, dayStart).value)) else sessions
      case ToStage => if Day(f.toDate, dayStart).Some? then Filter(sessions, ToTest(Day(f.toDate, dayStart).value)) else sessions
  {
    var p := StageTest(st, f, dayStart);
    match st
    case TopicStage =>
      if TopicKey(f) != [] { FilterExt(sessions, p, TopicTest(TopicKey(f))); }
      else { FilterAll(sessions, p); }
    case TagStage =>
      if TagKey(f) != [] { FilterExt(sessions, p, TagTest(TagKey(f))); }
      else { FilterAll(sessions, p); }
    case FromStage =>
      if Day(f.fromDate, dayStart).Some? { FilterExt(sessions, p, FromTest(Day(f.fromDate, dayStart).value)); }
      else { FilterAll(sessions, p); }
    case ToStage =>
      if Day(f.toDate, dayStart).Some? { FilterExt(sessions, p, ToTest(Day(f.toDate, dayStart).value)); }
      else { FilterAll(sessions, p); }
  }

  /** The source's order is the four stages in order. */
  lemma SourceOrder(sessions: seq<Session>, f: HistoryFilters, dayStart: string -> Option<int>)
    ensures ApplyHistoryFilters(sessions, f, dayStart)
         == ApplyStages(sessions, [TopicStage, TagStage, FromStage, ToStage], f, dayStart)
  {
    var r1 := ApplyStage(sessions, TopicStage, f, dayStart);
    StageMatchesSource(sessions, TopicStage, f, dayStart);
    var r2 := ApplyStage(r1, TagStage, f, dayStart);
    StageMatchesSource(r1, TagStage, f, dayStart);
    var r3 := ApplyStage(r2, FromStage, f, dayStart);
    StageMatchesSource(r2, FromStage, f, dayStart);
    var r4 := ApplyStage(r3, ToStage, f, dayStart);
    StageMatchesSource(r3, ToStage, f, dayStart);
    assert ApplyHistoryFilters(sessions, f, dayStart) == r4;
    calc {
      ApplyStages(sessions, [TopicStage, TagStage, FromStage, ToStage], f, dayStart);
      { assert [TopicStage, TagStage, FromStage, ToStage][1..] == [TagStage, FromStage, ToStage]; }
      ApplyStages(r1, [TagStage, FromStage, ToStage], f, dayStart);
      { assert [TagStage, FromStage, ToStage][1..] == [FromStage, ToStage]; }
      ApplyStages(r2, [FromStage, ToStage], f, dayStart);
      { assert [FromStage, ToStage][1..] == [ToStage]; }
      ApplyStages(r3, [ToStage], f, dayStart);
      { assert [ToStage][1..] == []; }
      r4;
    }
  }

  /** Passing a non-empty list is passing its head and its tail. */
  lemma PassesAllCons(s: Session, stages: seq<Stage>, f: HistoryFilters, dayStart: string -> Option<int>)
    requires stages != []
    ensures PassesAll(s, stages, f, dayStart) == (Passes(s, stages[0], f, dayStart) && PassesAll(s, stages[1..], f, dayStart))
  {
    if Passes(s, stages[0], f, dayStart) && PassesAll(s, stages[1..], f, dayStart) {
      forall k | 0 <= k < |stages| ensures Passes(s, stages[k], f, dayStart) {
        if k > 0 { assert stages[k] == stages[1..][k - 1]; }
      }
    }
    if PassesAll(s, stages, f, dayStart) {
      forall k | 0 <= k < |stages[1..]| ensures Passes(s, stages[1..][k], f, dayStart) {
        assert stages[1..][k] == stages[k + 1];
      }
    }
  }

  /** Applying stages in sequence is one filter by the conjunction of the stages. */
  lemma {:induction false} StagesAreConjunction(sessions: seq<Session>, stages: seq<Stage>, f: HistoryFilters, dayStart: string -> Option<int>)
    ensures ApplyStages(sessions, stages, f, dayStart) == Filter(sessions, AllTest(stages, f, dayStart))
    decreases |stages|
  {
    if stages == [] {
      FilterAll(sessions, AllTest(stages, f, dayStart));
    } else {
      var first := ApplyStage(sessions, stages[0], f, dayStart);
      StagesAreConjunction(first, stages[1..], f, dayStart);
      var p := StageTest(stages[0], f, dayStart);
      var q := AllTest(stages[1..], f, dayStart);
      FilterFilter(sessions, p, q);
      forall s: Session ensures Both(p, q)(s) == AllTest(stages, f, dayStart)(s) {
        PassesAllCons(s, stages, f, dayStart);
      }
      FilterExt(sessions, Both(p, q), AllTest(stages, f, dayStart));
    }
  }

  /** A session satisfies every filter that is given. */
  predicate Matches(s: Session, f: HistoryFilters, dayStart: string -> Option<int>) {
    PassesAll(s, [TopicStage, TagStage, FromStage, ToStage], f, dayStart)
  }

  function MatchTest(f: HistoryFilters, dayStart: string -> Option<int>): Session -> bool {
    s => Matches(s, f, dayStart)
  }

  /** The source's chain is one filter by Matches. */
  lemma ApplyIsMatchFilter(sessions: seq<Session>, f: HistoryFilters, dayStart: string -> Option<int>)
    ensures ApplyHistoryFilters(sessions, f, dayStart) == Filter(sessions, MatchTest(f, dayStart))
  {
    var all := [TopicStage, TagStage, FromStage, ToStage];
    SourceOrder(sessions, f, dayStart);
    StagesAreConjunction(sessions, all, f, dayStart);
    FilterExt(sessions, AllTest(all, f, dayStart), MatchTest(f, dayStart));
  }

  /** Lists holding the same stages pass the same sessions. */
  lemma SameStagesSamePasses(s: Session, stages: seq<Stage>, others: seq<Stage>, f: HistoryFilters, dayStart: string -> Option<int>)
    requires forall st :: st in stages <==> st in others
    ensures PassesAll(s, stages, f, dayStart) == PassesAll(s, others, f, dayStart)
  {
    if PassesAll(s, stages, f, dayStart) {
      forall k | 0 <= k < |others| ensures Passes(s, others[k], f, dayStart) {
        assert others[k] in stages;
        var j :| 0 <= j < |stages| && stages[j] == others[k];
      }
    }
    if PassesAll(s, others, f, dayStart) {
      forall k | 0 <= k < |stages| ensures Passes(s, stages[k], f, dayStart) {
        assert stages[k] in others;
        var j :| 0 <= j < |others| && others[j] == stages[k];
      }
    }
  }

  /**
   * The filters form a conjunction whose result does not depend on the
   * order they are applied in: any ordering of the four stages gives the
   * source's result.
   */
  lemma OrderIndependent(sessions: seq<Session>, stages: seq<Stage>, f: HistoryFilters, dayStart: string -> Option<int>)
    requires multiset(stages) == multiset{TopicStage, TagStage, FromStage, ToStage}
    ensures ApplyStages(sessions, stages, f, dayStart) == ApplyHistoryFilters(sessions, f, dayStart)
  {
    var all := [TopicStage, TagStage, FromStage, ToStage];
    assert multiset(all) == multiset{TopicStage, TagStage, FromStage, ToStage};
    forall st: Stage ensures st in stages <==> st in all {
      assert st in stages <==> st in multiset(stages);
      assert st in all <==> st in multiset(all);
    }
    StagesAreConjunction(sessions, stages, f, dayStart);
    forall s: Session ensures AllTest(stages, f, dayStart)(s) == MatchTest(f, dayStart)(s) {
      SameStagesSamePasses(s, stages, all, f, dayStart);
    }
    FilterExt(sessions, AllTest(stages, f, dayStart), MatchTest(f, dayStart));
    ApplyIsMatchFilter(sessions, f, dayStart);
  }

  /**
   * The result is the input at increasing positions: an order-preserving
   * subsequence, taken at the positions KeptIndices lists.
   */
  lemma ResultIsSubsequence(sessions: seq<Session>, f: HistoryFilters, dayStart: string -> Option<int>)
    ensures var r, ix := ApplyHistoryFilters(sessions, f, dayStart), KeptIndices(sessions, MatchTest(f, dayStart));
      && |r| == |ix|
      && (forall k :: 0 <= k < |ix| ==> r[k] == sessions[ix[k]])
      && (forall k, l :: 0 <= k < l < |ix| ==> ix[k] < ix[l])
  {
    ApplyIsMatchFilter(sessions, f, dayStart);
    FilterIsSubsequence(sessions, MatchTest(f, dayStart));
  }

  /** The positions kept are exactly those of the sessions matching every given filter. */
  lemma KeptAreMatching(sessions: seq<Session>, f: HistoryFilters, dayStart: string -> Option<int>)
    ensures var ix := KeptIndices(sessions, MatchTest(f, dayStart));
      forall i :: 0 <= i < |sessions| ==> (Matches(sessions[i], f, dayStart) <==> i in ix)
  {
    FilterIsSubsequence(sessions, MatchTest(f, dayStart));
  }

  /** A session is in the result exactly when it is an input session matching every given filter. */
  lemma MembershipIff(sessions: seq<Session>, f: HistoryFilters, dayStart: string -> Option<int>, x: Session)
    ensures x in ApplyHistoryFilters(sessions, f, dayStart) <==> x in sessions && Matches(x, f, dayStart)
  {
    ApplyIsMatchFilter(sessions, f, dayStart);
    FilterMembers(sessions, MatchTest(f, dayStart), x);
  }

  /** A blank topic or tag normalises to nothing. */
  lemma BlankKeys(topic: string, tag: string)
    requires forall i :: 0 <= i < |topic| ==> IsJsSpace(topic[i])
    requires forall i :: 0 <= i < |tag| ==> IsJsSpace(tag[i])
    ensures TopicKey(HistoryFilters(Some(topic), Some(tag), Some(""), Some(""))) == []
    ensures TagKey(HistoryFilters(Some(topic), Some(tag), Some(""), Some(""))) == []
  {
    assert JsTrim(topic) == [] && JsTrim(tag) == [];
  }

  /** With no filter given (or only blank topic and tag, and empty dates), every session is kept. */
  lemma NoFiltersKeepAll(sessions: seq<Session>, topic: string, tag: string, dayStart: string -> Option<int>)
    requires forall i :: 0 <= i < |topic| ==> IsJsSpace(topic[i])
    requires forall i :: 0 <= i < |tag| ==> IsJsSpace(tag[i])
    ensures ApplyHistoryFilters(sessions, HistoryFilters(None, None, None, None), dayStart) == sessions
    ensures ApplyHistoryFilters(sessions, HistoryFilters(Some(topic), Some(tag), Some(""), Some("")), dayStart) == sessions
  {
    BlankKeys("", "");
    assert TopicKey(HistoryFilters(None, None, None, None)) == TopicKey(HistoryFilters(Some(""), Some(""), Some(""), Some("")));
    assert TagKey(HistoryFilters(None, None, None, None)) == TagKey(HistoryFilters(Some(""), Some(""), Some(""), Some("")));
    BlankKeys(topic, tag);
  }

  /** A tag with no blank at either end and no leading '#'. */
  predicate PlainTag(t: string) {
    t == [] || (!IsJsSpace(t[0]) && !IsJsSpace(t[|t| - 1]) && t[0] != '#')
  }

  /** Lower-casing commutes with putting a '#' in front. */
  lemma LowerHash(t: string)
    ensures Lower("#" + t) == "#" + Lower(t)
  {
    var h := "#" + t;
    assert forall i :: 0 < i < |h| ==> h[i] == t[i - 1];
  }

  /** A string with no blank at either end is left alone by trim(). */
  lemma TrimmedStays(t: string)
    requires t == [] || (!IsJsSpace(t[0]) && !IsJsSpace(t[|t| - 1]))
    ensures JsTrim(t) == t
  {
    StripOfStripped(t, JsSpace);
  }

  /** A plain tag with a '#' in front is left alone by trim(). */
  lemma HashTrimmed(t: string)
    requires PlainTag(t)
    ensures JsTrim("#" + t) == "#" + t
  {
    var h := "#" + t;
    if t == [] {
      assert h == "#";
    } else {
      assert h[|h| - 1] == t[|t| - 1];
    }
    assert !IsJsSpace(h[0]);
    TrimmedStays(h);
  }

  /** Lower-casing never makes a '#'. */
  lemma LowerNoHash(t: string)
    requires t != [] && t[0] != '#'
    ensures Lower(t)[0] != '#'
  {
  }

  /** A '#' put in front is the one dropped. */
  lemma DropHashOfHash(x: string)
    ensures DropHash("#" + x) == x
  {
    assert ("#" + x)[0] == '#' && ("#" + x)[1..] == x;
  }

  /** Without a leading '#' nothing is dropped. */
  lemma DropHashLower(t: string)
    requires t == [] || t[0] != '#'
    ensures DropHash(Lower(t)) == Lower(t)
  {
    if t != [] {
      LowerNoHash(t);
    }
  }

  /** The tag key of "#" + t drops the '#'. */
  lemma HashTagKey(t: string)
    requires PlainTag(t)
    ensures TagKey(HistoryFilters(None, Some("#" + t), None, None)) == Lower(t)
  {
    HashTrimmed(t);
    LowerHash(t);
    DropHashOfHash(Lower(t));
  }

  /** The tag key of a plain tag is the tag lower-cased. */
  lemma PlainTagKey(t: string)
    requires PlainTag(t)
    ensures TagKey(HistoryFilters(None, Some(t), None, None)) == Lower(t)
  {
    TrimmedStays(t);
    DropHashLower(t);
  }

  /** "#ev" and "ev" are the same tag filter. */
  lemma HashTagEquivalent(t: string)
    requires PlainTag(t)
    ensures TagKey(HistoryFilters(None, Some("#" + t), None, None)) == Lower(t)
    ensures TagKey(HistoryFilters(None, Some(t), None, None)) == Lower(t)
  {
    HashTagKey(t);
    PlainTagKey(t);
  }

  /** Hence the whole filter treats a leading '#' on the tag as absent. */
  lemma HashTagSameResult(sessions: seq<Session>, f: HistoryFilters, t: string, dayStart: string -> Option<int>)
    requires PlainTag(t)
    ensures ApplyHistoryFilters(sessions, f.(tag := Some("#" + t)), dayStart)
         == ApplyHistoryFilters(sessions, f.(tag := Some(t)), dayStart)
  {
    HashTagEquivalent(t);
    assert TagKey(f.(tag := Some("#" + t))) == TagKey(HistoryFilters(None, Some("#" + t), None, None));
    assert TagKey(f.(tag := Some(t))) == TagKey(HistoryFilters(None, Some(t), None, None));
  }

  /**
   * What a kept session satisfies: its prompt contains the topic and the
   * '#'-tag when given, and its created_at parses and lies between the
   * start of the from day and the last millisecond of the to day.
   */
  lemma KeptSatisfiesFilters(sessions: seq<Session>, f: HistoryFilters, dayStart: string -> Option<int>, x: Session)
    requires x in ApplyHistoryFilters(sessions, f, dayStart)
    ensures x in sessions
    ensures TopicKey(f) != [] ==> Contains(Lower(x.prompt), TopicKey(f))
    ensures TagKey(f) != [] ==> Contains(Lower(x.prompt), "#" + TagKey(f))
    ensures Day(f.fromDate, dayStart).Some? ==>
      x.createdAt.Some? && x.createdAt.value >= Day(f.fromDate, dayStart).value
    ensures Day(f.toDate, dayStart).Some? ==>
      x.createdAt.Some? && x.createdAt.value <= Day(f.toDate, dayStart).value + DayEndOffset
  {
    MembershipIff(sessions, f, dayStart, x);
    var all := [TopicStage, TagStage, FromStage, ToStage];
    assert Passes(x, all[0], f, dayStart) && Passes(x, all[1], f, dayStart);
    assert Passes(x, all[2], f, dayStart) && Passes(x, all[3], f, dayStart);
  }

  /** A date that is empty or does not parse is the same as no date. */
  lemma UnparsedDatesIgnored(sessions: seq<Session>, f: HistoryFilters, dayStart: string -> Option<int>)
    requires f.fromDate.Some? ==> dayStart(f.fromDate.value).None?
    requires f.toDate.Some? ==> dayStart(f.toDate.value).None?
    ensures ApplyHistoryFilters(sessions, f, dayStart) == ApplyHistoryFilters(sessions, f.(fromDate := None, toDate := None), dayStart)
    ensures ApplyHistoryFilters(sessions, f, dayStart)
         == ApplyKeys(sessions, TopicKey(f), TagKey(f), None, None)
  {
  }
}
