/**
 * String operations with the semantics of the Python built-ins (and the few
 * JavaScript ones) that the modelled code calls: find/rfind with Python's
 * start normalisation, slicing with negative and out-of-range bounds,
 * str.replace, str.split, " ".join(s.split()), strip, ASCII lower-casing and
 * str(int).  Only ASCII whitespace and ASCII case are modelled.
 */
module Strings {

  // ---------------------------------------------------------------------------
  // Whitespace, strip, lower

  /** Python's str.isspace() on ASCII characters. */
  predicate IsPySpace(c: char) {
    c == ' ' || (9 <= c as int <= 13) || (28 <= c as int <= 31)
  }

  /** The whitespace JavaScript's String.prototype.trim() removes, on ASCII characters. */
  predicate IsJsSpace(c: char) {
    c == ' ' || (9 <= c as int <= 13)
  }

  /** Which notion of whitespace a trim uses. */
  datatype Space = PySpace | JsSpace

  predicate IsSpace(ws: Space, c: char) {
    match ws
    case PySpace => IsPySpace(c)
    case JsSpace => IsJsSpace(c)
  }

  /** The index of the first character at or after i that is not whitespace, or |s|. */
  function LeadCount(s: string, ws: Space, i: nat): (k: nat)
    requires i <= |s|
    ensures i <= k <= |s|
    ensures forall j :: i <= j < k ==> IsSpace(ws, s[j])
    ensures k == |s| || !IsSpace(ws, s[k])
    decreases |s| - i
  {
    if i < |s| && IsSpace(ws, s[i]) then LeadCount(s, ws, i + 1) else i
  }

  /** The end of s[lo..j] once its trailing whitespace is dropped. */
  function TrailEnd(s: string, ws: Space, lo: nat, j: nat): (e: nat)
    requires lo <= j <= |s|
    ensures lo <= e <= j
    ensures forall m :: e <= m < j ==> IsSpace(ws, s[m])
    ensures e == lo || !IsSpace(ws, s[e - 1])
  {
    if j > lo && IsSpace(ws, s[j - 1]) then TrailEnd(s, ws, lo, j - 1) else j
  }

  /** Removes the leading and trailing whitespace of the given kind. */
  function StripBy(s: string, ws: Space): (r: string)
    ensures var k := LeadCount(s, ws, 0); k + |r| <= |s| && r == s[k..k + |r|]
    ensures r == [] || (!IsSpace(ws, r[0]) && !IsSpace(ws, r[|r| - 1]))
    ensures r == [] <==> forall i :: 0 <= i < |s| ==> IsSpace(ws, s[i])
  {
    var k := LeadCount(s, ws, 0);
    var e := TrailEnd(s, ws, k, |s|);
    assert k < e ==> s[k..e][0] == s[k] && s[k..e][e - k - 1] == s[e - 1];
    assert (forall i :: 0 <= i < |s| ==> IsSpace(ws, s[i])) ==> k == |s|;
    s[k..e]
  }

  /** Python's str.strip(). */
  function Strip(s: string): string {
    StripBy(s, PySpace)
  }

  /** JavaScript's String.prototype.trim(). */
  function JsTrim(s: string): string {
    StripBy(s, JsSpace)
  }

  /** Neither end of a stripped string is whitespace. */
  predicate IsStripped(s: string) {
    s == [] || (!IsPySpace(s[0]) && !IsPySpace(s[|s| - 1]))
  }

  /** strip() leaves a stripped string, which is a contiguous piece of the original. */
  lemma StripIsStripped(s: string)
    ensures IsStripped(Strip(s))
    ensures var k := LeadCount(s, PySpace, 0); k + |Strip(s)| <= |s| && Strip(s) == s[k..k + |Strip(s)|]
  {
  }

  lemma StripOfStripped(s: string, ws: Space)
    requires s == [] || (!IsSpace(ws, s[0]) && !IsSpace(ws, s[|s| - 1]))
    ensures StripBy(s, ws) == s
  {
  }

  function LowerChar(c: char): char {
    if 'A' <= c <= 'Z' then (c as int + 32) as char else c
  }

  /** A lower-case piece of s is still there, at the same place, in Lower(s). */
  lemma LowerKeeps(s: string, lo: nat, m: string)
    requires lo + |m| <= |s| && s[lo..lo + |m|] == m && Lower(m) == m
    ensures HasAt(Lower(s), m, lo)
  {
    var ls := Lower(s);
    forall k | 0 <= k < |m|
      ensures ls[lo + k] == m[k]
    {
      assert s[lo + k] == s[lo..lo + |m|][k];
      assert Lower(m)[k] == LowerChar(m[k]);
    }
    SliceIs(ls, lo, m);
  }

  /** str.lower() / toLowerCase() on ASCII: one character for one, so indices are kept. */
  function Lower(s: string): (r: string)
    ensures |r| == |s|
    ensures forall i :: 0 <= i < |s| ==> r[i] == LowerChar(s[i])
  {
    seq(|s|, i requires 0 <= i < |s| => LowerChar(s[i]))
  }

  // ---------------------------------------------------------------------------
  // Searching

  /** p occurs in s at index i. */
  predicate HasAt(s: string, p: string, i: int) {
    0 <= i && i + |p| <= |s| && s[i..i + |p|] == p
  }

  /** p cannot occur at i when the character there differs from p's first. */
  lemma NotAtFirstDiffers(s: string, p: string, i: nat)
    requires p != [] && i < |s| && s[i] != p[0]
    ensures !HasAt(s, p, i)
  {
    if i + |p| <= |s| {
      assert s[i..i + |p|][0] == s[i];
    }
  }

  lemma AppendAssoc<T>(a: seq<T>, b: seq<T>, c: seq<T>)
    ensures a + (b + c) == (a + b) + c
  {
  }

  lemma DropIsSlice<T>(s: seq<T>, i: nat)
    requires i <= |s|
    ensures s[i..|s|] == s[i..]
  {
  }

  /** A piece of u, where u is laid into h at off, is the same piece of h. */
  lemma SliceShift<T>(h: seq<T>, off: nat, u: seq<T>, lo: nat, m: seq<T>)
    requires off + |u| <= |h| && forall k :: 0 <= k < |u| ==> h[off + k] == u[k]
    requires lo + |m| <= |u| && u[lo..lo + |m|] == m
    ensures h[off + lo..off + lo + |m|] == m
  {
    forall k | 0 <= k < |m|
      ensures h[off + lo + k] == m[k]
    {
      assert u[lo..lo + |m|][k] == u[lo + k];
    }
  }

  /** A character missing from a stretch of u is missing from the same stretch of h. */
  lemma NoneShift<T>(h: seq<T>, off: nat, u: seq<T>, lo: nat, hi: nat, c: T)
    requires off + |u| <= |h| && forall k :: 0 <= k < |u| ==> h[off + k] == u[k]
    requires lo <= hi <= |u| && forall k :: lo <= k < hi ==> u[k] != c
    ensures forall j :: off + lo <= j < off + hi ==> h[j] != c
  {
    forall j | off + lo <= j < off + hi
      ensures h[j] != c
    {
      assert h[off + (j - off)] == u[j - off];
    }
  }

  /** A slice that agrees with s at every index is s. */
  lemma SliceIs<T>(h: seq<T>, lo: nat, s: seq<T>)
    requires lo + |s| <= |h| && forall k :: 0 <= k < |s| ==> h[lo + k] == s[k]
    ensures h[lo..lo + |s|] == s
  {
  }

  lemma TakeIsSlice<T>(s: seq<T>, j: nat)
    requires j <= |s|
    ensures s[0..j] == s[..j]
  {
  }

  /** Regrouping a + (c + b) as a + c + b. */
  lemma Regroup<T>(x: seq<T>, a: seq<T>, c: seq<T>, b: seq<T>)
    requires x == a + (c + b)
    ensures x == a + c + b
  {
    AppendAssoc(a, c, b);
  }

  /** An empty prefix changes nothing... */
  lemma DropEmpty<T>(x: seq<T>, y: seq<T>)
    requires x == [] + y
    ensures x == y
  {
    assert [] + y == y;
  }

  /** ...at the end... */
  lemma DropEmptyTail<T>(x: seq<T>, a: seq<T>)
    requires x == a + []
    ensures x == a
  {
    assert a + [] == a;
  }

  /** ...or in the middle. */
  lemma DropEmptyMiddle<T>(x: seq<T>, a: seq<T>, b: seq<T>)
    requires x == a + [] + b
    ensures x == a + b
  {
    assert a + [] == a;
  }

  /** Replacing the tail y of x == c + y by an equal b. */
  lemma Subst<T>(x: seq<T>, c: seq<T>, y: seq<T>, b: seq<T>)
    requires x == c + y && y == b
    ensures x == c + b
  {
  }

  lemma SliceCons<T>(s: seq<T>, i: nat, j: nat)
    requires i < j <= |s|
    ensures s[i..j] == [s[i]] + s[i + 1..j]
  {
  }

  /** x == c + (r + t) regrouped as (c + r) + t. */
  lemma ConsRun<T>(x: seq<T>, y: seq<T>, c: seq<T>, r: seq<T>, t: seq<T>, s: seq<T>)
    requires x == c + y && y == r + t && s == c + r
    ensures x == s + t
  {
    AppendAssoc(c, r, t);
  }

  /** Where the three parts of a + m + b lie. */
  lemma Parts<T>(a: seq<T>, m: seq<T>, b: seq<T>)
    ensures var h := a + m + b;
      && |h| == |a| + |m| + |b|
      && (forall k :: 0 <= k < |a| ==> h[k] == a[k])
      && (forall k :: 0 <= k < |m| ==> h[|a| + k] == m[k])
      && (forall k :: 0 <= k < |b| ==> h[|a| + |m| + k] == b[k])
      && h[..|a|] == a && h[|a|..|a| + |m|] == m && h[|a| + |m|..] == b
  {
    var h := a + m + b;
    assert h[..|a|] == a;
    assert h[|a|..|a| + |m|] == m;
    assert h[|a| + |m|..] == b;
  }

  /** p cannot occur at i when some character of it differs from the text. */
  lemma NotAtDiffers(s: string, p: string, i: nat, k: nat)
    requires k < |p| && i + k < |s| && s[i + k] != p[k]
    ensures !HasAt(s, p, i)
  {
    if i + |p| <= |s| {
      assert s[i..i + |p|][k] == s[i + k];
    }
  }

  /** Find is pinned by an occurrence with none before it. */
  lemma FindIs(s: string, p: string, start: nat, r: nat)
    requires start <= r && HasAt(s, p, r)
    requires forall j :: start <= j < r ==> !HasAt(s, p, j)
    ensures Find(s, p, start) == r
  {
  }

  /** The first c at or after start is where Find looks for the one-character pattern [c]. */
  lemma FindCharIs(s: string, c: char, start: nat, r: nat)
    requires start <= r < |s| && s[r] == c
    requires forall j :: start <= j < r ==> s[j] != c
    ensures Find(s, [c], start) == r
  {
    forall j | start <= j < r
      ensures !HasAt(s, [c], j)
    {
      NotAtFirstDiffers(s, [c], j);
    }
    assert s[r..r + 1] == [c];
    FindIs(s, [c], start, r);
  }

  /** Find gives -1 when there is no occurrence from start on. */
  lemma FindNone(s: string, p: string, start: nat)
    requires start <= |s|
    requires forall j :: start <= j ==> !HasAt(s, p, j)
    ensures Find(s, p, start) == -1
  {
  }

  function FindFrom(s: string, p: string, k: nat): (r: int)
    ensures r == -1 || (k <= r && HasAt(s, p, r))
    ensures forall j :: k <= j && (r == -1 || j < r) ==> !HasAt(s, p, j)
    decreases |s| + 1 - k
  {
    if k + |p| > |s| then -1
    else if s[k..k + |p|] == p then k
    else FindFrom(s, p, k + 1)
  }

  /** Python's slice-bound normalisation: negative counts from the end, then clamp into [0, n]. */
  function NormIndex(n: nat, i: int): (r: nat)
    ensures r <= n
    ensures 0 <= i <= n ==> r == i
  {
    if i < 0 then (if n + i < 0 then 0 else n + i) else if i > n then n else i
  }

  /** Python's s.find(p, start): the first occurrence at or after the normalised start, or -1. */
  function Find(s: string, p: string, start: int): (r: int)
    ensures r == -1 || (NormIndex(|s|, start) <= r && HasAt(s, p, r))
    ensures start <= |s| ==> forall j :: NormIndex(|s|, start) <= j && (r == -1 || j < r) ==> !HasAt(s, p, j)
  {
    if start > |s| then -1 else FindFrom(s, p, NormIndex(|s|, start))
  }

  /** The last occurrence of p lying wholly before index end. */
  function RFindBefore(s: string, p: string, end: nat): (r: int)
    requires end <= |s|
    ensures r == -1 || (r + |p| <= end && HasAt(s, p, r))
    ensures forall j :: j + |p| <= end && (r == -1 || r < j) ==> !HasAt(s, p, j)
  {
    if end < |p| then -1
    else if s[end - |p|..end] == p then end - |p|
    else RFindBefore(s, p, end - 1)
  }

  /** Python's s.rfind(p, 0, end). */
  function RFind(s: string, p: string, end: int): int {
    RFindBefore(s, p, NormIndex(|s|, end))
  }

  /** The last occurrence is characterised by occurring and having none after it. */
  lemma RFindIs(s: string, p: string, end: nat, r: nat)
    requires end <= |s| && r + |p| <= end && HasAt(s, p, r)
    requires forall j :: r < j && j + |p| <= end ==> !HasAt(s, p, j)
    ensures RFindBefore(s, p, end) == r
  {
  }

  /** An occurrence inside w is at the same place inside pre + w + post. */
  lemma HasAtInside(pre: string, w: string, post: string, p: string, i: nat)
    requires i + |p| <= |w|
    ensures HasAt(pre + w + post, p, |pre| + i) <==> HasAt(w, p, i)
  {
    var h := pre + w + post;
    assert forall k :: 0 <= k < |w| ==> h[|pre| + k] == w[k];
    if HasAt(w, p, i) {
      SliceShift(h, |pre|, w, i, p);
    }
    if HasAt(h, p, |pre| + i) {
      forall k | 0 <= k < |p| ensures w[i + k] == p[k] {
        assert h[|pre| + i + k] == h[|pre| + i..|pre| + i + |p|][k];
      }
      SliceIs(w, i, p);
    }
  }

  /** A find that succeeds inside w succeeds at the shifted place inside pre + w + post. */
  lemma FindInside(pre: string, w: string, post: string, p: string, start: nat, r: nat)
    requires Find(w, p, start) == r
    ensures Find(pre + w + post, p, |pre| + start) == |pre| + r
  {
    var h := pre + w + post;
    assert start <= r && HasAt(w, p, r);
    HasAtInside(pre, w, post, p, r);
    forall j | |pre| + start <= j < |pre| + r
      ensures !HasAt(h, p, j)
    {
      HasAtInside(pre, w, post, p, j - |pre|);
    }
    FindIs(h, p, |pre| + start, |pre| + r);
  }

  /** A reverse find that succeeds inside w succeeds at the shifted place inside pre + w + post. */
  lemma RFindInside(pre: string, w: string, post: string, p: string, end: nat, r: nat)
    requires end <= |w| && RFindBefore(w, p, end) == r
    ensures RFind(pre + w + post, p, |pre| + end) == |pre| + r
  {
    var h := pre + w + post;
    HasAtInside(pre, w, post, p, r);
    forall j | |pre| + r < j && j + |p| <= |pre| + end
      ensures !HasAt(h, p, j)
    {
      HasAtInside(pre, w, post, p, j - |pre|);
    }
    RFindIs(h, p, |pre| + end, |pre| + r);
  }

  /** Python's `p in s` / JavaScript's s.includes(p). */
  predicate Contains(s: string, p: string) {
    FindFrom(s, p, 0) != -1
  }

  lemma ContainsIff(s: string, p: string)
    ensures Contains(s, p) <==> exists i :: HasAt(s, p, i)
  {
    if exists i :: HasAt(s, p, i) {
      var i :| HasAt(s, p, i);
      assert FindFrom(s, p, 0) != -1;
    }
  }

  // ---------------------------------------------------------------------------
  // Slicing

  /** Python's s[a:b]. */
  function Slice<T>(s: seq<T>, a: int, b: int): (r: seq<T>)
    ensures |r| <= |s|
  {
    var i, j := NormIndex(|s|, a), NormIndex(|s|, b);
    if i < j then s[i..j] else []
  }

  /** Python's s[:b]. */
  function Prefix<T>(s: seq<T>, b: int): (r: seq<T>)
    ensures |r| <= |s| && r == s[..|r|]
    ensures b >= 0 ==> |r| == (if b < |s| then b else |s|)
    ensures b < 0 ==> |r| == (if |s| + b < 0 then 0 else |s| + b)
  {
    Slice(s, 0, b)
  }

  // ---------------------------------------------------------------------------
  // Replacing

  /** Python's s.replace(pat, rep): left to right, non-overlapping. */
  function ReplaceAll(s: string, pat: string, rep: string): string
    requires pat != []
    decreases |s|
  {
    if |s| < |pat| then s
    else if s[..|pat|] == pat then rep + ReplaceAll(s[|pat|..], pat, rep)
    else [s[0]] + ReplaceAll(s[1..], pat, rep)
  }

  /** Replaces each occurrence of the character c by rep. */
  function ReplaceChar(s: string, c: char, rep: string): string {
    if s == [] then [] else (if s[0] == c then rep else [s[0]]) + ReplaceChar(s[1..], c, rep)
  }

  lemma {:induction false} ReplaceAllOneChar(s: string, c: char, rep: string)
    ensures ReplaceAll(s, [c], rep) == ReplaceChar(s, c, rep)
  {
    if s != [] {
      ReplaceAllOneChar(s[1..], c, rep);
    }
  }

  lemma {:induction false} ReplaceCharAppend(a: string, b: string, c: char, rep: string)
    ensures ReplaceChar(a + b, c, rep) == ReplaceChar(a, c, rep) + ReplaceChar(b, c, rep)
  {
    if a == [] {
      assert a + b == b;
    } else {
      assert (a + b)[0] == a[0] && (a + b)[1..] == a[1..] + b;
      ReplaceCharAppend(a[1..], b, c, rep);
      var h := if a[0] == c then rep else [a[0]];
      calc {
        ReplaceChar(a + b, c, rep);
        h + ReplaceChar(a[1..] + b, c, rep);
        h + (ReplaceChar(a[1..], c, rep) + ReplaceChar(b, c, rep));
        (h + ReplaceChar(a[1..], c, rep)) + ReplaceChar(b, c, rep);
      }
    }
  }

  /** The five-entity unescaping chain shared by the search client and the fetcher; `&amp;` goes first. */
  function UnescapeEntities(s: string): string {
    ReplaceAll(ReplaceAll(ReplaceAll(ReplaceAll(ReplaceAll(s, "&amp;", "&"), "&quot;", "\""), "&#39;", "'"), "&lt;", "<"), "&gt;", ">")
  }

  // ---------------------------------------------------------------------------
  // Splitting and joining

  predicate NoSpace(w: string) {
    forall i :: 0 <= i < |w| ==> !IsPySpace(w[i])
  }

  /** The longest prefix of s without whitespace. */
  function LeadingWord(s: string): (w: string)
    ensures |w| <= |s| && w == s[..|w|] && NoSpace(w)
    ensures |w| < |s| ==> IsPySpace(s[|w|])
  {
    if s == [] || IsPySpace(s[0]) then [] else [s[0]] + LeadingWord(s[1..])
  }

  /** Python's s.split() with no argument: the maximal runs of non-whitespace. */
  function Words(s: string): (ws: seq<string>)
    ensures forall k :: 0 <= k < |ws| ==> ws[k] != [] && NoSpace(ws[k])
    decreases |s|
  {
    if s == [] then []
    else if IsPySpace(s[0]) then Words(s[1..])
    else
      var w := LeadingWord(s);
      [w] + Words(s[|w|..])
  }

  /** Python's " ".join(ws). */
  function JoinSpace(ws: seq<string>): string {
    if ws == [] then [] else if |ws| == 1 then ws[0] else ws[0] + " " + JoinSpace(ws[1..])
  }

  /** Python's " ".join(s.split()). */
  function Collapse(s: string): string {
    JoinSpace(Words(s))
  }

  /** Text whose only whitespace is single inner spaces. */
  ghost predicate Collapsed(t: string) {
    && (t == [] || (t[0] != ' ' && t[|t| - 1] != ' '))
    && (forall i :: 0 <= i < |t| && IsPySpace(t[i]) ==> t[i] == ' ')
    && (forall i, j :: 0 <= i < j < |t| && j == i + 1 && t[i] == ' ' ==> t[j] != ' ')
  }

  lemma {:induction false} JoinSpaceCollapsed(ws: seq<string>)
    requires forall k :: 0 <= k < |ws| ==> ws[k] != [] && NoSpace(ws[k])
    ensures Collapsed(JoinSpace(ws))
    ensures JoinSpace(ws) == [] <==> ws == []
  {
    if |ws| > 1 {
      JoinSpaceCollapsed(ws[1..]);
      var w, rest := ws[0], JoinSpace(ws[1..]);
      var t := w + " " + rest;
      assert t == JoinSpace(ws);
      forall i | 0 <= i < |t| && IsPySpace(t[i]) ensures t[i] == ' ' {
        if i > |w| { assert t[i] == rest[i - |w| - 1]; }
      }
      forall i, j | 0 <= i < j < |t| && j == i + 1 && t[i] == ' ' ensures t[j] != ' ' {
        if i == |w| { assert t[j] == rest[0]; }
        else if i > |w| { assert t[i] == rest[i - |w| - 1] && t[j] == rest[j - |w| - 1]; }
      }
      assert t[|t| - 1] == rest[|rest| - 1];
    }
  }

  lemma {:induction false} WordsEmptyIff(s: string)
    ensures Words(s) == [] <==> forall i :: 0 <= i < |s| ==> IsPySpace(s[i])
    decreases |s|
  {
    if s != [] && IsPySpace(s[0]) {
      WordsEmptyIff(s[1..]);
      if Words(s[1..]) == [] {
        forall i | 0 <= i < |s| ensures IsPySpace(s[i]) {
          if i > 0 { assert s[i] == s[1..][i - 1]; }
        }
      }
    }
  }

  /**
   * " ".join(s.split()) leaves only single inner spaces, is empty exactly
   * when s is all whitespace, and a following strip() changes nothing.
   */
  lemma CollapseIsNormal(s: string)
    ensures Collapsed(Collapse(s))
    ensures Collapse(s) == [] <==> forall i :: 0 <= i < |s| ==> IsPySpace(s[i])
    ensures Strip(Collapse(s)) == Collapse(s)
  {
    JoinSpaceCollapsed(Words(s));
    WordsEmptyIff(s);
    var t := Collapse(s);
    if t != [] {
      assert !IsPySpace(t[0]) && !IsPySpace(t[|t| - 1]);
      StripOfStripped(t, PySpace);
    }
  }

  /** Python's s.split(c) for a one-character separator. */
  function SplitOn(s: string, c: char): (parts: seq<string>)
    ensures |parts| >= 1
    ensures forall k :: 0 <= k < |parts| ==> c !in parts[k]
  {
    if s == [] then [[]]
    else
      var rest := SplitOn(s[1..], c);
      if s[0] == c then [[]] + rest else [[s[0]] + rest[0]] + rest[1..]
  }

  /** Python's c.join(parts) for a one-character separator. */
  function JoinOn(parts: seq<string>, c: char): string {
    if parts == [] then [] else if |parts| == 1 then parts[0] else parts[0] + [c] + JoinOn(parts[1..], c)
  }

  /** Splitting and re-joining on the same character gives the text back. */
  lemma {:induction false} SplitOnJoin(s: string, c: char)
    ensures JoinOn(SplitOn(s, c), c) == s
  {
    if s != [] {
      SplitOnJoin(s[1..], c);
      var rest := SplitOn(s[1..], c);
      if s[0] == c {
        assert SplitOn(s, c)[1..] == rest;
      } else {
        var parts := SplitOn(s, c);
        assert parts[1..] == rest[1..];
        if |rest| == 1 {
          assert JoinOn(parts, c) == [s[0]] + rest[0];
        } else {
          assert JoinOn(rest, c) == rest[0] + [c] + JoinOn(rest[1..], c);
        }
      }
    }
  }

  // ---------------------------------------------------------------------------
  // Integers

  function Digit(d: nat): char
    requires d < 10
  {
    "0123456789"[d]
  }

  predicate IsDigit(c: char) {
    '0' <= c <= '9'
  }

  /** Python's str(n) for n >= 0. */
  function NatToString(n: nat): (r: string)
    ensures r != [] && forall i :: 0 <= i < |r| ==> IsDigit(r[i])
    ensures n < 10 <==> |r| == 1
  {
    if n < 10 then [Digit(n)] else NatToString(n / 10) + [Digit(n % 10)]
  }

  /** Python's str(n) / an f-string of an int. */
  function IntToString(n: int): (r: string)
    ensures r != []
  {
    if n < 0 then "-" + NatToString(-n) else NatToString(n)
  }

  lemma {:induction false} NatToStringInjective(a: nat, b: nat)
    requires NatToString(a) == NatToString(b)
    ensures a == b
  {
    if a >= 10 && b >= 10 {
      var ra, rb := NatToString(a), NatToString(b);
      assert ra[|ra| - 1] == rb[|rb| - 1];
      assert "0123456789"[a % 10] == "0123456789"[b % 10];
      assert a % 10 == b % 10;
      assert NatToString(a / 10) == ra[..|ra| - 1] == rb[..|rb| - 1] == NatToString(b / 10);
      NatToStringInjective(a / 10, b / 10);
    } else if a < 10 && b < 10 {
      assert "0123456789"[a] == "0123456789"[b];
    }
  }

  /** A printed integer starts with '-' exactly when it is negative. */
  lemma SignOfString(n: int)
    ensures IntToString(n)[0] == '-' <==> n < 0
  {
    if n >= 0 { assert IsDigit(NatToString(n)[0]); }
  }

  /** Distinct integers print differently. */
  lemma IntToStringInjective(a: int, b: int)
    requires IntToString(a) == IntToString(b)
    ensures a == b
  {
    SignOfString(a);
    SignOfString(b);
    if a < 0 && b < 0 {
      assert NatToString(-a) == IntToString(a)[1..];
      assert NatToString(-b) == IntToString(b)[1..];
      NatToStringInjective(-a, -b);
    } else if a >= 0 && b >= 0 {
      NatToStringInjective(a, b);
    }
  }
}
