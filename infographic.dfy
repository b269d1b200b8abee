/**
 * The template infographic renderer (backend/app/services/infographic.py):
 * XML escaping, the numbered bullets, the claims with their provenance ids,
 * the layout metadata and the SVG text. The SVG is kept as text; its UTF-8
 * encoding is not modelled.
 */
module Infographic {
  import opened Wrappers
  import opened Strings

  // ---------------------------------------------------------------------------
  // XML escaping

  /** _xml_escape: `&` first, then `<`, `>` and `"`. */
  function XmlEscape(s: string): string {
    ReplaceAll(ReplaceAll(ReplaceAll(ReplaceAll(s, "&", "&amp;"), "<", "&lt;"), ">", "&gt;"), "\"", "&quot;")
  }

  /** What one input character becomes. */
  function EscapeChar(c: char): string {
    if c == '&' then "&amp;"
    else if c == '<' then "&lt;"
    else if c == '>' then "&gt;"
    else if c == '"' then "&quot;"
    else [c]
  }

  /** The character-by-character escaping, the reference for XmlEscape. */
  function EscapeEach(s: string): string {
    if s == [] then [] else EscapeChar(s[0]) + EscapeEach(s[1..])
  }

  /** The four single-character replacements in the order XmlEscape applies them. */
  function EscapeChain(s: string): string {
    ReplaceChar(ReplaceChar(ReplaceChar(ReplaceChar(s, '&', "&amp;"), '<', "&lt;"), '>', "&gt;"), '"', "&quot;")
  }

  lemma EscapeChainAppend(a: string, b: string)
    ensures EscapeChain(a + b) == EscapeChain(a) + EscapeChain(b)
  {
    var s1a, s1b := ReplaceChar(a, '&', "&amp;"), ReplaceChar(b, '&', "&amp;");
    ReplaceCharAppend(a, b, '&', "&amp;");
    var s2a, s2b := ReplaceChar(s1a, '<', "&lt;"), ReplaceChar(s1b, '<', "&lt;");
    ReplaceCharAppend(s1a, s1b, '<', "&lt;");
    var s3a, s3b := ReplaceChar(s2a, '>', "&gt;"), ReplaceChar(s2b, '>', "&gt;");
    ReplaceCharAppend(s2a, s2b, '>', "&gt;");
    ReplaceCharAppend(s3a, s3b, '"', "&quot;");
  }

  lemma {:induction false} ReplaceAbsent(s: string, c: char, rep: string)
    requires forall i :: 0 <= i < |s| ==> s[i] != c
    ensures ReplaceChar(s, c, rep) == s
  {
    if s != [] {
      ReplaceAbsent(s[1..], c, rep);
      assert s == [s[0]] + s[1..];
    }
  }

  lemma ReplaceOne(c: char, d: char, rep: string)
    ensures ReplaceChar([c], d, rep) == if c == d then rep else [c]
  {
    assert [c][1..] == [];
  }

  /** "&amp;" holds none of the characters escaped after `&`. */
  lemma AmpStable()
    ensures ReplaceChar("&amp;", '<', "&lt;") == "&amp;"
    ensures ReplaceChar("&amp;", '>', "&gt;") == "&amp;"
    ensures ReplaceChar("&amp;", '"', "&quot;") == "&amp;"
  {
    AmpPlain('<', "&lt;");
    AmpPlain('>', "&gt;");
    AmpPlain('"', "&quot;");
  }

  lemma AmpPlain(c: char, rep: string)
    requires c != '&' && c != 'a' && c != 'm' && c != 'p' && c != ';'
    ensures ReplaceChar("&amp;", c, rep) == "&amp;"
  {
    var amp := "&amp;";
    assert amp == ['&'] + "amp;" && "amp;" == ['a'] + "mp;" && "mp;" == ['m'] + "p;" && "p;" == ['p'] + ";";
    ReplaceAbsent(amp, c, rep);
  }

  lemma EscapeChainAmp()
    ensures EscapeChain("&") == "&amp;"
  {
    ReplaceOne('&', '&', "&amp;");
    AmpStable();
  }

  lemma EscapeChainLt()
    ensures EscapeChain("<") == "&lt;"
  {
    ReplaceOne('<', '&', "&amp;");
    ReplaceOne('<', '<', "&lt;");
    ReplaceAbsent("&lt;", '>', "&gt;");
    ReplaceAbsent("&lt;", '"', "&quot;");
  }

  lemma EscapeChainGt()
    ensures EscapeChain(">") == "&gt;"
  {
    ReplaceOne('>', '&', "&amp;");
    ReplaceOne('>', '<', "&lt;");
    ReplaceOne('>', '>', "&gt;");
    ReplaceAbsent("&gt;", '"', "&quot;");
  }

  lemma EscapeChainQuot()
    ensures EscapeChain("\"") == "&quot;"
  {
    ReplaceOne('"', '&', "&amp;");
    ReplaceOne('"', '<', "&lt;");
    ReplaceOne('"', '>', "&gt;");
    ReplaceOne('"', '"', "&quot;");
  }

  lemma EscapeChainOther(c: char)
    requires c != '&' && c != '<' && c != '>' && c != '"'
    ensures EscapeChain([c]) == [c]
  {
    ReplaceOne(c, '&', "&amp;");
    ReplaceOne(c, '<', "&lt;");
    ReplaceOne(c, '>', "&gt;");
    ReplaceOne(c, '"', "&quot;");
  }

  lemma EscapeChainOne(c: char)
    ensures EscapeChain([c]) == EscapeChar(c)
  {
    if c == '&' {
      EscapeChainAmp();
    } else if c == '<' {
      EscapeChainLt();
    } else if c == '>' {
      EscapeChainGt();
    } else if c == '"' {
      EscapeChainQuot();
    } else {
      EscapeChainOther(c);
    }
  }

  /** Escaping the whole string at once equals escaping it character by character. */
  lemma {:induction false} XmlEscapeIsCharwise(s: string)
    ensures XmlEscape(s) == EscapeEach(s)
  {
    ReplaceAllOneChar(s, '&', "&amp;");
    var s1 := ReplaceChar(s, '&', "&amp;");
    ReplaceAllOneChar(s1, '<', "&lt;");
    var s2 := ReplaceChar(s1, '<', "&lt;");
    ReplaceAllOneChar(s2, '>', "&gt;");
    var s3 := ReplaceChar(s2, '>', "&gt;");
    ReplaceAllOneChar(s3, '"', "&quot;");
    assert XmlEscape(s) == EscapeChain(s);
    ChainIsCharwise(s);
  }

  lemma {:induction false} ChainIsCharwise(s: string)
    ensures EscapeChain(s) == EscapeEach(s)
  {
    if s != [] {
      assert s == [s[0]] + s[1..];
      EscapeChainAppend([s[0]], s[1..]);
      EscapeChainOne(s[0]);
      ChainIsCharwise(s[1..]);
    }
  }

  /** Reads the escaped text back: each of the four entities gives its character. */
  function XmlUnescape(t: string): string
    decreases |t|
  {
    if t == [] then []
    else if |t| >= 5 && t[..5] == "&amp;" then "&" + XmlUnescape(t[5..])
    else if |t| >= 4 && t[..4] == "&lt;" then "<" + XmlUnescape(t[4..])
    else if |t| >= 4 && t[..4] == "&gt;" then ">" + XmlUnescape(t[4..])
    else if |t| >= 6 && t[..6] == "&quot;" then "\"" + XmlUnescape(t[6..])
    else [t[0]] + XmlUnescape(t[1..])
  }

  /** Escaping loses nothing: every `&` becomes `&amp;` exactly once, so the text reads back. */
  lemma {:induction false} XmlEscapeRoundTrip(s: string)
    ensures XmlUnescape(XmlEscape(s)) == s
  {
    XmlEscapeIsCharwise(s);
    UnescapeEach(s);
  }

  lemma UnescapeAmp(rest: string)
    ensures XmlUnescape("&amp;" + rest) == "&" + XmlUnescape(rest)
  {
    var t := "&amp;" + rest;
    assert t[..5] == "&amp;" && t[5..] == rest;
  }

  /** The two four-character entities, `&lt;` and `&gt;`, read back to their characters. */
  lemma UnescapeShort(c: char, rest: string)
    requires c == '<' || c == '>'
    ensures XmlUnescape(EscapeChar(c) + rest) == [c] + XmlUnescape(rest)
  {
    var t := EscapeChar(c) + rest;
    assert t[..4] == EscapeChar(c) && t[4..] == rest;
    assert t[1] == (if c == '<' then 'l' else 'g');
  }

  lemma UnescapeQuot(rest: string)
    ensures XmlUnescape("&quot;" + rest) == "\"" + XmlUnescape(rest)
  {
    var t := "&quot;" + rest;
    assert t[..6] == "&quot;" && t[6..] == rest;
    assert t[1] == 'q';
  }

  lemma UnescapePlain(c: char, rest: string)
    requires c != '&'
    ensures XmlUnescape([c] + rest) == [c] + XmlUnescape(rest)
  {
    var t := [c] + rest;
    assert t[0] == c && t[1..] == rest;
  }

  /** One escaped character followed by any text reads back to that character. */
  lemma UnescapeOne(c: char, rest: string)
    ensures XmlUnescape(EscapeChar(c) + rest) == [c] + XmlUnescape(rest)
  {
    if c == '&' {
      UnescapeAmp(rest);
    } else if c == '<' || c == '>' {
      UnescapeShort(c, rest);
    } else if c == '"' {
      UnescapeQuot(rest);
    } else {
      UnescapePlain(c, rest);
    }
  }

  lemma {:induction false} UnescapeEach(s: string)
    ensures XmlUnescape(EscapeEach(s)) == s
  {
    if s != [] {
      UnescapeOne(s[0], EscapeEach(s[1..]));
      UnescapeEach(s[1..]);
      assert s == [s[0]] + s[1..];
    }
  }

  /** The escaped text has no raw `<`, `>` or `"`, and is never shorter. */
  lemma {:induction false} EscapedIsSafe(s: string)
    ensures var t := XmlEscape(s);
      |t| >= |s| && forall i :: 0 <= i < |t| ==> t[i] != '<' && t[i] != '>' && t[i] != '"'
  {
    XmlEscapeIsCharwise(s);
    EachIsSafe(s);
  }

  lemma {:induction false} EachIsSafe(s: string)
    ensures var t := EscapeEach(s);
      |t| >= |s| && forall i :: 0 <= i < |t| ==> t[i] != '<' && t[i] != '>' && t[i] != '"'
  {
    if s != [] {
      EachIsSafe(s[1..]);
      var e := EscapeChar(s[0]);
      var rest := EscapeEach(s[1..]);
      var t := EscapeEach(s);
      assert t == e + rest;
      forall i | 0 <= i < |t| ensures t[i] != '<' && t[i] != '>' && t[i] != '"' {
        if i >= |e| { assert t[i] == rest[i - |e|]; }
      }
    }
  }

  // ---------------------------------------------------------------------------
  // Bullets and claims

  /** One entry of the `sources` list the renderer is given. */
  datatype SourceMeta = SourceMeta(sourceId: Option<int>, title: Option<string>, url: string, confidence: Option<real>)

  /** `s.get("title")` is truthy. */
  predicate HasTitle(s: SourceMeta) {
    s.title.Some? && s.title.value != []
  }

  const DefaultBullet: string := "Add sources to generate richer results."
  const MaxBullets := 5
  const MaxTitleChars := 80

  /** f"{idx+1}. {title.strip()[:80]}" */
  function Bullet(idx: nat, title: string): string {
    IntToString(idx + 1) + ". " + Prefix(Strip(title), MaxTitleChars)
  }

  /** The bullets for the titled sources of ss, the first of which sits at position idx. */
  function Numbered(ss: seq<SourceMeta>, idx: nat): (bs: seq<string>)
    ensures |bs| <= |ss|
  {
    if ss == [] then []
    else if HasTitle(ss[0]) then [Bullet(idx, ss[0].title.value)] + Numbered(ss[1..], idx + 1)
    else Numbered(ss[1..], idx + 1)
  }

  /** The bullet list: the titled sources among the first five, or the default bullet. */
  function KeyBullets(sources: seq<SourceMeta>): (bs: seq<string>)
    ensures 1 <= |bs| <= MaxBullets
  {
    var b := Numbered(Prefix(sources, MaxBullets), 0);
    if b == [] then [DefaultBullet] else b
  }

  /** Every titled source of ss has its bullet, numbered by its own position. */
  lemma {:induction false} NumberedKeepsTitled(ss: seq<SourceMeta>, idx: nat)
    ensures forall i :: 0 <= i < |ss| && HasTitle(ss[i]) ==> Bullet(idx + i, ss[i].title.value) in Numbered(ss, idx)
  {
    forall i | 0 <= i < |ss| && HasTitle(ss[i])
      ensures Bullet(idx + i, ss[i].title.value) in Numbered(ss, idx)
    {
      NumberedKeepsOne(ss, idx, i);
    }
  }

  lemma NumberedKeepsOne(ss: seq<SourceMeta>, idx: nat, i: nat)
    requires i < |ss| && HasTitle(ss[i])
    ensures Bullet(idx + i, ss[i].title.value) in Numbered(ss, idx)
  {
    NumberedIsFormatted(ss, idx);
    EntriesKeepOne(ss, idx, i);
    var es := Entries(ss, idx);
    var j :| 0 <= j < |es| && es[j] == Entry(idx + i, ss[i].title.value);
    assert Numbered(ss, idx)[j] == Bullet(es[j].pos, es[j].title);
  }

  /** A titled source's position and title, before the bullet text is formatted. */
  datatype Entry = Entry(pos: nat, title: string)

  /** The entries behind Numbered. */
  function Entries(ss: seq<SourceMeta>, idx: nat): seq<Entry> {
    if ss == [] then []
    else if HasTitle(ss[0]) then [Entry(idx, ss[0].title.value)] + Entries(ss[1..], idx + 1)
    else Entries(ss[1..], idx + 1)
  }

  lemma {:induction false} NumberedIsFormatted(ss: seq<SourceMeta>, idx: nat)
    ensures var bs, es := Numbered(ss, idx), Entries(ss, idx);
      |bs| == |es| && forall j :: 0 <= j < |es| ==> bs[j] == Bullet(es[j].pos, es[j].title)
    decreases |ss|
  {
    if ss != [] {
      NumberedIsFormatted(ss[1..], idx + 1);
      var bs, es := Numbered(ss, idx), Entries(ss, idx);
      var brest, erest := Numbered(ss[1..], idx + 1), Entries(ss[1..], idx + 1);
      if HasTitle(ss[0]) {
        assert bs == [Bullet(idx, ss[0].title.value)] + brest;
        assert es == [Entry(idx, ss[0].title.value)] + erest;
        forall j | 0 <= j < |es| ensures bs[j] == Bullet(es[j].pos, es[j].title) {
          if j > 0 {
            assert bs[j] == brest[j - 1] && es[j] == erest[j - 1];
          }
        }
      } else {
        assert bs == brest && es == erest;
      }
    }
  }

  lemma {:induction false} EntriesKeepOne(ss: seq<SourceMeta>, idx: nat, i: nat)
    requires i < |ss| && HasTitle(ss[i])
    ensures Entry(idx + i, ss[i].title.value) in Entries(ss, idx)
    decreases i
  {
    var rest := Entries(ss[1..], idx + 1);
    if i > 0 {
      EntriesKeepOne(ss[1..], idx + 1, i - 1);
      assert ss[1..][i - 1] == ss[i];
      if HasTitle(ss[0]) {
        InSuffix(Entry(idx + i, ss[i].title.value), [Entry(idx, ss[0].title.value)], rest);
      }
    }
  }

  lemma InSuffix<T>(x: T, a: seq<T>, b: seq<T>)
    requires x in b
    ensures x in a + b
  {
    var j :| 0 <= j < |b| && b[j] == x;
    assert (a + b)[|a| + j] == x;
  }

  /** Every bullet of Numbered comes from a titled source at its own position. */
  lemma {:induction false} NumberedOnlyTitled(ss: seq<SourceMeta>, idx: nat)
    ensures forall b :: b in Numbered(ss, idx) ==>
              exists i :: 0 <= i < |ss| && HasTitle(ss[i]) && b == Bullet(idx + i, ss[i].title.value)
    decreases |ss|
  {
    if ss != [] {
      NumberedOnlyTitled(ss[1..], idx + 1);
      var rest := Numbered(ss[1..], idx + 1);
      forall b | b in Numbered(ss, idx)
        ensures exists i :: 0 <= i < |ss| && HasTitle(ss[i]) && b == Bullet(idx + i, ss[i].title.value)
      {
        if b in rest {
          var j :| 0 <= j < |ss[1..]| && HasTitle(ss[1..][j]) && b == Bullet(idx + 1 + j, ss[1..][j].title.value);
          assert ss[j + 1] == ss[1..][j];
          assert idx + 1 + j == idx + (j + 1);
        } else {
          assert HasTitle(ss[0]) && b == Bullet(idx + 0, ss[0].title.value);
        }
      }
    }
  }

  /** Numbered is empty exactly when no source has a title. */
  lemma {:induction false} NumberedEmptyIff(ss: seq<SourceMeta>, idx: nat)
    ensures Numbered(ss, idx) == [] <==> forall i :: 0 <= i < |ss| ==> !HasTitle(ss[i])
    decreases |ss|
  {
    if ss != [] {
      NumberedEmptyIff(ss[1..], idx + 1);
      if !HasTitle(ss[0]) && Numbered(ss, idx) == [] {
        forall i | 0 <= i < |ss| ensures !HasTitle(ss[i]) {
          if i > 0 { assert ss[i] == ss[1..][i - 1]; }
        }
      }
    }
  }

  /**
   * Each titled source among the first five has the bullet numbered by its
   * position there (so numbers may skip), every bullet comes from one, and
   * the default bullet stands alone exactly when there is none.
   */
  lemma KeyBulletsFromTitledSources(sources: seq<SourceMeta>)
    ensures var bs := KeyBullets(sources);
      var n := if |sources| < MaxBullets then |sources| else MaxBullets;
      && (bs == [DefaultBullet] <==> forall i :: 0 <= i < n ==> !HasTitle(sources[i]))
      && (forall i :: 0 <= i < n && HasTitle(sources[i]) ==> Bullet(i, sources[i].title.value) in bs)
      && (bs != [DefaultBullet] ==>
            forall b :: b in bs ==> exists i :: 0 <= i < n && HasTitle(sources[i]) && b == Bullet(i, sources[i].title.value))
  {
    var first := Prefix(sources, MaxBullets);
    var n := if |sources| < MaxBullets then |sources| else MaxBullets;
    assert |first| == n;
    forall i | 0 <= i < n ensures first[i] == sources[i] {}
    KeyBulletsDefaultIff(sources);
    var b := Numbered(first, 0);
    forall i | 0 <= i < n && HasTitle(sources[i])
      ensures Bullet(i, sources[i].title.value) in b
    {
      NumberedKeepsOne(first, 0, i);
    }
    if b == [] {
      assert KeyBullets(sources) == [DefaultBullet];
    } else {
      assert KeyBullets(sources) == b;
      NumberedOnlyTitled(first, 0);
      forall x | x in b
        ensures exists i :: 0 <= i < n && HasTitle(sources[i]) && x == Bullet(i, sources[i].title.value)
      {
        var i :| 0 <= i < |first| && HasTitle(first[i]) && x == Bullet(0 + i, first[i].title.value);
        assert first[i] == sources[i];
      }
    }
  }

  /** The default bullet stands alone exactly when none of the first five sources has a title. */
  lemma KeyBulletsDefaultIff(sources: seq<SourceMeta>)
    ensures var n := if |sources| < MaxBullets then |sources| else MaxBullets;
      KeyBullets(sources) == [DefaultBullet] <==> forall i :: 0 <= i < n ==> !HasTitle(sources[i])
  {
    var first := Prefix(sources, MaxBullets);
    var n := if |sources| < MaxBullets then |sources| else MaxBullets;
    assert |first| == n;
    forall i | 0 <= i < n ensures first[i] == sources[i] {}
    NumberedEmptyIff(first, 0);
    var b := Numbered(first, 0);
    if b != [] {
      NumberedOnlyTitled(first, 0);
      assert b[0] in b;
      var i :| 0 <= i < |first| && HasTitle(first[i]) && b[0] == Bullet(0 + i, first[i].title.value);
      DefaultIsNoBullet(i, first[i].title.value);
      assert b != [DefaultBullet];
    }
  }

  /** The default bullet cannot be mistaken for a numbered one. */
  lemma DefaultIsNoBullet(i: nat, title: string)
    ensures Bullet(i, title) != DefaultBullet
  {
    var b := Bullet(i, title);
    var d := IntToString(i + 1);
    assert b[0] == d[0];
    assert IsDigit(d[0]) by { DigitsOfNat(i + 1); }
  }

  lemma DigitsOfNat(n: nat)
    requires n > 0
    ensures |IntToString(n)| > 0 && IsDigit(IntToString(n)[0])
  {
    SignOfString(n);
  }

  /** One claim of layout_meta. */
  datatype Claim = Claim(id: string, text: string, sourceIds: seq<int>, grounded: bool)

  /** The ids of the sources that have one, in source order. */
  function SomeIds(sources: seq<SourceMeta>): seq<int> {
    if sources == [] then []
    else (if sources[0].sourceId.Some? then [sources[0].sourceId.value] else []) + SomeIds(sources[1..])
  }

  /** An id is listed exactly when some source carries it. */
  lemma {:induction false} SomeIdsMembers(sources: seq<SourceMeta>, x: int)
    ensures x in SomeIds(sources) <==> exists j :: 0 <= j < |sources| && sources[j].sourceId == Some(x)
  {
    if sources != [] {
      SomeIdsMembers(sources[1..], x);
      if exists j :: 0 <= j < |sources| && sources[j].sourceId == Some(x) {
        var j :| 0 <= j < |sources| && sources[j].sourceId == Some(x);
        if j > 0 {
          assert sources[1..][j - 1] == sources[j];
        }
      }
      if exists j :: 0 <= j < |sources[1..]| && sources[1..][j].sourceId == Some(x) {
        var j :| 0 <= j < |sources[1..]| && sources[1..][j].sourceId == Some(x);
        assert sources[j + 1] == sources[1..][j];
      }
    }
  }

  /** The non-None source ids of the first two sources. */
  function ClaimSourceIds(sources: seq<SourceMeta>): (ids: seq<int>)
    ensures ids == SomeIds(sources[..if 2 < |sources| then 2 else |sources|])
    ensures |ids| <= 2 && |ids| <= |sources|
    ensures forall k :: 0 <= k < |ids| ==> exists j :: 0 <= j < 2 && j < |sources| && sources[j].sourceId == Some(ids[k])
    ensures ids == [] <==> forall j :: 0 <= j < 2 && j < |sources| ==> sources[j].sourceId.None?
  {
    var n := if 2 < |sources| then 2 else |sources|;
    var first := Prefix(sources, n);
    assert first == sources[..n];
    var a := if |first| > 0 && first[0].sourceId.Some? then [first[0].sourceId.value] else [];
    var b := if |first| > 1 && first[1].sourceId.Some? then [first[1].sourceId.value] else [];
    assert n > 0 ==> SomeIds(first) == a + SomeIds(first[1..]);
    assert n == 1 ==> first[1..] == [];
    assert n == 2 ==> SomeIds(first[1..]) == b + SomeIds(first[2..]) && first[2..] == [];
    a + b
  }

  /** The claim made from the k-th bullet. */
  function ClaimAt(k: nat, bullet: string, ids: seq<int>): Claim {
    Claim("c" + IntToString(k + 1), bullet, ids, ids != [])
  }

  /** The claims for the given bullets, all with the same ids. */
  function Claims(bullets: seq<string>, ids: seq<int>): (cs: seq<Claim>)
    ensures |cs| == |bullets|
  {
    seq(|bullets|, k requires 0 <= k < |bullets| => ClaimAt(k, bullets[k], ids))
  }

  /** The claims loop. */
  method BuildClaims(bullets: seq<string>, sources: seq<SourceMeta>) returns (claims: seq<Claim>)
    ensures claims == Claims(Prefix(bullets, 8), ClaimSourceIds(sources))
  {
    var limited := Prefix(bullets, 8);
    claims := [];
    var idx := 0;
    while idx < |limited|
      invariant 0 <= idx <= |limited|
      invariant claims == Claims(limited[..idx], ClaimSourceIds(sources))
    {
      var ids := ClaimSourceIds(sources);
      claims := claims + [ClaimAt(idx, limited[idx], ids)];
      idx := idx + 1;
    }
    assert limited[..idx] == limited;
  }

  /**
   * There is one claim per bullet, claim k has id "c{k+1}" and the k-th
   * bullet's text, the ids are distinct, and every claim has the same
   * source ids, grounded exactly when there are any.
   */
  lemma ClaimsShape(bullets: seq<string>, ids: seq<int>)
    ensures var cs := Claims(bullets, ids);
      && |cs| == |bullets|
      && (forall k :: 0 <= k < |cs| ==>
            cs[k].id == "c" + IntToString(k + 1) && cs[k].text == bullets[k]
            && cs[k].sourceIds == ids && (cs[k].grounded <==> ids != []))
      && (forall k, l :: 0 <= k < l < |cs| ==> cs[k].id != cs[l].id)
  {
    var cs := Claims(bullets, ids);
    forall k, l | 0 <= k < l < |cs| ensures cs[k].id != cs[l].id {
      if cs[k].id == cs[l].id {
        assert cs[k].id[1..] == IntToString(k + 1);
        assert cs[l].id[1..] == IntToString(l + 1);
        IntToStringInjective(k + 1, l + 1);
      }
    }
  }

  // ---------------------------------------------------------------------------
  // The SVG

  const SvgOpen: string := "<svg" + " xmlns='http://www.w3.org/2000/svg' width='800' height='450'>"

  lemma SvgOpenStart()
    ensures |SvgOpen| >= 4 && SvgOpen[..4] == "<svg"
  {
  }

  const Background: string := "<rect width='100%' height='100%' fill='#0B1220'/>"
  const TitleOpen: string := "<text x='40' y='70' fill='#E5E7EB' font-family='Arial' font-size='28' font-weight='700'>"
  const TextClose: string := "</text>"
  const Caption: string := "<text x='40' y='110' fill='#9CA3AF' font-family='Arial' font-size='14'>Generated infographic (MVP)</text>"
  const BulletOpen: string := "<text x='60' y='"
  const BulletStyle: string := "' fill='#E5E7EB' font-family='Arial' font-size='18'>"
  const SvgClose: string := "</svg>"

  function Header(title: string): seq<string> {
    [SvgOpen, Background, TitleOpen, title, TextClose, Caption]
  }

  /** The text element of one bullet at height y. */
  function BulletLine(y: int, bullet: string): string {
    BulletOpen + IntToString(y) + BulletStyle + XmlEscape(bullet) + TextClose
  }

  /** The text elements of the bullets, 36 apart from y = 160. */
  function BulletLines(bullets: seq<string>): (ls: seq<string>)
    ensures |ls| == |bullets|
  {
    seq(|bullets|, k requires 0 <= k < |bullets| => BulletLine(160 + 36 * k, bullets[k]))
  }

  /** "".join(lines) */
  function Concat(lines: seq<string>): string {
    if lines == [] then [] else lines[0] + Concat(lines[1..])
  }

  lemma {:induction false} ConcatAppend(a: seq<string>, b: seq<string>)
    ensures Concat(a + b) == Concat(a) + Concat(b)
  {
    if a == [] {
      assert a + b == b;
    } else {
      assert (a + b)[0] == a[0] && (a + b)[1..] == a[1..] + b;
      ConcatAppend(a[1..], b);
    }
  }

  function SvgLines(title: string, bullets: seq<string>): seq<string> {
    Header(title) + BulletLines(Prefix(bullets, 8)) + [SvgClose]
  }

  /** The SVG lines loop. */
  method BuildLines(title: string, bullets: seq<string>) returns (lines: seq<string>)
    ensures lines == SvgLines(title, bullets)
  {
    var limited := Prefix(bullets, 8);
    lines := Header(title);
    var y := 160;
    var k := 0;
    while k < |limited|
      invariant 0 <= k <= |limited|
      invariant y == 160 + 36 * k
      invariant lines == Header(title) + BulletLines(limited[..k])
    {
      var safe := XmlEscape(limited[k]);
      lines := lines + [BulletOpen + IntToString(y) + BulletStyle + safe + TextClose];
      y := y + 36;
      k := k + 1;
    }
    assert limited[..k] == limited;
    lines := lines + [SvgClose];
  }

  /** Lines that open with the `<svg` line and close with `</svg>` join into a whole document. */
  lemma {:induction false} ConcatIsDocument(lines: seq<string>)
    requires |lines| >= 2 && lines[0] == SvgOpen && lines[|lines| - 1] == SvgClose
    ensures var svg := Concat(lines);
      |svg| >= 9 && svg[..4] == "<svg" && svg[|svg| - 6..] == "</svg>"
  {
    var n := |lines|;
    assert lines == lines[..n - 1] + [SvgClose];
    ConcatAppend(lines[..n - 1], [SvgClose]);
    assert Concat([SvgClose]) == SvgClose by {
      assert Concat([SvgClose][1..]) == [];
    }
    assert Concat(lines[..n - 1]) == lines[0] + Concat(lines[1..n - 1]) by {
      assert lines[..n - 1][1..] == lines[1..n - 1];
    }
    SvgOpenStart();
  }

  /**
   * The SVG starts with `<svg` and ends with `</svg>`; the title is the
   * fourth line; after the six header lines, line 6+k is the k-th bullet,
   * escaped, at y = 160+36k; the last line closes the document.
   */
  lemma SvgShape(title: string, bullets: seq<string>)
    requires |bullets| <= 8
    ensures var lines := SvgLines(title, bullets);
      var svg := Concat(lines);
      && |lines| == 7 + |bullets|
      && lines[3] == title
      && |svg| >= 9 && svg[..4] == "<svg" && svg[|svg| - 6..] == "</svg>"
  {
    var lines := SvgLines(title, bullets);
    SvgLinesSplit(title, bullets);
    ConcatIsDocument(lines);
  }

  /** Line 6 + k of the SVG is the text element of bullet k, at y = 160 + 36k. */
  lemma SvgBullets(title: string, bullets: seq<string>)
    requires |bullets| <= 8
    ensures var lines := SvgLines(title, bullets);
      && |lines| == 7 + |bullets|
      && forall k :: 0 <= k < |bullets| ==> lines[6 + k] == BulletLine(160 + 36 * k, bullets[k])
  {
    assert Prefix(bullets, 8) == bullets;
    forall k | 0 <= k < |bullets| ensures SvgLines(title, bullets)[6 + k] == BulletLine(160 + 36 * k, bullets[k]) {
      SvgLineAt(title, bullets, k);
    }
  }

  lemma SvgLineAt(title: string, bullets: seq<string>, k: nat)
    requires |bullets| <= 8 && k < |bullets|
    ensures SvgLines(title, bullets)[6 + k] == BulletLine(160 + 36 * k, bullets[k])
  {
    SvgLinesSplit(title, bullets);
    LineAfterHeader(Header(title), BulletLines(bullets), [SvgClose], k);
  }

  /** Line |h| + k of h + b + c is line k of b. */
  lemma LineAfterHeader(h: seq<string>, b: seq<string>, c: seq<string>, k: nat)
    requires k < |b|
    ensures (h + b + c)[|h| + k] == b[k]
  {
  }

  lemma SvgLinesSplit(title: string, bullets: seq<string>)
    requires |bullets| <= 8
    ensures var lines := SvgLines(title, bullets);
      && lines == Header(title) + BulletLines(bullets) + [SvgClose]
      && |lines| == 7 + |bullets|
      && lines[0] == SvgOpen && lines[3] == title && lines[|lines| - 1] == SvgClose
  {
    assert Prefix(bullets, 8) == bullets;
  }

  // ---------------------------------------------------------------------------
  // The renderer

  /** layout_meta. */
  datatype LayoutMeta = LayoutMeta(
    title: string,
    keyBullets: seq<string>,
    claims: seq<Claim>,
    sources: seq<SourceMeta>,
    generatedBy: string,
    version: int)

  datatype RenderedInfographic = RenderedInfographic(svg: string, layoutMeta: LayoutMeta)

  /** The escaped title: the trimmed prompt cut to 80 characters, escaped after the cut. */
  function RenderedTitle(prompt: string): string {
    XmlEscape(Prefix(Strip(prompt), MaxTitleChars))
  }

  const GeneratedBy: string := "mvp-svg-template"

  /** The layout metadata of the rendering. */
  function RenderedLayout(prompt: string, sources: seq<SourceMeta>): LayoutMeta {
    var bullets := KeyBullets(sources);
    LayoutMeta(RenderedTitle(prompt), bullets, Claims(Prefix(bullets, 8), ClaimSourceIds(sources)), sources, GeneratedBy, 2)
  }

  /** What render_session_infographic returns. */
  function Rendered(prompt: string, sources: seq<SourceMeta>): RenderedInfographic {
    RenderedInfographic(Concat(SvgLines(RenderedTitle(prompt), KeyBullets(sources))), RenderedLayout(prompt, sources))
  }

  /** render_session_infographic, with its two loops. */
  method Render(prompt: string, sources: seq<SourceMeta>) returns (r: RenderedInfographic)
    ensures r == Rendered(prompt, sources)
  {
    var title := XmlEscape(Prefix(Strip(prompt), MaxTitleChars));
    var bullets := KeyBullets(sources);
    var claims := BuildClaims(bullets, sources);
    var meta := LayoutMeta(title, bullets, claims, sources, GeneratedBy, 2);
    var lines := BuildLines(title, bullets);
    r := RenderedInfographic(Concat(lines), meta);
  }

  /**
   * The title reads back to the trimmed prompt cut to 80 characters: the
   * cut comes before the escaping, so the escaped title itself may be longer.
   */
  lemma RenderedTitleReadsBack(prompt: string)
    ensures var t := RenderedTitle(prompt);
      && XmlUnescape(t) == Prefix(Strip(prompt), MaxTitleChars)
      && |XmlUnescape(t)| <= MaxTitleChars
      && forall i :: 0 <= i < |t| ==> t[i] != '<' && t[i] != '>' && t[i] != '"'
  {
    XmlEscapeRoundTrip(Prefix(Strip(prompt), MaxTitleChars));
    EscapedIsSafe(Prefix(Strip(prompt), MaxTitleChars));
  }

  /**
   * The metadata echoes the sources with version 2 and "mvp-svg-template",
   * and holds one claim per bullet, each with that bullet's text and the
   * first two sources' ids.
   */
  lemma RenderedMeta(prompt: string, sources: seq<SourceMeta>)
    ensures var m := Rendered(prompt, sources).layoutMeta;
      && m.title == RenderedTitle(prompt) && m.keyBullets == KeyBullets(sources)
      && m.sources == sources && m.version == 2 && m.generatedBy == GeneratedBy
      && |m.claims| == |m.keyBullets|
      && (forall k :: 0 <= k < |m.claims| ==> m.claims[k].text == m.keyBullets[k]
                                              && m.claims[k].sourceIds == ClaimSourceIds(sources))
  {
    var bullets := KeyBullets(sources);
    assert Prefix(bullets, 8) == bullets;
    ClaimsShape(bullets, ClaimSourceIds(sources));
  }

  /** The SVG has one text element per bullet and is a whole `<svg>` document. */
  lemma RenderedSvg(prompt: string, sources: seq<SourceMeta>)
    ensures var r := Rendered(prompt, sources);
      var bullets := KeyBullets(sources);
      && r.svg == Concat(SvgLines(RenderedTitle(prompt), bullets))
      && |SvgLines(RenderedTitle(prompt), bullets)| == 7 + |bullets|
      && |r.svg| >= 9 && r.svg[..4] == "<svg" && r.svg[|r.svg| - 6..] == "</svg>"
  {
    var t := RenderedTitle(prompt);
    var bs := KeyBullets(sources);
    var r := Rendered(prompt, sources);
    assert r.svg == Concat(SvgLines(t, bs));
    SvgShape(t, bs);
  }
}
