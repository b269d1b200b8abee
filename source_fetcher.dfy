/**
 * The page fetcher: a cached, rate-limited GET of one URL, the <title>
 * extractor and the HTML-to-text scan (backend/app/services/source_fetcher.py).
 *
 * The clock is a `now` parameter and the HTTP exchange an input, as in
 * WebSearch; the cache and limiter are the ones modelled there.
 */
module SourceFetcher {
  import opened Wrappers
  import opened Strings
  import opened WebSearch

  datatype FetchedSource = FetchedSource(url: string, title: Option<string>, text: string)

  /** The FetchError raised by `fetch`. */
  datatype FetchError = FetchError(message: string)

  // ===========================================================================
  // _html_to_text

  /** What one turn of the scan does at index i: stop, or emit a chunk and resume at `next`. */
  datatype TextStep = Stop | Emit(chunk: string, next: nat)

  /** A tag whose stripped, lower-cased body starts with br, p or /p becomes a line break. */
  predicate BreaksLine(tag: string) {
    HasAt(tag, "br", 0) || HasAt(tag, "p", 0) || HasAt(tag, "/p", 0)
  }

  const ScriptOpen := "<script"
  const ScriptClose := "</script>"
  const StyleOpen := "<style"
  const StyleClose := "</style>"
  const LineBreak := "\n"

  /** Skipping a raw-text element: resume after its closing tag, or stop if there is none. */
  function SkipThrough(lower: string, close: string, i: nat): (s: TextStep)
    requires close != []
    ensures s.Emit? ==> s.chunk == [] && i < s.next <= |lower|
  {
    var end := Find(lower, close, i);
    if end == -1 then Stop else Emit([], end + |close|)
  }

  /** Dropping a tag: a newline for a line-breaking one, resuming after its '>'; stop without a '>'. */
  function TagStep(html: string, lower: string, i: nat): (s: TextStep)
    requires i < |html|
    ensures s.Emit? ==> i < s.next <= |html| && |s.chunk| <= 1 && (s.chunk == [] || s.chunk == LineBreak)
  {
    var end := Find(html, ">", i);
    if end == -1 then Stop else Emit(TagChunk(Slice(lower, i + 1, end)), end + 1)
  }

  /** What a tag with this lower-cased body leaves in the text. */
  function TagChunk(body: string): (c: string)
    ensures c == [] || c == LineBreak
    ensures c == LineBreak <==> BreaksLine(Strip(body))
  {
    if BreaksLine(Strip(body)) then LineBreak else []
  }

  /**
   * One turn of the scan of _html_to_text at index i: a <script or <style
   * element is skipped through its closing tag (the scan stops if there is
   * none); another tag is dropped, leaving a newline for a line-breaking one
   * (the scan stops at a '<' with no '>'); any other character is kept.
   */
  function StepAt(html: string, i: nat): (s: TextStep)
    requires i < |html|
    ensures s.Emit? ==> i < s.next <= |html| && |s.chunk| <= s.next - i
    ensures s.Emit? ==> forall k :: 0 <= k < |s.chunk| ==> s.chunk[k] != '<'
  {
    var lower := Lower(html);
    if HasAt(lower, ScriptOpen, i) then SkipThrough(lower, ScriptClose, i)
    else if HasAt(lower, StyleOpen, i) then SkipThrough(lower, StyleClose, i)
    else if html[i] == '<' then TagStep(html, lower, i)
    else Emit([html[i]], i + 1)
  }

  /** The characters the scan collects from index i on: never a '<', never more than it read. */
  function TextFrom(html: string, i: nat): (t: string)
    ensures |t| <= |html| - i || i >= |html|
    ensures forall k :: 0 <= k < |t| ==> t[k] != '<'
    decreases |html| - i
  {
    if i >= |html| then []
    else match StepAt(html, i)
      case Stop => []
      case Emit(chunk, next) => chunk + TextFrom(html, next)
  }

  /** _html_to_text: the scan, then the entity unescaping. */
  function HtmlText(html: string): string {
    UnescapeEntities(TextFrom(html, 0))
  }

  predicate NoOpenAngle(s: string) {
    forall k :: 0 <= k < |s| ==> s[k] != '<'
  }

  // The shapes of page the lemmas below are about.

  /** No '<' in html[lo..hi]. */
  ghost predicate PlainBetween(html: string, lo: nat, hi: nat) {
    lo <= hi <= |html| && forall k :: lo <= k < hi ==> html[k] != '<'
  }

  /** A tag at i, closed by its first '>' at `end`, that opens neither a script nor a style element. */
  ghost predicate TagAt(html: string, i: nat, end: nat) {
    && i < end < |html| && html[i] == '<' && Find(html, ">", i) == end
    && !HasAt(Lower(html), ScriptOpen, i) && !HasAt(Lower(html), StyleOpen, i)
  }

  /** A '<' at i with no '>' anywhere after it. */
  ghost predicate UnclosedAt(html: string, i: nat) {
    i < |html| && html[i] == '<' && forall k :: i < k < |html| ==> html[k] != '>'
  }

  /** The two raw-text elements the scan drops whole, by their opening and closing tags. */
  predicate RawText(open: string, close: string) {
    (open == ScriptOpen && close == ScriptClose) || (open == StyleOpen && close == StyleClose)
  }

  /** A script or style element opened at i whose first closing tag is at `end` (on the lower-cased page). */
  ghost predicate RawAt(html: string, i: nat, open: string, close: string, end: nat) {
    RawText(open, close) && HasAt(Lower(html), open, i) && Find(Lower(html), close, i) == end
  }

  /** A script or style element opened at i and never closed. */
  ghost predicate UnclosedRawAt(html: string, i: nat, open: string, close: string) {
    RawText(open, close) && HasAt(Lower(html), open, i) && Find(Lower(html), close, i) == -1
  }

  // One turn of the scan, branch by branch.

  /** The text from i once the turn there is known to emit a chunk... */
  lemma TextFromEmit(html: string, i: nat, chunk: string, next: nat)
    requires i < |html| && StepAt(html, i) == Emit(chunk, next)
    ensures TextFrom(html, i) == chunk + TextFrom(html, next)
  {
  }

  /** ...or to stop. */
  lemma TextFromStop(html: string, i: nat)
    requires i < |html| && StepAt(html, i) == Stop
    ensures TextFrom(html, i) == []
  {
  }

  /** A character other than '<' is kept. */
  lemma PlainStep(html: string, i: nat)
    requires i < |html| && html[i] != '<'
    ensures TextFrom(html, i) == [html[i]] + TextFrom(html, i + 1)
  {
    var lower := Lower(html);
    assert lower[i] == LowerChar(html[i]) != '<';
    NotAtFirstDiffers(lower, ScriptOpen, i);
    NotAtFirstDiffers(lower, StyleOpen, i);
    assert StepAt(html, i) == Emit([html[i]], i + 1);
    TextFromEmit(html, i, [html[i]], i + 1);
  }

  /** The turn at a tag that opens neither a script nor a style element. */
  lemma TagStepIs(html: string, i: nat, end: nat, body: string)
    requires TagAt(html, i, end) && Slice(Lower(html), i + 1, end) == body
    ensures i < |html| && StepAt(html, i) == Emit(TagChunk(body), end + 1)
  {
  }

  /** The turn at a '<' with no '>' anywhere after it stops. */
  lemma UnclosedStep(html: string, i: nat)
    requires UnclosedAt(html, i)
    ensures StepAt(html, i) == Stop
  {
    var lower := Lower(html);
    forall j | i <= j
      ensures !HasAt(lower, ScriptClose, j) && !HasAt(lower, StyleClose, j) && !HasAt(html, ">", j)
    {
      if j + 8 < |html| {
        assert lower[j + 8] == LowerChar(html[j + 8]) != '>';
        NotAtDiffers(lower, ScriptClose, j, 8);
      }
      if j + 7 < |html| {
        assert lower[j + 7] == LowerChar(html[j + 7]) != '>';
        NotAtDiffers(lower, StyleClose, j, 7);
      }
      if j < |html| {
        NotAtFirstDiffers(html, ">", j);
      }
    }
    FindNone(lower, ScriptClose, i);
    FindNone(lower, StyleClose, i);
    FindNone(html, ">", i);
  }

  /** At an opening <script or <style the turn skips to that element's closing tag. */
  lemma RawStepAt(html: string, i: nat, open: string, close: string)
    requires RawText(open, close) && HasAt(Lower(html), open, i)
    ensures i < |html| && StepAt(html, i) == SkipThrough(Lower(html), close, i)
  {
    if open == StyleOpen {
      NotAtDiffers(Lower(html), ScriptOpen, i, 2);
    }
  }

  /** The turn at a closed script or style element emits nothing and resumes after the closing tag. */
  lemma RawStepIs(html: string, i: nat, open: string, close: string, end: nat)
    requires RawAt(html, i, open, close, end)
    ensures i < |html| && StepAt(html, i) == Emit([], end + |close|)
  {
    RawStepAt(html, i, open, close);
  }

  /** The turn at a script or style element that is never closed stops. */
  lemma UnclosedRawStep(html: string, i: nat, open: string, close: string)
    requires UnclosedRawAt(html, i, open, close)
    ensures i < |html| && StepAt(html, i) == Stop
  {
    RawStepAt(html, i, open, close);
  }

  // Runs of text.

  /** A run of characters without '<' is copied as it is. */
  lemma {:induction false} TextFromRun(html: string, i: nat, j: nat)
    requires PlainBetween(html, i, j)
    ensures TextFrom(html, i) == html[i..j] + TextFrom(html, j)
    decreases j - i
  {
    if i < j {
      PlainStep(html, i);
      TextFromRun(html, i + 1, j);
      SliceCons(html, i, j);
      ConsRun(TextFrom(html, i), TextFrom(html, i + 1), [html[i]], html[i + 1..j], TextFrom(html, j), html[i..j]);
    }
  }

  /** Text without any '<' from i on passes through the scan unchanged. */
  lemma TextFromPlain(html: string, i: nat)
    requires PlainBetween(html, i, |html|)
    ensures TextFrom(html, i) == html[i..]
  {
    TextFromRun(html, i, |html|);
    Subst(TextFrom(html, i), html[i..|html|], TextFrom(html, |html|), []);
    DropEmptyTail(TextFrom(html, i), html[i..|html|]);
    DropIsSlice(html, i);
  }

  lemma TextFromPlainIs(html: string, i: nat, b: string)
    requires PlainBetween(html, i, |html|) && html[i..] == b
    ensures TextFrom(html, i) == b
  {
    TextFromPlain(html, i);
  }

  /** Text a before index i comes out first, followed by whatever the scan makes of the rest. */
  lemma TextAfterPlain(h: string, i: nat, a: string, rest: string)
    requires PlainBetween(h, 0, i) && h[..i] == a && TextFrom(h, i) == rest
    ensures TextFrom(h, 0) == a + rest
  {
    TextFromRun(h, 0, i);
    TakeIsSlice(h, i);
  }

  // Whole pages: text, one turn of the scan, text.

  /** A turn that emits chunk and resumes where only text b is left: the text from i is chunk then b. */
  lemma StepThenPlain(h: string, i: nat, chunk: string, next: nat, b: string)
    requires i < |h| && StepAt(h, i) == Emit(chunk, next)
    requires PlainBetween(h, next, |h|) && h[next..] == b
    ensures TextFrom(h, i) == chunk + b
  {
    TextFromEmit(h, i, chunk, next);
    TextFromPlainIs(h, next, b);
    Subst(TextFrom(h, i), chunk, TextFrom(h, next), b);
  }

  /**
   * A page that is text a up to index i, one turn there that emits chunk
   * (a tag, a whole script or style element), then text b: its text is a,
   * chunk and b in that order.
   */
  lemma TextAroundStep(h: string, i: nat, a: string, chunk: string, next: nat, b: string)
    requires PlainBetween(h, 0, i) && h[..i] == a
    requires i < |h| && StepAt(h, i) == Emit(chunk, next)
    requires PlainBetween(h, next, |h|) && h[next..] == b
    ensures TextFrom(h, 0) == a + chunk + b
  {
    StepThenPlain(h, i, chunk, next, b);
    TextAfterPlain(h, i, a, chunk + b);
    Regroup(TextFrom(h, 0), a, chunk, b);
  }

  /** A page that is text a up to index i, where the scan stops: its text is a. */
  lemma TextBeforeStop(h: string, i: nat, a: string)
    requires PlainBetween(h, 0, i) && h[..i] == a
    requires i < |h| && StepAt(h, i) == Stop
    ensures TextFrom(h, 0) == a
  {
    TextFromStop(h, i);
    TextAfterPlain(h, i, a, []);
    DropEmptyTail(TextFrom(h, 0), a);
  }

  // Examples.

  /** The tags the examples below are made of, all already in lower case. */
  lemma LowerCaseTags()
    ensures Lower("<br>") == "<br>" && Lower("<div>") == "<div>"
    ensures Lower(ScriptOpen) == ScriptOpen && Lower(ScriptClose) == ScriptClose
    ensures Lower(StyleOpen) == StyleOpen && Lower(StyleClose) == StyleClose
  {
    assert Lower("<br>") == "<br>";
    assert Lower("<div>") == "<div>";
    assert Lower(ScriptOpen) == ScriptOpen;
    assert Lower(ScriptClose) == ScriptClose;
    assert Lower(StyleOpen) == StyleOpen;
    assert Lower(StyleClose) == StyleClose;
  }

  /** A <br> leaves a newline... */
  lemma BreakChunk()
    ensures TagChunk("<br>"[1..3]) == LineBreak
  {
    var body := "<br>"[1..3];
    assert body == "br" && body[0] == 'b' && body[1] == 'r';
    StripOfStripped(body, PySpace);
  }

  /** ...a <div> nothing. */
  lemma DivChunk()
    ensures TagChunk("<div>"[1..4]) == []
  {
    var body := "<div>"[1..4];
    assert body == "div" && body[0] == 'd' && body[2] == 'v';
    StripOfStripped(body, PySpace);
    NotAtFirstDiffers(body, "br", 0);
    NotAtFirstDiffers(body, "p", 0);
    NotAtFirstDiffers(body, "/p", 0);
  }

  /** A <br> or <div> tag written out at i is a TagAt whose lower-cased body is the tag name. */
  lemma TagOpenedAt(h: string, i: nat, tag: string)
    requires tag == "<br>" || tag == "<div>"
    requires i + |tag| <= |h| && h[i..i + |tag|] == tag
    ensures TagAt(h, i, i + |tag| - 1) && Slice(Lower(h), i + 1, i + |tag| - 1) == tag[1..|tag| - 1]
  {
    TagHeadAt(h, i, tag);
    TagEndAt(h, i, tag);
  }

  /** Such a tag opens no script or style element, and its body is the tag name. */
  lemma TagHeadAt(h: string, i: nat, tag: string)
    requires tag == "<br>" || tag == "<div>"
    requires i + |tag| <= |h| && h[i..i + |tag|] == tag
    ensures h[i] == '<' && !HasAt(Lower(h), ScriptOpen, i) && !HasAt(Lower(h), StyleOpen, i)
    ensures Slice(Lower(h), i + 1, i + |tag| - 1) == tag[1..|tag| - 1]
  {
    LowerCaseTags();
    LowerKeeps(h, i, tag);
    var lh := Lower(h);
    assert h[i] == h[i..i + |tag|][0];
    assert lh[i..i + |tag|] == tag;
    assert forall k :: 0 <= k < |tag| ==> lh[i + k] == tag[k];
    NotAtDiffers(lh, ScriptOpen, i, 1);
    NotAtDiffers(lh, StyleOpen, i, 1);
    SliceIs(lh, i + 1, tag[1..|tag| - 1]);
  }

  /** The first '>' from the '<' of such a tag is its last character. */
  lemma TagEndAt(h: string, i: nat, tag: string)
    requires tag == "<br>" || tag == "<div>"
    requires i + |tag| <= |h| && h[i..i + |tag|] == tag
    ensures Find(h, ">", i) == i + |tag| - 1
  {
    assert forall k :: 0 <= k < |tag| ==> h[i + k] == tag[k];
    FindCharIs(h, '>', i, i + |tag| - 1);
  }

  /** Where the parts of a + m + b lie, for text a and b without '<'. */
  lemma PlainAround(a: string, m: string, b: string)
    requires NoOpenAngle(a) && NoOpenAngle(b)
    ensures var h, i, next := a + m + b, |a|, |a| + |m|;
      && PlainBetween(h, 0, i) && h[..i] == a && h[i..next] == m
      && PlainBetween(h, next, |h|) && h[next..] == b
  {
    Parts(a, m, b);
  }

  /** A <br> or <div> tag between text a and text b, laid out for TextAroundStep. */
  lemma NamedTagLayout(a: string, tag: string, b: string, chunk: string)
    requires NoOpenAngle(a) && NoOpenAngle(b)
    requires tag == "<br>" || tag == "<div>"
    requires TagChunk(tag[1..|tag| - 1]) == chunk
    ensures var h, i := a + tag + b, |a|;
      && PlainBetween(h, 0, i) && h[..i] == a
      && i < |h| && StepAt(h, i) == Emit(chunk, i + |tag|)
      && PlainBetween(h, i + |tag|, |h|) && h[i + |tag|..] == b
  {
    var h, i := a + tag + b, |a|;
    PlainAround(a, tag, b);
    TagOpenedAt(h, i, tag);
    TagStepIs(h, i, i + |tag| - 1, tag[1..|tag| - 1]);
  }

  /** So a <br> between two texts becomes a newline... */
  lemma TextAroundBreak(a: string, b: string)
    requires NoOpenAngle(a) && NoOpenAngle(b)
    ensures TextFrom(a + "<br>" + b, 0) == a + LineBreak + b
  {
    BreakChunk();
    NamedTagLayout(a, "<br>", b, LineBreak);
    TextAroundStep(a + "<br>" + b, |a|, a, LineBreak, |a| + 4, b);
  }

  /** ...and a <div> leaves nothing. */
  lemma TextAroundDiv(a: string, b: string)
    requires NoOpenAngle(a) && NoOpenAngle(b)
    ensures TextFrom(a + "<div>" + b, 0) == a + b
  {
    DivChunk();
    NamedTagLayout(a, "<div>", b, []);
    TextAroundStep(a + "<div>" + b, |a|, a, [], |a| + 5, b);
    DropEmptyMiddle(TextFrom(a + "<div>" + b, 0), a, b);
  }

  /** Text, then a '<' with no '>' after it, laid out for TextBeforeStop. */
  lemma UnclosedLayout(a: string, t: string)
    requires NoOpenAngle(a)
    requires forall k :: 0 <= k < |t| ==> t[k] != '>'
    ensures var h, i := a + "<" + t, |a|;
      PlainBetween(h, 0, i) && h[..i] == a && i < |h| && StepAt(h, i) == Stop
  {
    var h := a + "<" + t;
    Parts(a, "<", t);
    UnclosedStep(h, |a|);
  }

  /** Text, then a '<' with no '>' after it: only the text is kept. */
  lemma TextBeforeUnclosed(a: string, t: string)
    requires NoOpenAngle(a)
    requires forall k :: 0 <= k < |t| ==> t[k] != '>'
    ensures TextFrom(a + "<" + t, 0) == a
  {
    UnclosedLayout(a, t);
    TextBeforeStop(a + "<" + t, |a|, a);
  }

  /** An opening tag written out at i and a closing tag at `end`, with no '<' between them. */
  lemma RawOpenedAt(h: string, i: nat, open: string, close: string, end: nat)
    requires RawText(open, close) && i + |open| <= end && end + |close| <= |h|
    requires h[i..i + |open|] == open && h[end..end + |close|] == close
    requires forall k :: i + |open| <= k < end ==> h[k] != '<'
    ensures RawAt(h, i, open, close, end)
  {
    LowerCaseTags();
    LowerKeeps(h, i, open);
    LowerKeeps(h, end, close);
    var lh := Lower(h);
    forall j | i <= j < end
      ensures !HasAt(lh, close, j)
    {
      if j == i {
        NotAtDiffers(lh, close, j, 1);
      } else if j < i + |open| {
        assert lh[j] == lh[i..i + |open|][j - i] == open[j - i] != '<';
        NotAtFirstDiffers(lh, close, j);
      } else {
        assert lh[j] == LowerChar(h[j]) != '<';
        NotAtFirstDiffers(lh, close, j);
      }
    }
    FindIs(lh, close, i, end);
  }

  /** Where the parts of a + open + m + close + b lie. */
  lemma RawElementParts(a: string, open: string, m: string, close: string, b: string)
    requires NoOpenAngle(a) && NoOpenAngle(b)
    ensures var h, i, end := a + open + m + close + b, |a|, |a| + |open| + |m|;
      && end + |close| <= |h|
      && h[i..i + |open|] == open && h[end..end + |close|] == close
      && (forall k :: i + |open| <= k < end ==> h[k] == m[k - i - |open|])
      && PlainBetween(h, 0, i) && PlainBetween(h, end + |close|, |h|)
      && h[..i] == a && h[end + |close|..] == b
  {
    var p := a + open + m;
    var h := p + close + b;
    var i := |a|;
    Parts(a, open, m);
    Parts(p, close, b);
    SliceIs(h, 0, a);
    TakeIsSlice(h, i);
    SliceIs(h, i, open);
  }

  /** Text, a script or style element whose attributes and content m hold no '<', text, laid out for TextAroundStep. */
  lemma RawElementLayout(a: string, open: string, m: string, close: string, b: string)
    requires RawText(open, close)
    requires NoOpenAngle(a) && NoOpenAngle(m) && NoOpenAngle(b)
    ensures var h, i, next := a + open + m + close + b, |a|, |a| + |open| + |m| + |close|;
      && PlainBetween(h, 0, i) && h[..i] == a
      && i < |h| && StepAt(h, i) == Emit([], next)
      && PlainBetween(h, next, |h|) && h[next..] == b
  {
    var h, i, end := a + open + m + close + b, |a|, |a| + |open| + |m|;
    RawElementParts(a, open, m, close, b);
    RawOpenedAt(h, i, open, close, end);
    RawStepIs(h, i, open, close, end);
  }

  /**
   * Text, a script or style element whose opening tag's attributes and
   * content m hold no '<', text: the element is dropped whole and the text
   * on both sides is kept in order.
   */
  lemma TextAroundRaw(a: string, open: string, m: string, close: string, b: string)
    requires RawText(open, close)
    requires NoOpenAngle(a) && NoOpenAngle(m) && NoOpenAngle(b)
    ensures TextFrom(a + open + m + close + b, 0) == a + b
  {
    var h := a + open + m + close + b;
    RawElementLayout(a, open, m, close, b);
    TextAroundStep(h, |a|, a, [], |a| + |open| + |m| + |close|, b);
    DropEmptyMiddle(TextFrom(h, 0), a, b);
  }

  /** Text, then a script or style element never closed, as UnclosedRawAt sees it. */
  lemma UnclosedRawOpened(a: string, open: string, m: string, close: string)
    requires RawText(open, close)
    requires NoOpenAngle(a) && NoOpenAngle(m)
    ensures var h, i := a + open + m, |a|;
      UnclosedRawAt(h, i, open, close) && PlainBetween(h, 0, i) && h[..i] == a
  {
    var h, i := a + open + m, |a|;
    Parts(a, open, m);
    LowerCaseTags();
    LowerKeeps(h, i, open);
    var lh := Lower(h);
    forall j | i <= j
      ensures !HasAt(lh, close, j)
    {
      if j == i {
        NotAtDiffers(lh, close, j, 1);
      } else if j < |h| {
        assert lh[j] == LowerChar(h[j]) != '<';
        NotAtFirstDiffers(lh, close, j);
      }
    }
    FindNone(lh, close, i);
  }

  /** The same page, laid out for TextBeforeStop. */
  lemma UnclosedRawLayout(a: string, open: string, m: string, close: string)
    requires RawText(open, close)
    requires NoOpenAngle(a) && NoOpenAngle(m)
    ensures var h, i := a + open + m, |a|;
      PlainBetween(h, 0, i) && h[..i] == a && i < |h| && StepAt(h, i) == Stop
  {
    UnclosedRawOpened(a, open, m, close);
    UnclosedRawStep(a + open + m, |a|, open, close);
  }

  /** Text, then a script or style element never closed: only the text is kept. */
  lemma TextBeforeUnclosedRaw(a: string, open: string, m: string, close: string)
    requires RawText(open, close)
    requires NoOpenAngle(a) && NoOpenAngle(m)
    ensures TextFrom(a + open + m, 0) == a
  {
    UnclosedRawLayout(a, open, m, close);
    TextBeforeStop(a + open + m, |a|, a);
  }

  /** So plain text comes out of _html_to_text with only its entities unescaped. */
  lemma HtmlTextOfPlain(html: string)
    requires NoOpenAngle(html)
    ensures HtmlText(html) == UnescapeEntities(html)
  {
    assert PlainBetween(html, 0, |html|);
    TextFromPlain(html, 0);
    assert html[0..] == html;
  }

  /** One turn of the loop of _html_to_text, on the lower-cased copy it keeps. */
  method ScanText(html: string, lower: string, i: nat) returns (step: TextStep)
    requires lower == Lower(html) && i < |html|
    ensures step == StepAt(html, i)
  {
    if HasAt(lower, ScriptOpen, i) {
      var end := Find(lower, ScriptClose, i);
      if end == -1 {
        return Stop;
      }
      return Emit([], end + |ScriptClose|);
    }
    if HasAt(lower, StyleOpen, i) {
      var end := Find(lower, StyleClose, i);
      if end == -1 {
        return Stop;
      }
      return Emit([], end + |StyleClose|);
    }
    var ch := html[i];
    if ch == '<' {
      var end := Find(html, ">", i);
      if end == -1 {
        return Stop;
      }
      var tag := Strip(Slice(lower, i + 1, end));
      return Emit(if BreaksLine(tag) then LineBreak else [], end + 1);
    }
    return Emit([ch], i + 1);
  }

  /** The loop of _html_to_text. */
  method HtmlToText(html: string) returns (text: string)
    ensures text == HtmlText(html)
  {
    var lower := Lower(html);
    var out: string := [];
    var i: nat := 0;
    ghost var all := TextFrom(html, 0);
    assert [] + all == all;
    while i < |html|
      invariant i <= |html|
      invariant out + TextFrom(html, i) == all
      decreases |html| - i
    {
      var step := ScanText(html, lower, i);
      match step
      case Stop =>
        assert TextFrom(html, i) == [];
        assert out + [] == out;
        break;
      case Emit(chunk, next) =>
        assert TextFrom(html, i) == chunk + TextFrom(html, next);
        assert out + (chunk + TextFrom(html, next)) == (out + chunk) + TextFrom(html, next);
        out := out + chunk;
        i := next;
    }
    assert out + [] == out;
    text := UnescapeEntities(out);
  }

  // ===========================================================================
  // _extract_title

  /**
   * _extract_title: the text between the first <title...> and the next
   * </title> (matched case-insensitively), run through _html_to_text and
   * whitespace-collapsed; None when a delimiter is missing or the result is
   * empty.
   */
  function ExtractTitle(html: string): (r: Option<string>)
    ensures r.Some? ==> r.value != [] && Collapsed(r.value)
    ensures Find(Lower(html), "<title", 0) == -1 ==> r.None?
  {
    var lower := Lower(html);
    var start := Find(lower, "<title", 0);
    if start == -1 then None
    else
      var gt := Find(lower, ">", start);
      if gt == -1 then None
      else
        var end := Find(lower, "</title>", gt);
        if end == -1 then None
        else TitleText(html, gt, end)
  }

  /** The title held between the '>' at gt and the </title> at end: its text, collapsed; None when blank. */
  function TitleText(html: string, gt: int, end: int): (r: Option<string>)
    ensures r.Some? ==> r.value != [] && Collapsed(r.value)
  {
    var t := Collapse(HtmlText(Slice(html, gt + 1, end)));
    CollapseIsNormal(HtmlText(Slice(html, gt + 1, end)));
    if t == [] then None else Some(t)
  }

  /** No pattern starting with '<' occurs, on the lower-cased page, where the page has no '<'. */
  lemma NoTagBetween(h: string, p: string, lo: nat, hi: nat)
    requires p != [] && p[0] == '<' && hi <= |h|
    requires forall k :: lo <= k < hi ==> h[k] != '<'
    ensures forall j :: lo <= j < hi ==> !HasAt(Lower(h), p, j)
  {
    forall j | lo <= j < hi
      ensures !HasAt(Lower(h), p, j)
    {
      NotAtFirstDiffers(Lower(h), p, j);
    }
  }

  /** Where the parts of pre + "<title" + t lie. */
  lemma TitleOpenLayout(pre: string, t: string)
    requires NoOpenAngle(pre)
    ensures var h := pre + "<title" + t;
      && Find(Lower(h), "<title", 0) == |pre| && |h| == |pre| + 6 + |t|
      && (forall k :: 0 <= k < |t| ==> h[|pre| + 6 + k] == t[k])
      && (forall k :: |pre| <= k < |pre| + 6 ==> h[k] != '>')
  {
    var h := pre + "<title" + t;
    Parts(pre, "<title", t);
    assert Lower("<title") == "<title";
    LowerKeeps(h, |pre|, "<title");
    NoTagBetween(h, "<title", 0, |pre|);
    FindIs(Lower(h), "<title", 0, |pre|);
  }

  /** What follows "<title" on a page whose title element holds t. */
  lemma TitleTail(t: string, rest: string)
    requires NoOpenAngle(t)
    ensures var u := ">" + t + "</title>" + rest;
      && 9 + |t| <= |u| && u[0] == '>' && u[1..1 + |t|] == t && u[1 + |t|..9 + |t|] == "</title>"
      && forall k :: 0 <= k < 1 + |t| ==> u[k] != '<'
  {
    Parts(">" + t, "</title>", rest);
    Parts(">", t, []);
    assert (">" + t)[1..] == t;
  }

  /** pre, then a <title> element holding t, then anything, split where the scan for '>' starts. */
  lemma TitleParts(pre: string, t: string, rest: string)
    requires NoOpenAngle(pre) && NoOpenAngle(t)
    ensures var h := pre + "<title" + (">" + t + "</title>" + rest);
      && Find(Lower(h), "<title", 0) == |pre|
      && Find(Lower(h), ">", |pre|) == |pre| + 6
      && Find(Lower(h), "</title>", |pre| + 6) == |pre| + 7 + |t|
      && Slice(h, |pre| + 6 + 1, |pre| + 7 + |t|) == t
  {
    TitleOpenLayout(pre, ">" + t + "</title>" + rest);
    TitleGtAt(pre, t, rest);
    TitleCloseFound(pre, t, rest);
    TitleSlice(pre, t, rest);
  }

  /** The first '>' after "<title" is the one that ends the opening tag. */
  lemma TitleGtAt(pre: string, t: string, rest: string)
    requires NoOpenAngle(pre) && NoOpenAngle(t)
    ensures var h := pre + "<title" + (">" + t + "</title>" + rest);
      Find(Lower(h), ">", |pre|) == |pre| + 6
  {
    var u := ">" + t + "</title>" + rest;
    TitleOpenLayout(pre, u);
    TitleTail(t, rest);
    FindCharIs(Lower(pre + "<title" + u), '>', |pre|, |pre| + 6);
  }

  /** The first </title> after it is the one that closes the element. */
  lemma TitleCloseFound(pre: string, t: string, rest: string)
    requires NoOpenAngle(pre) && NoOpenAngle(t)
    ensures var h := pre + "<title" + (">" + t + "</title>" + rest);
      Find(Lower(h), "</title>", |pre| + 6) == |pre| + 7 + |t|
  {
    var h := pre + "<title" + (">" + t + "</title>" + rest);
    TitleCloseHas(pre, t, rest);
    TitleNoCloseBefore(pre, t, rest);
    FindIs(Lower(h), "</title>", |pre| + 6, |pre| + 7 + |t|);
  }

  lemma TitleCloseHas(pre: string, t: string, rest: string)
    requires NoOpenAngle(pre) && NoOpenAngle(t)
    ensures var h := pre + "<title" + (">" + t + "</title>" + rest);
      HasAt(Lower(h), "</title>", |pre| + 7 + |t|)
  {
    var u := ">" + t + "</title>" + rest;
    var h := pre + "<title" + u;
    TitleOpenLayout(pre, u);
    TitleTail(t, rest);
    SliceShift(h, |pre| + 6, u, 1 + |t|, "</title>");
    TitleCloseAt(h, |pre| + 7 + |t|);
  }

  lemma TitleNoCloseBefore(pre: string, t: string, rest: string)
    requires NoOpenAngle(pre) && NoOpenAngle(t)
    ensures var h := pre + "<title" + (">" + t + "</title>" + rest);
      forall j :: |pre| + 6 <= j < |pre| + 7 + |t| ==> !HasAt(Lower(h), "</title>", j)
  {
    var u := ">" + t + "</title>" + rest;
    var h := pre + "<title" + u;
    TitleOpenLayout(pre, u);
    TitleTail(t, rest);
    NoneShift(h, |pre| + 6, u, 0, 1 + |t|, '<');
    NoTagBetween(h, "</title>", |pre| + 6, |pre| + 7 + |t|);
  }

  /** Between them lies t. */
  lemma TitleSlice(pre: string, t: string, rest: string)
    requires NoOpenAngle(pre) && NoOpenAngle(t)
    ensures var h := pre + "<title" + (">" + t + "</title>" + rest);
      Slice(h, |pre| + 6 + 1, |pre| + 7 + |t|) == t
  {
    var u := ">" + t + "</title>" + rest;
    var h := pre + "<title" + u;
    TitleOpenLayout(pre, u);
    TitleTail(t, rest);
    SliceShift(h, |pre| + 6, u, 1, t);
  }

  /** A closing </title> written out at i is found there on the lower-cased page. */
  lemma TitleCloseAt(h: string, i: nat)
    requires i + 8 <= |h| && h[i..i + 8] == "</title>"
    ensures HasAt(Lower(h), "</title>", i)
  {
    assert Lower("</title>") == "</title>";
    LowerKeeps(h, i, "</title>");
  }

  /** The same page, written as a title element between pre and rest. */
  lemma TitleLayout(pre: string, t: string, rest: string)
    requires NoOpenAngle(pre) && NoOpenAngle(t)
    ensures var h := pre + "<title>" + t + "</title>" + rest;
      && Find(Lower(h), "<title", 0) == |pre|
      && Find(Lower(h), ">", |pre|) == |pre| + 6
      && Find(Lower(h), "</title>", |pre| + 6) == |pre| + 7 + |t|
      && Slice(h, |pre| + 6 + 1, |pre| + 7 + |t|) == t
  {
    TitleParts(pre, t, rest);
    assert pre + "<title>" + t + "</title>" + rest == pre + "<title" + (">" + t + "</title>" + rest);
  }

  /** Once the three delimiters are found, the title is what lies between '>' and </title>. */
  lemma ExtractTitleFound(html: string, start: nat, gt: nat, end: nat)
    requires Find(Lower(html), "<title", 0) == start
    requires Find(Lower(html), ">", start) == gt
    requires Find(Lower(html), "</title>", gt) == end
    ensures ExtractTitle(html) == TitleText(html, gt, end)
  {
  }

  /** Text without markup between the delimiters is unescaped and collapsed. */
  lemma TitleTextOfPlain(html: string, gt: nat, end: nat, t: string)
    requires Slice(html, gt + 1, end) == t && NoOpenAngle(t)
    ensures var v := Collapse(UnescapeEntities(t));
      TitleText(html, gt, end) == (if v == [] then None else Some(v))
  {
    HtmlTextOfPlain(t);
  }

  /** Both together: the title of a page whose title element holds text t without markup. */
  lemma ExtractTitleIs(html: string, start: nat, gt: nat, end: nat, t: string)
    requires Find(Lower(html), "<title", 0) == start
    requires Find(Lower(html), ">", start) == gt
    requires Find(Lower(html), "</title>", gt) == end
    requires Slice(html, gt + 1, end) == t && NoOpenAngle(t)
    ensures var v := Collapse(UnescapeEntities(t));
      ExtractTitle(html) == (if v == [] then None else Some(v))
  {
    ExtractTitleFound(html, start, gt, end);
    TitleTextOfPlain(html, gt, end, t);
  }

  /**
   * The title of a page whose first <title> element holds text t without
   * markup is t with its entities unescaped and its whitespace collapsed, or
   * None when that leaves nothing.
   */
  lemma TitleOfPage(pre: string, t: string, rest: string)
    requires NoOpenAngle(pre) && NoOpenAngle(t)
    ensures var v := Collapse(UnescapeEntities(t));
      ExtractTitle(pre + "<title>" + t + "</title>" + rest) == (if v == [] then None else Some(v))
  {
    var h := pre + "<title>" + t + "</title>" + rest;
    TitleLayout(pre, t, rest);
    ExtractTitleIs(h, |pre|, |pre| + 6, |pre| + 7 + |t|, t);
  }

  /** pre, then an unclosed <title> element holding t. */
  lemma UnclosedTitleLayout(pre: string, t: string)
    requires NoOpenAngle(pre) && NoOpenAngle(t)
    ensures var h := pre + "<title" + (">" + t);
      && Find(Lower(h), "<title", 0) == |pre|
      && Find(Lower(h), ">", |pre|) == |pre| + 6
      && Find(Lower(h), "</title>", |pre| + 6) == -1
  {
    var u := ">" + t;
    var h := pre + "<title" + u;
    var lh := Lower(h);
    TitleOpenLayout(pre, u);
    assert h[|pre| + 6] == '>';
    FindCharIs(lh, '>', |pre|, |pre| + 6);
    forall k | |pre| + 6 <= k < |h|
      ensures h[k] != '<'
    {
      var i := k - |pre| - 6;
      assert h[|pre| + 6 + i] == u[i];
      if i > 0 {
        assert u[i] == t[i - 1];
      }
    }
    NoTagBetween(h, "</title>", |pre| + 6, |h|);
    FindNone(lh, "</title>", |pre| + 6);
  }

  /** A <title> element that is never closed gives no title. */
  lemma TitleUnclosed(pre: string, t: string)
    requires NoOpenAngle(pre) && NoOpenAngle(t)
    ensures ExtractTitle(pre + "<title>" + t) == None
  {
    UnclosedTitleLayout(pre, t);
    assert pre + "<title>" + t == pre + "<title" + (">" + t);
  }

  /** A <title that no '>' ever follows gives no title. */
  lemma TitleUnterminated(pre: string, t: string)
    requires NoOpenAngle(pre)
    requires forall k :: 0 <= k < |t| ==> t[k] != '>'
    ensures ExtractTitle(pre + "<title" + t) == None
  {
    var h := pre + "<title" + t;
    var lh := Lower(h);
    TitleOpenLayout(pre, t);
    forall j | |pre| <= j
      ensures !HasAt(lh, ">", j)
    {
      if j < |h| {
        assert lh[j] == LowerChar(h[j]) != '>';
        NotAtFirstDiffers(lh, ">", j);
      }
    }
    FindNone(lh, ">", |pre|);
  }

  // ===========================================================================
  // HTTPSourceFetcher.fetch

  /** _cache_key: the string hashed for a fetch, "fetch:{url}". */
  function FetchCacheKey(url: string): string {
    "fetch:" + url
  }

  lemma FetchCacheKeyInjective(u1: string, u2: string)
    requires FetchCacheKey(u1) == FetchCacheKey(u2)
    ensures u1 == u2
  {
    assert u1 == FetchCacheKey(u1)[6..];
    assert u2 == FetchCacheKey(u2)[6..];
  }

  /** What `fetch` returns, the cache and limiter afterwards. */
  datatype FetchStep = FetchStep(
    result: Result<FetchedSource, FetchError>,
    entries: seq<Slot<FetchedSource>>,
    bucket: Bucket)

  /**
   * fetch: the stripped URL is required; a cached page is returned as is;
   * otherwise a token is needed at once (no waiting), and a page that
   * arrives is parsed and cached.
   */
  function FetchSpec(entries: seq<Slot<FetchedSource>>, maxItems: int, ttl: int, bucket: Bucket,
                     url: string, now: real, upstream: HttpOutcome): FetchStep
    requires maxItems > 0
  {
    var u := Strip(url);
    if u == [] then FetchStep(Failure(FetchError("url is required")), entries, bucket)
    else
      var key := FetchCacheKey(u);
      var l := CacheLookup(entries, key, now);
      if l.value.Some? then FetchStep(Success(l.value.value), l.entries, bucket)
      else
        var (ok, bucket') := Allow(bucket, now);
        if !ok then FetchStep(Failure(FetchError("Fetch rate limit exceeded")), l.entries, bucket')
        else match upstream
          case HttpFailure(_) => FetchStep(Failure(FetchError("Failed to fetch url: " + u)), l.entries, bucket')
          case Page(html) =>
            var fetched := FetchedSource(u, ExtractTitle(html), HtmlText(html));
            FetchStep(Success(fetched), CacheStore(l.entries, maxItems, ttl, key, fetched, now), bucket')
  }

  /** A blank URL is rejected before the cache or the limiter is consulted. */
  lemma BlankUrlRejected(entries: seq<Slot<FetchedSource>>, maxItems: int, ttl: int, bucket: Bucket,
                         url: string, now: real, upstream: HttpOutcome)
    requires maxItems > 0
    requires forall i :: 0 <= i < |url| ==> IsPySpace(url[i])
    ensures FetchSpec(entries, maxItems, ttl, bucket, url, now, upstream)
         == FetchStep(Failure(FetchError("url is required")), entries, bucket)
  {
  }

  /**
   * Every outcome other than a fetched page leaves no entry for the URL, and
   * a page fetched afresh reports the stripped URL.
   */
  lemma FetchCachesOnlyPages(entries: seq<Slot<FetchedSource>>, maxItems: int, ttl: int, bucket: Bucket,
                             url: string, now: real, upstream: HttpOutcome)
    requires maxItems > 0 && DistinctKeys(entries)
    ensures var s := FetchSpec(entries, maxItems, ttl, bucket, url, now, upstream);
      (s.result.Failure? && Strip(url) != [] ==> |s.entries| <= |entries| && IndexOfKey(s.entries, FetchCacheKey(Strip(url))).None?)
      && (s.result.Success? && CacheLookup(entries, FetchCacheKey(Strip(url)), now).value.None?
          ==> s.result.value.url == Strip(url))
  {
    var u := Strip(url);
    var key := FetchCacheKey(u);
    CacheLookupShrinks(entries, key, now);
    var l := CacheLookup(entries, key, now);
    if u != [] && l.value.None? {
      match IndexOfKey(entries, key)
      case None =>
      case Some(i) => CacheLookupExpired(entries, key, now, i);
    }
  }

  /** Success and failure of the uncached path follow the limiter: refused means "Fetch rate limit exceeded". */
  lemma FetchRefusedWithoutToken(entries: seq<Slot<FetchedSource>>, maxItems: int, ttl: int, bucket: Bucket,
                                 url: string, now: real, upstream: HttpOutcome)
    requires maxItems > 0
    requires Strip(url) != [] && CacheLookup(entries, FetchCacheKey(Strip(url)), now).value.None?
    requires !Allow(bucket, now).0
    ensures FetchSpec(entries, maxItems, ttl, bucket, url, now, upstream)
         == FetchStep(Failure(FetchError("Fetch rate limit exceeded")),
                      CacheLookup(entries, FetchCacheKey(Strip(url)), now).entries, Allow(bucket, now).1)
  {
  }

  /**
   * A page fetched successfully is returned again from the cache, without a
   * token or a request, by a repeat fetch of the same URL before the TTL runs
   * out.
   */
  lemma FetchRepeatIsCached(entries: seq<Slot<FetchedSource>>, maxItems: int, ttl: int, bucket: Bucket,
                            url: string, now: real, upstream: HttpOutcome, later: real, upstream2: HttpOutcome)
    requires maxItems > 0 && DistinctKeys(entries)
    requires FetchSpec(entries, maxItems, ttl, bucket, url, now, upstream).result.Success?
    requires later < now + ttl as real
    ensures var s := FetchSpec(entries, maxItems, ttl, bucket, url, now, upstream);
      CacheLookup(entries, FetchCacheKey(Strip(url)), now).value.None? ==>
        FetchSpec(s.entries, maxItems, ttl, s.bucket, url, later, upstream2) == FetchStep(s.result, s.entries, s.bucket)
  {
    var u := Strip(url);
    var key := FetchCacheKey(u);
    var l := CacheLookup(entries, key, now);
    CacheLookupShrinks(entries, key, now);
    if l.value.None? {
      var s := FetchSpec(entries, maxItems, ttl, bucket, url, now, upstream);
      CacheStoreThenLookup(l.entries, maxItems, ttl, key, s.result.value, now, later);
    }
  }

  /** HTTPSourceFetcher, given its cache and limiter. */
  class Fetcher {
    const cache: TtlCache<FetchedSource>
    const limiter: RateLimiter

    ghost predicate Valid()
      reads this, cache, limiter
    {
      cache.Valid() && limiter.Valid()
    }

    constructor (cache: TtlCache<FetchedSource>, limiter: RateLimiter)
      requires cache.Valid() && limiter.Valid()
      ensures Valid() && this.cache == cache && this.limiter == limiter
    {
      this.cache := cache;
      this.limiter := limiter;
    }

    method Fetch(url: string, now: real, upstream: HttpOutcome) returns (r: Result<FetchedSource, FetchError>)
      requires Valid()
      modifies cache, limiter
      ensures Valid()
      ensures var s := FetchSpec(old(cache.entries), cache.maxItems, cache.ttlSeconds, old(limiter.State()),
                                 url, now, upstream);
        r == s.result && cache.entries == s.entries && limiter.State() == s.bucket
    {
      var u := Strip(url);
      if u == [] {
        return Failure(FetchError("url is required"));
      }
      var key := FetchCacheKey(u);
      var cached := cache.Get(key, now);
      if cached.Some? {
        return Success(cached.value);
      }
      var ok := limiter.AllowAt(now);
      if !ok {
        return Failure(FetchError("Fetch rate limit exceeded"));
      }
      match upstream
      case HttpFailure(_) =>
        return Failure(FetchError("Failed to fetch url: " + u));
      case Page(html) =>
        var title := ExtractTitle(html);
        var text := HtmlToText(html);
        var fetched := FetchedSource(u, title, text);
        cache.Set(key, fetched, now);
        return Success(fetched);
    }
  }
}
