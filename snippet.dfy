/** The snippet extractor: the text shown around the first case-insensitive
    match of a search term, and the 1-based line on which that match starts. */
module Snippet {
  import opened Wrappers
  import opened Text

  /** Characters of context kept on each side of the match by default. */
  const ContextChars: nat := 80
  /** Length of the preview shown when the term is not in the text. */
  const PreviewChars: nat := 150
  const Ellipsis: string := "..."

  datatype Snippet = Snippet(text: string, lineNumber: Option<nat>)

  /** `term` matches `content` at `pos`, ignoring ASCII case. */
  predicate MatchesAt(content: string, term: string, pos: int) {
    OccursAt(Lower(content), Lower(term), pos)
  }

  /** `pos` is the first case-insensitive match of `term` in `content`. */
  predicate IsFirstMatch(content: string, term: string, pos: int) {
    MatchesAt(content, term, pos) && forall k :: 0 <= k < pos ==> !MatchesAt(content, term, k)
  }

  /** `content.lower().find(term.lower())`. */
  function MatchPos(content: string, term: string): int {
    Find(Lower(content), Lower(term))
  }

  /** `max(0, pos - ctx)`. */
  function WindowStart(pos: nat, ctx: nat): nat {
    if pos >= ctx then pos - ctx else 0
  }

  /** `min(len(content), pos + len(term) + ctx)`. */
  function WindowEnd(len: nat, pos: nat, termLen: nat, ctx: nat): nat {
    Min(len, pos + termLen + ctx)
  }

  /** `s.replace('\n', ' ').strip()`. */
  function OneLine(s: string): string {
    Strip(ReplaceChar(s, '\n', ' '))
  }

  /** The ellipsis in front of a window cut at the front. */
  function Lead(start: nat): string {
    if start > 0 then Ellipsis else ""
  }

  /** The ellipsis after a window cut at the back. */
  function Trail(end: nat, len: nat): string {
    if end < len then Ellipsis else ""
  }

  /** `get_context_snippet(content, term, ctx)`. */
  function GetContextSnippet(content: string, term: string, ctx: nat): Snippet {
    var pos := MatchPos(content, term);
    if pos == -1 then
      Snippet(OneLine(content[..Min(PreviewChars, |content|)]) + Ellipsis, None)
    else
      var start := WindowStart(pos, ctx);
      var end := WindowEnd(|content|, pos, |term|, ctx);
      var body := OneLine(content[start..end]);
      var text := Lead(start) + body + Trail(end, |content|);
      Snippet(text, Some(Count(content[..pos], '\n') + 1))
  }

  /** The position `find` reports is the first match, and there is only one
      first match. */
  lemma MatchPosIsFirst(content: string, term: string, pos: int)
    requires IsFirstMatch(content, term, pos)
    ensures MatchPos(content, term) == pos
  {
    var r := MatchPos(content, term);
    assert r != -1 by {
      assert MatchesAt(content, term, pos);
    }
    if r < pos {
      assert MatchesAt(content, term, r);
    }
  }

  /** With a match, the line number is one more than the number of newlines
      before the first match, so it is at least 1. */
  lemma SnippetLineNumber(content: string, term: string, ctx: nat, pos: int)
    requires IsFirstMatch(content, term, pos)
    ensures 0 <= pos <= |content|
    ensures GetContextSnippet(content, term, ctx).lineNumber == Some(1 + multiset(content[..pos])['\n'])
    ensures GetContextSnippet(content, term, ctx).lineNumber.value >= 1
  {
    MatchPosIsFirst(content, term, pos);
  }

  /** With a match, the window `[start, end)` lies inside the text and
      contains the whole match. */
  lemma SnippetWindow(content: string, term: string, ctx: nat, pos: int)
    requires IsFirstMatch(content, term, pos)
    ensures pos >= 0 && 0 <= WindowStart(pos, ctx) <= pos
    ensures pos + |term| <= WindowEnd(|content|, pos, |term|, ctx) <= |content|
  {
  }

  /** With no match the line number is absent and the snippet is the first
      150 characters on one line, followed by an ellipsis. */
  lemma SnippetWithoutMatch(content: string, term: string, ctx: nat)
    requires forall k :: !MatchesAt(content, term, k)
    ensures GetContextSnippet(content, term, ctx).lineNumber == None
    ensures GetContextSnippet(content, term, ctx).text ==
      OneLine(content[..Min(PreviewChars, |content|)]) + Ellipsis
    ensures |GetContextSnippet(content, term, ctx).text| <= PreviewChars + |Ellipsis|
  {
    var r := MatchPos(content, term);
    if r != -1 {
      assert MatchesAt(content, term, r);
    }
  }

  lemma OneLineHasNoNewline(s: string)
    ensures '\n' !in OneLine(s)
  {
    StripSubset(ReplaceChar(s, '\n', ' '), '\n');
  }

  /** The snippet is always one line; it starts with an ellipsis when the
      window was cut at the front and ends with one when it was cut at the
      back (and always when there is no match). */
  lemma SnippetShape(content: string, term: string, ctx: nat)
    ensures '\n' !in GetContextSnippet(content, term, ctx).text
    ensures MatchPos(content, term) >= 0 && WindowStart(MatchPos(content, term), ctx) > 0 ==>
      Ellipsis <= GetContextSnippet(content, term, ctx).text
    ensures (MatchPos(content, term) >= 0 &&
             WindowEnd(|content|, MatchPos(content, term), |term|, ctx) < |content|) ==>
      EndsWith(GetContextSnippet(content, term, ctx).text, Ellipsis)
    ensures MatchPos(content, term) == -1 ==> EndsWith(GetContextSnippet(content, term, ctx).text, Ellipsis)
  {
    var pos := MatchPos(content, term);
    if pos == -1 {
      var body := OneLine(content[..Min(PreviewChars, |content|)]);
      OneLineHasNoNewline(content[..Min(PreviewChars, |content|)]);
      FramedShape(0, body, 0, 1);
    } else {
      var start := WindowStart(pos, ctx);
      var end := WindowEnd(|content|, pos, |term|, ctx);
      OneLineHasNoNewline(content[start..end]);
      FramedShape(start, OneLine(content[start..end]), end, |content|);
    }
  }

  /** A one-line body between the two optional ellipses. */
  lemma FramedShape(start: nat, body: string, end: nat, len: nat)
    requires '\n' !in body
    ensures '\n' !in Lead(start) + body + Trail(end, len)
    ensures start > 0 ==> Ellipsis <= Lead(start) + body + Trail(end, len)
    ensures end < len ==> EndsWith(Lead(start) + body + Trail(end, len), Ellipsis)
  {
    assert '\n' !in Ellipsis;
    var text := Lead(start) + body + Trail(end, len);
    if end < len {
      assert text == (Lead(start) + body) + Ellipsis;
      assert text[|text| - |Ellipsis|..] == Ellipsis;
    }
  }

  predicate EndsWith(s: string, suffix: string) {
    |suffix| <= |s| && s[|s| - |suffix|..] == suffix
  }

  lemma LowerCharWhitespace(c: char)
    ensures LowerChar(c) in Whitespace <==> c in Whitespace
    ensures c in Whitespace ==> LowerChar(c) == c
  {
  }

  /** A term that the line-joining and `strip()` of the snippet cannot
      break: no newline inside, no whitespace at either end. */
  predicate TermFits(term: string) {
    '\n' !in term && (|term| > 0 ==> term[0] !in Whitespace && term[|term| - 1] !in Whitespace)
  }

  /** The ends of an occurrence of such a term are not whitespace. */
  lemma EndsAreNotWhitespace(w: string, term: string, q: nat)
    requires OccursAt(Lower(w), Lower(term), q) && |term| > 0
    requires TermFits(term)
    ensures w[q] !in Whitespace && w[q + |term| - 1] !in Whitespace
  {
    assert Lower(w)[q] == Lower(term)[0];
    assert Lower(w)[q + |term| - 1] == Lower(term)[|term| - 1];
    LowerCharWhitespace(w[q]);
    LowerCharWhitespace(term[0]);
    LowerCharWhitespace(w[q + |term| - 1]);
    LowerCharWhitespace(term[|term| - 1]);
  }

  /** A case-insensitive occurrence survives cutting out a window around it. */
  lemma OccursInWindow(content: string, lt: string, pos: nat, start: nat, end: nat)
    requires OccursAt(Lower(content), lt, pos)
    requires start <= pos && pos + |lt| <= end <= |content|
    ensures OccursAt(Lower(content[start..end]), lt, pos - start)
  {
    var whole := Lower(content);
    var w := content[start..end];
    var window := Lower(w);
    var q := pos - start;
    forall j | q <= j < q + |lt| ensures window[j] == whole[start + j] {
      assert w[j] == content[start + j];
    }
    forall k | 0 <= k < |lt| ensures window[q + k] == lt[k] {
      assert window[q + k] == whole[pos + k];
    }
  }

  /** An occurrence of a term without newlines survives turning newlines
      into spaces; its first and last characters are those of the window. */
  lemma OccursAfterReplace(w: string, term: string, q: nat)
    requires OccursAt(Lower(w), Lower(term), q) && |term| > 0
    requires '\n' !in term
    ensures OccursAt(Lower(ReplaceChar(w, '\n', ' ')), Lower(term), q)
    ensures ReplaceChar(w, '\n', ' ')[q] == w[q]
    ensures ReplaceChar(w, '\n', ' ')[q + |term| - 1] == w[q + |term| - 1]
  {
    var u := ReplaceChar(w, '\n', ' ');
    forall i | q <= i < q + |term|
      ensures u[i] == w[i]
    {
      assert Lower(w)[i] == Lower(term)[i - q];
      assert term[i - q] != '\n';
    }
    assert Lower(u)[q..q + |term|] == Lower(w)[q..q + |term|];
  }

  /** An occurrence whose first and last characters are not whitespace
      survives `strip()`. */
  lemma OccursAfterStrip(u: string, lt: string, q: nat)
    requires OccursAt(Lower(u), lt, q) && |lt| > 0
    requires u[q] !in Whitespace && u[q + |lt| - 1] !in Whitespace
    ensures StripStart(u) <= q
    ensures OccursAt(Lower(Strip(u)), lt, q - StripStart(u))
  {
    StripFacts(u);
    var a, b := StripStart(u), StripEnd(u);
    assert a <= q;
    assert q + |lt| <= b;
    OccursInWindow(u, lt, q, a, b);
  }

  /** An occurrence survives adding text on either side. */
  lemma OccursInConcat(a: string, b: string, c: string, lt: string, q: nat)
    requires OccursAt(Lower(b), lt, q)
    ensures OccursAt(Lower(a + b + c), lt, |a| + q)
  {
    var s := a + b + c;
    LowerSlice(s, |a|, |a| + |b|);
    assert s[|a|..|a| + |b|] == b;
    assert Lower(s)[|a| + q..|a| + q + |lt|] == Lower(s)[|a|..|a| + |b|][q..q + |lt|];
  }

  /** An occurrence of a term without newlines and without whitespace at
      its ends, inside the window, is still there after the window is put on
      one line. */
  lemma OccursInOneLine(w: string, term: string, q: nat)
    requires OccursAt(Lower(w), Lower(term), q) && |term| > 0
    requires TermFits(term)
    ensures exists k :: 0 <= k <= |OneLine(w)| && OccursAt(Lower(OneLine(w)), Lower(term), k)
  {
    OccursAfterReplace(w, term, q);
    var u := ReplaceChar(w, '\n', ' ');
    EndsAreNotWhitespace(w, term, q);
    OccursAfterStrip(u, Lower(term), q);
    assert OccursAt(Lower(OneLine(w)), Lower(term), q - StripStart(u));
  }

  /** A match inside the window is still a match once the window is put on
      one line and the ellipses are added. */
  lemma OccursInFramedLine(pre: string, w: string, post: string, term: string, q0: nat)
    requires OccursAt(Lower(w), Lower(term), q0) && |term| > 0
    requires TermFits(term)
    ensures Contains(Lower(pre + OneLine(w) + post), Lower(term))
  {
    OccursInOneLine(w, term, q0);
    var q :| 0 <= q <= |OneLine(w)| && OccursAt(Lower(OneLine(w)), Lower(term), q);
    OccursInConcat(pre, OneLine(w), post, Lower(term), q);
    assert OccursAt(Lower(pre + OneLine(w) + post), Lower(term), |pre| + q);
  }

  /** When the term is non-empty, holds no newline and neither starts nor
      ends with whitespace (a multi-word term such as "meeting notes" is
      fine), the snippet itself shows the match. */
  lemma SnippetShowsMatch(content: string, term: string, ctx: nat, pos: int)
    requires IsFirstMatch(content, term, pos)
    requires |term| > 0
    requires TermFits(term)
    ensures Contains(Lower(GetContextSnippet(content, term, ctx).text), Lower(term))
  {
    MatchPosIsFirst(content, term, pos);
    var start := WindowStart(pos, ctx);
    var end := WindowEnd(|content|, pos, |term|, ctx);
    OccursInWindow(content, Lower(term), pos, start, end);
    OccursInFramedLine(Lead(start), content[start..end], Trail(end, |content|), term, pos - start);
  }
}
