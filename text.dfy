/** The few string operations of Python's `str` that the query layer uses,
    on the ASCII model: `lower`, `strip`, `lstrip`, `find`, `count`,
    `replace`, `split(c)[0]` and `startswith`. */
module Text {

  /** The ASCII characters for which Python's `str.isspace` holds; `strip()`
      with no argument removes exactly these at both ends. */
  const Whitespace: set<char> :=
    {' ', '\t', '\n', '\U{0B}', '\U{0C}', '\r', '\U{1C}', '\U{1D}', '\U{1E}', '\U{1F}'}

  function LowerChar(c: char): char {
    if 'A' <= c <= 'Z' then (c as int + 32) as char else c
  }

  /** `str.lower()` on ASCII: upper-case letters become lower-case, nothing
      else changes, so the length is kept. */
  function Lower(s: string): (r: string)
    ensures |r| == |s|
    ensures forall i :: 0 <= i < |s| ==> r[i] == LowerChar(s[i])
  {
    seq(|s|, i requires 0 <= i < |s| => LowerChar(s[i]))
  }

  /** Lower-casing commutes with slicing. */
  lemma LowerSlice(s: string, i: nat, j: nat)
    requires i <= j <= |s|
    ensures Lower(s)[i..j] == Lower(s[i..j])
  {
    assert forall k :: 0 <= k < j - i ==> Lower(s)[i..j][k] == Lower(s[i..j])[k];
  }

  /** Number of leading characters of `s` that lie in `cs`. */
  function LeadingIn(s: string, cs: set<char>): (n: nat)
    ensures n <= |s|
    ensures forall k :: 0 <= k < n ==> s[k] in cs
    ensures n < |s| ==> s[n] !in cs
  {
    if s != [] && s[0] in cs then 1 + LeadingIn(s[1..], cs) else 0
  }

  /** Number of trailing characters of `s` that lie in `cs`. */
  function TrailingIn(s: string, cs: set<char>): (n: nat)
    ensures n <= |s|
    ensures forall k :: |s| - n <= k < |s| ==> s[k] in cs
    ensures n < |s| ==> s[|s| - 1 - n] !in cs
  {
    if s != [] && s[|s| - 1] in cs then 1 + TrailingIn(s[..|s| - 1], cs) else 0
  }

  /** `s.lstrip(chars)`: drop the leading run of characters in `cs`. */
  function LStrip(s: string, cs: set<char>): string {
    s[LeadingIn(s, cs)..]
  }

  /** Where `s.strip()` starts. */
  function StripStart(s: string): nat {
    LeadingIn(s, Whitespace)
  }

  /** Where `s.strip()` ends. */
  function StripEnd(s: string): (j: nat)
    ensures StripStart(s) <= j <= |s|
  {
    |s| - TrailingIn(s[StripStart(s)..], Whitespace)
  }

  /** `s.strip()`: drop leading and trailing whitespace. */
  function Strip(s: string): string {
    s[StripStart(s)..StripEnd(s)]
  }

  /** What `strip()` removes is whitespace, and what it keeps neither starts
      nor ends with whitespace. */
  lemma StripFacts(s: string)
    ensures forall k :: 0 <= k < StripStart(s) ==> s[k] in Whitespace
    ensures forall k :: StripEnd(s) <= k < |s| ==> s[k] in Whitespace
    ensures StripStart(s) < |s| ==> StripStart(s) < StripEnd(s)
    ensures StripStart(s) < StripEnd(s) ==>
      s[StripStart(s)] !in Whitespace && s[StripEnd(s) - 1] !in Whitespace
  {
    var i := StripStart(s);
    var t := s[i..];
    var n := TrailingIn(t, Whitespace);
    forall k | StripEnd(s) <= k < |s| ensures s[k] in Whitespace {
      assert t[k - i] == s[k];
    }
    if i < |s| {
      assert t[0] !in Whitespace;
      assert n < |t|;
      assert t[|t| - 1 - n] == s[StripEnd(s) - 1];
    }
  }

  /** A non-empty stripped string starts and ends with non-whitespace. */
  lemma StripTrimmed(s: string)
    ensures var r := Strip(s);
      r != [] ==> r[0] !in Whitespace && r[|r| - 1] !in Whitespace
  {
    StripFacts(s);
  }

  /** A character of a stripped string is a character of the original. */
  lemma StripSubset(s: string, c: char)
    requires c !in s
    ensures c !in Strip(s)
  {
    var r := Strip(s);
    forall k | 0 <= k < |r| ensures r[k] != c {
      assert r[k] == s[StripStart(s) + k];
    }
  }

  /** `p` occurs in `s` at offset `i`. */
  predicate OccursAt(s: string, p: string, i: int) {
    0 <= i && i + |p| <= |s| && forall k :: 0 <= k < |p| ==> s[i + k] == p[k]
  }

  /** `s.find(p, from)`: the first offset at or after `from` where `p`
      occurs, or -1 when there is none. */
  function FindFrom(s: string, p: string, from: nat): (r: int)
    decreases |s| - from
    ensures r == -1 || (from <= r && OccursAt(s, p, r))
    ensures r == -1 ==> forall k :: from <= k ==> !OccursAt(s, p, k)
    ensures r != -1 ==> forall k :: from <= k < r ==> !OccursAt(s, p, k)
  {
    if from + |p| > |s| then -1
    else if s[from..from + |p|] == p then from
    else FindFrom(s, p, from + 1)
  }

  /** `s.find(p)`. */
  function Find(s: string, p: string): int {
    FindFrom(s, p, 0)
  }

  /** `p in s`. */
  predicate Contains(s: string, p: string) {
    exists k :: 0 <= k <= |s| && OccursAt(s, p, k)
  }

  /** `p in s` holds exactly when `s.find(p)` is not -1. */
  lemma ContainsIffFound(s: string, p: string)
    ensures Contains(s, p) <==> Find(s, p) != -1
  {
    if Find(s, p) != -1 {
      assert OccursAt(s, p, Find(s, p));
    }
  }

  /** A slice of `s` occurs in `s`. */
  lemma ContainsSlice(s: string, i: nat, j: nat)
    requires i <= j <= |s|
    ensures Contains(s, s[i..j])
  {
    assert OccursAt(s, s[i..j], i);
  }

  /** Occurrence is transitive: what occurs in a part of `s` occurs in `s`. */
  lemma ContainsTrans(a: string, b: string, c: string)
    requires Contains(a, b) && Contains(b, c)
    ensures Contains(a, c)
  {
    var i :| 0 <= i <= |a| && OccursAt(a, b, i);
    var j :| 0 <= j <= |b| && OccursAt(b, c, j);
    forall k | 0 <= k < |c| ensures a[i + j + k] == c[k] {
      assert b[j + k] == c[k];
      assert a[i + (j + k)] == b[j + k];
    }
    assert OccursAt(a, c, i + j);
  }

  /** A character missing from `a` is missing from whatever occurs in `a`. */
  lemma ContainedAvoids(a: string, b: string, c: char)
    requires Contains(a, b) && c !in a
    ensures c !in b
  {
    var i :| 0 <= i <= |a| && OccursAt(a, b, i);
    forall k | 0 <= k < |b| ensures b[k] != c {
      assert b[k] == a[i + k];
    }
  }

  /** `s.count(c)` for a single character: how many times `c` occurs. */
  function Count(s: string, c: char): (n: nat)
    ensures n == multiset(s)[c]
  {
    if s == [] then 0
    else
      assert s == [s[0]] + s[1..];
      (if s[0] == c then 1 else 0) + Count(s[1..], c)
  }

  /** `s.replace(a, b)` for single characters. */
  function ReplaceChar(s: string, a: char, b: char): (r: string)
    ensures |r| == |s|
    ensures forall k :: 0 <= k < |s| ==> r[k] == (if s[k] == a then b else s[k])
  {
    seq(|s|, k requires 0 <= k < |s| => if s[k] == a then b else s[k])
  }

  /** `s.replace(pat, rep)`: scan left to right, replacing each
      non-overlapping occurrence of `pat`. */
  function ReplaceAll(s: string, pat: string, rep: string): string
    requires pat != []
    decreases |s|
  {
    if |s| < |pat| then s
    else if s[..|pat|] == pat then rep + ReplaceAll(s[|pat|..], pat, rep)
    else [s[0]] + ReplaceAll(s[1..], pat, rep)
  }

  /** `s.split(c)[0]`: everything before the first `c`. */
  function TakeUntil(s: string, c: char): (r: string)
    ensures r <= s
    ensures c !in r
    ensures |r| < |s| ==> s[|r|] == c
  {
    if s == [] || s[0] == c then [] else [s[0]] + TakeUntil(s[1..], c)
  }

  /** The prefix before the first `c` is everything up to that `c`. */
  lemma {:induction false} TakeUntilStops(a: string, c: char, b: string)
    requires c !in a
    ensures TakeUntil(a + [c] + b, c) == a
  {
    if a != [] {
      assert (a + [c] + b)[1..] == a[1..] + [c] + b;
      TakeUntilStops(a[1..], c, b);
    }
  }

  /** `s.split(c)`: the pieces of `s` between the occurrences of `c`, in
      order; a trailing `c` leaves an empty last piece. */
  function Split(s: string, c: char): (r: seq<string>)
    ensures |r| >= 1
    ensures forall k :: 0 <= k < |r| ==> c !in r[k]
    decreases |s|
  {
    var h := TakeUntil(s, c);
    if |h| == |s| then
      assert h == s;
      [s]
    else [h] + Split(s[|h| + 1..], c)
  }

  /** Splitting at the first separator. */
  lemma SplitCons(a: string, c: char, b: string)
    requires c !in a
    ensures Split(a + [c] + b, c) == [a] + Split(b, c)
  {
    TakeUntilStops(a, c, b);
    assert (a + [c] + b)[|a| + 1..] == b;
  }

  /** A string without the separator is one piece. */
  lemma SplitNone(s: string, c: char)
    requires c !in s
    ensures Split(s, c) == [s]
  {
  }

  /** Joining the pieces with the separator gives back the string. */
  lemma {:induction false} JoinSplit(s: string, c: char)
    ensures Join(Split(s, c), [c]) == s
    decreases |s|
  {
    var h := TakeUntil(s, c);
    if |h| < |s| {
      var rest := s[|h| + 1..];
      assert s == h + [c] + rest;
      JoinSplit(rest, c);
      assert Split(s, c) == [h] + Split(rest, c);
    }
  }

  /** `s.rfind(c)`: the last offset of `c` in `s`, or -1. */
  function LastIndexOf(s: string, c: char): (r: int)
    ensures -1 <= r < |s|
    ensures r != -1 ==> s[r] == c
    ensures forall k :: r < k < |s| ==> s[k] != c
  {
    if s == [] then -1
    else if s[|s| - 1] == c then |s| - 1
    else LastIndexOf(s[..|s| - 1], c)
  }

  /** `sep.join(parts)`. */
  function Join(parts: seq<string>, sep: string): string {
    if parts == [] then ""
    else if |parts| == 1 then parts[0]
    else parts[0] + sep + Join(parts[1..], sep)
  }

  /** A join is at least as long as its last part. */
  lemma {:induction false} JoinCoversLast(parts: seq<string>, sep: string)
    requires parts != []
    ensures |Join(parts, sep)| >= |parts[|parts| - 1]|
  {
    if |parts| > 1 {
      JoinCoversLast(parts[1..], sep);
    }
  }

  /** `min(a, b)`. */
  function Min(a: int, b: int): int {
    if a <= b then a else b
  }
}
