/** Ordering results by recency: Python's stable `list.sort(key=...,
    reverse=True)` on string keys (the ISO modification timestamps), which
    puts larger keys first and keeps equal keys in their original order. */
module Recency {

  // ---------------------------------------------------------------------
  // String order

  /** Python's `a <= b` on strings: lexicographic by code point, a prefix
      coming first. */
  predicate StrLe(a: string, b: string)
    decreases |a|
  {
    a == [] || (b != [] && (a[0] < b[0] || (a[0] == b[0] && StrLe(a[1..], b[1..]))))
  }

  /** Python's `a < b` on strings. */
  predicate StrLt(a: string, b: string) {
    StrLe(a, b) && a != b
  }

  lemma {:induction false} StrLeRefl(a: string)
    ensures StrLe(a, a)
    decreases |a|
  {
    if a != [] { StrLeRefl(a[1..]); }
  }

  lemma {:induction false} StrLeTotal(a: string, b: string)
    ensures StrLe(a, b) || StrLe(b, a)
    decreases |a|
  {
    if a != [] && b != [] && a[0] == b[0] { StrLeTotal(a[1..], b[1..]); }
  }

  lemma {:induction false} StrLeAntisym(a: string, b: string)
    requires StrLe(a, b) && StrLe(b, a)
    ensures a == b
    decreases |a|
  {
    if a != [] {
      StrLeAntisym(a[1..], b[1..]);
      assert a == [a[0]] + a[1..] && b == [b[0]] + b[1..];
    }
  }

  lemma {:induction false} StrLeTrans(a: string, b: string, c: string)
    requires StrLe(a, b) && StrLe(b, c)
    ensures StrLe(a, c)
    decreases |a|
  {
    if a != [] && a[0] == b[0] && b[0] == c[0] {
      StrLeTrans(a[1..], b[1..], c[1..]);
    }
  }

  /** The empty string, the key of a result with no timestamp, sorts
      below every other string. */
  lemma EmptyIsLeast(a: string)
    ensures StrLe("", a)
    ensures StrLe(a, "") ==> a == ""
  {
  }

  // ---------------------------------------------------------------------
  // The sort, as a function

  /** Insert `x` into the descending run `t`, after every element whose key
      is not smaller than `x`'s. */
  function InsertDesc<T>(t: seq<T>, x: T, key: T -> string): seq<T> {
    if t == [] || !StrLt(key(t[|t| - 1]), key(x)) then t + [x]
    else InsertDesc(t[..|t| - 1], x, key) + [t[|t| - 1]]
  }

  /** `sorted(s, key=key, reverse=True)`, element by element from the left:
      each element goes after all earlier ones whose key is not smaller. */
  function SortDesc<T>(s: seq<T>, key: T -> string): seq<T> {
    if s == [] then [] else InsertDesc(SortDesc(s[..|s| - 1], key), s[|s| - 1], key)
  }

  /** Keys never increase from one position to a later one. */
  predicate Descending<T>(s: seq<T>, key: T -> string) {
    forall i, j :: 0 <= i < j < |s| ==> StrLe(key(s[j]), key(s[i]))
  }

  /** The elements of `s` whose key is `k`, in order. */
  function WithKey<T>(s: seq<T>, key: T -> string, k: string): seq<T> {
    if s == [] then []
    else WithKey(s[..|s| - 1], key, k) + (if key(s[|s| - 1]) == k then [s[|s| - 1]] else [])
  }

  /** Picking the elements with one key distributes over concatenation. */
  lemma {:induction false} WithKeyConcat<T>(a: seq<T>, b: seq<T>, key: T -> string, k: string)
    ensures WithKey(a + b, key, k) == WithKey(a, key, k) + WithKey(b, key, k)
    decreases |b|
  {
    if b == [] {
      assert a + b == a;
    } else {
      var init := b[..|b| - 1];
      assert (a + b)[..|a + b| - 1] == a + init;
      WithKeyConcat(a, init, key, k);
    }
  }

  /** Appending an element whose key is at most every earlier key keeps a
      sequence descending. */
  lemma DescendingSnoc<T>(m: seq<T>, last: T, key: T -> string)
    requires Descending(m, key)
    requires forall i :: 0 <= i < |m| ==> StrLe(key(last), key(m[i]))
    ensures Descending(m + [last], key)
  {
    var r := m + [last];
    forall i, j | 0 <= i < j < |r| ensures StrLe(key(r[j]), key(r[i])) {
      if j < |m| {
        assert r[i] == m[i] && r[j] == m[j];
      } else {
        assert r[i] == m[i] && r[j] == last;
      }
    }
  }

  /** Inserting adds exactly one element. */
  lemma {:induction false} InsertDescPerm<T>(t: seq<T>, x: T, key: T -> string)
    ensures multiset(InsertDesc(t, x, key)) == multiset(t) + multiset{x}
    decreases |t|
  {
    if t != [] && StrLt(key(t[|t| - 1]), key(x)) {
      var init, last := t[..|t| - 1], t[|t| - 1];
      assert t == init + [last];
      InsertDescPerm(init, x, key);
    }
  }

  /** Inserting into a descending sequence keeps it descending. */
  lemma {:induction false} InsertDescSorted<T>(t: seq<T>, x: T, key: T -> string)
    requires Descending(t, key)
    ensures Descending(InsertDesc(t, x, key), key)
    decreases |t|
  {
    if t == [] || !StrLt(key(t[|t| - 1]), key(x)) {
      if t != [] {
        StrLeTotal(key(t[|t| - 1]), key(x));
      }
      forall i | 0 <= i < |t| ensures StrLe(key(x), key(t[i])) {
        if i < |t| - 1 { StrLeTrans(key(x), key(t[|t| - 1]), key(t[i])); }
      }
      DescendingSnoc(t, x, key);
    } else {
      var init, last := t[..|t| - 1], t[|t| - 1];
      assert Descending(init, key);
      InsertDescSorted(init, x, key);
      InsertDescPerm(init, x, key);
      var m := InsertDesc(init, x, key);
      forall i | 0 <= i < |m| ensures StrLe(key(last), key(m[i])) {
        assert m[i] in multiset(m);
        if m[i] != x {
          assert m[i] in multiset(init);
          var j :| 0 <= j < |init| && init[j] == m[i];
          assert t[j] == init[j];
        }
      }
      DescendingSnoc(m, last, key);
    }
  }

  /** Elements with `x`'s key come before `x`; the ones `x` jumps over all
      have a smaller key, so the order among equal keys is kept. */
  lemma {:induction false} InsertDescStable<T>(t: seq<T>, x: T, key: T -> string, k: string)
    ensures WithKey(InsertDesc(t, x, key), key, k) ==
      WithKey(t, key, k) + (if key(x) == k then [x] else [])
    decreases |t|
  {
    var r := InsertDesc(t, x, key);
    if t == [] || !StrLt(key(t[|t| - 1]), key(x)) {
      assert r[..|r| - 1] == t;
    } else {
      var init, last := t[..|t| - 1], t[|t| - 1];
      var m := InsertDesc(init, x, key);
      assert r[..|r| - 1] == m;
      InsertDescStable(init, x, key, k);
      assert key(last) != key(x);
      if key(x) == k {
        calc {
          WithKey(r, key, k);
          WithKey(m, key, k);
          WithKey(init, key, k) + [x];
          WithKey(t, key, k) + [x];
        }
      }
    }
  }

  /** The sorted sequence is a permutation of the input. */
  lemma {:induction false} SortDescPermutation<T>(s: seq<T>, key: T -> string)
    ensures multiset(SortDesc(s, key)) == multiset(s)
  {
    if s != [] {
      var init := s[..|s| - 1];
      SortDescPermutation(init, key);
      InsertDescPerm(SortDesc(init, key), s[|s| - 1], key);
      assert s == init + [s[|s| - 1]];
    }
  }

  /** The sorted sequence has non-increasing keys. */
  lemma {:induction false} SortDescSorted<T>(s: seq<T>, key: T -> string)
    ensures Descending(SortDesc(s, key), key)
  {
    if s != [] {
      SortDescSorted(s[..|s| - 1], key);
      InsertDescSorted(SortDesc(s[..|s| - 1], key), s[|s| - 1], key);
    }
  }

  /** Both together: the sort orders a permutation of its input. */
  lemma SortDescSortedPermutation<T>(s: seq<T>, key: T -> string)
    ensures multiset(SortDesc(s, key)) == multiset(s)
    ensures Descending(SortDesc(s, key), key)
  {
    SortDescPermutation(s, key);
    SortDescSorted(s, key);
  }

  /** The sort is stable: for every key, the elements with that key appear
      in the same order as in the input. */
  lemma {:induction false} SortDescStable<T>(s: seq<T>, key: T -> string, k: string)
    ensures WithKey(SortDesc(s, key), key, k) == WithKey(s, key, k)
  {
    if s != [] {
      var init := s[..|s| - 1];
      SortDescStable(init, key, k);
      InsertDescStable(SortDesc(init, key), s[|s| - 1], key, k);
    }
  }

  /** After the sort, results without a timestamp (key "") come after all
      results that have one. */
  lemma MissingLast<T>(s: seq<T>, key: T -> string)
    ensures var r := SortDesc(s, key);
      forall i, j :: 0 <= i < j < |r| && key(r[i]) == "" ==> key(r[j]) == ""
  {
    SortDescSortedPermutation(s, key);
    var r := SortDesc(s, key);
    forall i, j | 0 <= i < j < |r| && key(r[i]) == "" ensures key(r[j]) == "" {
      EmptyIsLeast(key(r[j]));
    }
  }

  // ---------------------------------------------------------------------
  // The sort, in place

  /** One step of the inner loop: `x` moves left past a smaller key. */
  lemma InsertStep<T>(t: seq<T>, x: T, key: T -> string, j: nat)
    requires 0 < j <= |t| && StrLt(key(t[j - 1]), key(x))
    ensures InsertDesc(t[..j], x, key) + t[j..] == InsertDesc(t[..j - 1], x, key) + t[j - 1..]
  {
    assert t[..j][..j - 1] == t[..j - 1];
    assert t[j - 1..] == [t[j - 1]] + t[j..];
  }

  /** Where the inner loop stops, `x` goes. */
  lemma InsertStop<T>(t: seq<T>, x: T, key: T -> string, j: nat)
    requires j <= |t| && (j == 0 || !StrLt(key(t[j - 1]), key(x)))
    ensures InsertDesc(t[..j], x, key) == t[..j] + [x]
  {
  }

  /** One step of the outer loop: the next element is inserted. */
  lemma SortStep<T>(s: seq<T>, key: T -> string, i: nat)
    requires i < |s|
    ensures SortDesc(s[..i + 1], key) == InsertDesc(SortDesc(s[..i], key), s[i], key)
  {
    assert s[..i + 1][..i] == s[..i];
  }

  /** `a.sort(key=key, reverse=True)`: insertion sort, moving each element
      left past the elements with a smaller key. */
  method SortByRecency<T>(a: array<T>, key: T -> string)
    modifies a
    ensures a[..] == SortDesc(old(a[..]), key)
  {
    ghost var s := a[..];
    var i := 0;
    while i < a.Length
      invariant 0 <= i <= a.Length
      invariant a[..i] == SortDesc(s[..i], key)
      invariant a[i..] == s[i..]
    {
      SortStep(s, key, i);
      assert a[i] == s[i];
      InsertAt(a, i, key);
      assert a[i + 1..] == s[i + 1..];
      i := i + 1;
    }
    assert a[..] == a[..a.Length] && s == s[..a.Length];
  }

  /** Moves `a[i]` left into the run `a[..i]`, as `InsertDesc` does. */
  method InsertAt<T>(a: array<T>, i: nat, key: T -> string)
    requires i < a.Length
    modifies a
    ensures a[..i + 1] == InsertDesc(old(a[..i]), old(a[i]), key)
    ensures a[i + 1..] == old(a[i + 1..])
  {
    var x := a[i];
    ghost var t := a[..i];
    var j := i;
    assert t[..j] == t && t[j..] == [];
    while j > 0 && StrLt(key(a[j - 1]), key(x))
      invariant 0 <= j <= i
      invariant forall k :: 0 <= k < j ==> a[k] == t[k]
      invariant forall k :: j < k <= i ==> a[k] == t[k - 1]
      invariant forall k :: i < k < a.Length ==> a[k] == old(a[k])
      invariant InsertDesc(t, x, key) == InsertDesc(t[..j], x, key) + t[j..]
    {
      InsertStep(t, x, key, j);
      a[j] := a[j - 1];
      j := j - 1;
    }
    InsertStop(t, x, key, j);
    a[j] := x;
    Placed(a[..], t, x, j, i);
  }

  /** After the shift, `x` sits at `j` with the run's prefix before it and
      the shifted rest after it. */
  lemma Placed<T>(b: seq<T>, t: seq<T>, x: T, j: nat, i: nat)
    requires j <= i < |b| && |t| == i
    requires forall k :: 0 <= k < j ==> b[k] == t[k]
    requires b[j] == x
    requires forall k :: j < k <= i ==> b[k] == t[k - 1]
    ensures b[..i + 1] == t[..j] + [x] + t[j..]
  {
    var want := t[..j] + [x] + t[j..];
    assert forall k :: 0 <= k < i + 1 ==> b[k] == want[k];
  }
}
