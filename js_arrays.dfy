/** The JavaScript array operations the game's bookkeeping is made of:
    `indexOf`, a push guarded by `indexOf(x) < 0`, and `splice(i, 1)`. */
module JsArrays {

  /** No entry occurs twice. */
  predicate NoDuplicates<T(==)>(s: seq<T>) {
    forall i, j :: 0 <= i < j < |s| ==> s[i] != s[j]
  }

  /** `s.indexOf(x)`: the first position holding x, or -1. */
  function IndexOf<T(==)>(s: seq<T>, x: T): (i: int)
    ensures -1 <= i < |s|
    ensures i < 0 <==> x !in s
    ensures 0 <= i ==> s[i] == x && x !in s[..i]
  {
    if s == [] then -1
    else
      var n := |s| - 1;
      var j := IndexOf(s[..n], x);
      assert s == s[..n] + [s[n]];
      assert 0 <= j ==> s[..n][..j] == s[..j];
      if 0 <= j then j else if s[n] == x then n else -1
  }

  /** `if (s.indexOf(x) < 0) s.push(x)`; by IndexOf's contract the guard holds
      exactly when x is not in s. */
  function PushIfAbsent<T(==)>(s: seq<T>, x: T): seq<T> {
    if x !in s then s + [x] else s
  }

  /** The guarded push keeps what was there, in order, adds x at the end when it
      was missing, and never makes a duplicate. */
  lemma PushIfAbsentFacts<T>(s: seq<T>, x: T)
    ensures var r := PushIfAbsent(s, x);
            s <= r && x in r && |r| == |s| + (if x in s then 0 else 1) &&
            (forall y :: y in r <==> y in s || y == x) &&
            (NoDuplicates(s) ==> NoDuplicates(r))
  {
  }

  /** Pushing the same value twice is pushing it once. */
  lemma PushIfAbsentIdempotent<T>(s: seq<T>, x: T)
    ensures PushIfAbsent(PushIfAbsent(s, x), x) == PushIfAbsent(s, x)
  {
  }

  /** The guarded push of each value of xs in turn. */
  function PushAllIfAbsent<T(==)>(s: seq<T>, xs: seq<T>): seq<T> {
    if xs == [] then s else PushIfAbsent(PushAllIfAbsent(s, xs[..|xs| - 1]), xs[|xs| - 1])
  }

  /** Pushing one more value of xs is one more guarded push. */
  lemma PushAllIfAbsentStep<T>(s: seq<T>, xs: seq<T>, k: nat)
    requires k < |xs|
    ensures PushAllIfAbsent(s, xs[..k + 1]) == PushIfAbsent(PushAllIfAbsent(s, xs[..k]), xs[k])
  {
    assert xs[..k + 1][..k] == xs[..k];
  }

  /** Pushing a list keeps the old entries first, holds exactly the old entries
      and the pushed ones, and keeps the list free of duplicates. */
  lemma {:induction false} PushAllIfAbsentFacts<T>(s: seq<T>, xs: seq<T>)
    ensures var r := PushAllIfAbsent(s, xs);
            s <= r && (forall y :: y in r <==> y in s || y in xs) &&
            (NoDuplicates(s) ==> NoDuplicates(r))
  {
    if xs != [] {
      var n := |xs| - 1;
      PushAllIfAbsentFacts(s, xs[..n]);
      PushIfAbsentFacts(PushAllIfAbsent(s, xs[..n]), xs[n]);
      assert xs == xs[..n] + [xs[n]];
      forall y ensures y in xs <==> y in xs[..n] || y == xs[n] {
        if y in xs {
          var k :| 0 <= k < |xs| && xs[k] == y;
          if k < n { assert xs[..n][k] == y; }
        }
      }
    }
  }

  /** Where `splice` starts for a start argument i: a negative i counts back
      from the end, and a start before the front is the front. */
  function SpliceStart(len: nat, i: int): (k: nat)
    ensures 0 <= i ==> k == i
    ensures i < 0 ==> k < len || len == 0
  {
    if 0 <= i then i else if len + i >= 0 then len + i else 0
  }

  /** `s.splice(i, 1)`: the entry at the start position removed, when there is one. */
  function RemoveAt<T>(s: seq<T>, i: int): (r: seq<T>)
    ensures |r| == if |s| > 0 && i < |s| then |s| - 1 else |s|
  {
    var k := SpliceStart(|s|, i);
    if k < |s| then s[..k] + s[k + 1..] else s
  }

  /** `splice(-1, 1)` removes the last entry. */
  lemma RemoveAtLast<T>(s: seq<T>)
    requires |s| > 0
    ensures RemoveAt(s, -1) == s[..|s| - 1]
  {
  }

  /** Removing entry i keeps the others in order and removes exactly one copy of it. */
  lemma RemoveAtFacts<T>(s: seq<T>, i: int)
    requires 0 <= i < |s|
    ensures var r := RemoveAt(s, i);
            (forall j :: 0 <= j < i ==> r[j] == s[j]) &&
            (forall j :: i <= j < |r| ==> r[j] == s[j + 1]) &&
            multiset(r) == multiset(s) - multiset{s[i]}
  {
    assert s == s[..i] + [s[i]] + s[i + 1..];
  }

  /** Removing from a list without duplicates drops that one value. */
  lemma RemoveAtUnique<T>(s: seq<T>, i: int)
    requires 0 <= i < |s| && NoDuplicates(s)
    ensures var r := RemoveAt(s, i);
            NoDuplicates(r) && forall y :: y in r <==> y in s && y != s[i]
  {
    var r := RemoveAt(s, i);
    RemoveAtFacts(s, i);
    forall y ensures y in r <==> y in s && y != s[i] {
      if y in r {
        var k :| 0 <= k < |r| && r[k] == y;
        if k < i { assert s[k] == y; } else { assert s[k + 1] == y; }
      }
      if y in s && y != s[i] {
        var k :| 0 <= k < |s| && s[k] == y;
        if k < i { assert r[k] == y; } else { assert r[k - 1] == y; }
      }
    }
    forall a, b | 0 <= a < b < |r|
      ensures r[a] != r[b]
    {
      var a', b' := if a < i then a else a + 1, if b < i then b else b + 1;
      assert r[a] == s[a'] && r[b] == s[b'];
    }
  }

  /** `var k = s.indexOf(x); if (k >= 0) s.splice(k, 1)`: the first copy of x removed. */
  function RemoveFirst<T(==)>(s: seq<T>, x: T): (r: seq<T>)
    ensures x !in s ==> r == s
    ensures x in s ==> multiset(r) == multiset(s) - multiset{x}
  {
    var k := IndexOf(s, x);
    if k >= 0 then RemoveAtFacts(s, k); RemoveAt(s, k) else s
  }

  /** The first copy of each value of xs removed in turn. */
  function RemoveAllFirst<T(==)>(s: seq<T>, xs: seq<T>): seq<T> {
    if xs == [] then s else RemoveFirst(RemoveAllFirst(s, xs[..|xs| - 1]), xs[|xs| - 1])
  }

  /** Removing one more value of xs is one more first-copy removal. */
  lemma RemoveAllFirstStep<T>(s: seq<T>, xs: seq<T>, k: nat)
    requires k < |xs|
    ensures RemoveAllFirst(s, xs[..k + 1]) == RemoveFirst(RemoveAllFirst(s, xs[..k]), xs[k])
  {
    assert xs[..k + 1][..k] == xs[..k];
  }

  /** From a list without duplicates, removing a list of values removes exactly
      those values and keeps the list free of duplicates. */
  lemma {:induction false} RemoveAllFirstFacts<T>(s: seq<T>, xs: seq<T>)
    requires NoDuplicates(s)
    ensures var r := RemoveAllFirst(s, xs);
            NoDuplicates(r) && forall y :: y in r <==> y in s && y !in xs
  {
    if xs != [] {
      var n := |xs| - 1;
      RemoveAllFirstFacts(s, xs[..n]);
      var before := RemoveAllFirst(s, xs[..n]);
      var r := RemoveAllFirst(s, xs);
      var k := IndexOf(before, xs[n]);
      if k >= 0 {
        RemoveAtUnique(before, k);
        assert r == RemoveAt(before, k) && before[k] == xs[n];
      } else {
        assert r == before && xs[n] !in before;
      }
      assert xs == xs[..n] + [xs[n]];
      forall y ensures y in r <==> y in s && y !in xs {
        assert y in xs <==> y in xs[..n] || y == xs[n];
      }
    }
  }
}
