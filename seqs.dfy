/**
 * The three array primitives the game server relies on, as functions on
 * sequences: `indexOf`, `indexOf` followed by `splice(idx, 1)`, and
 * `find(e => e !== x)`.
 */
module Seqs {
  import opened Wrappers

  predicate NoDuplicates<T(==)>(s: seq<T>) {
    forall i, j :: 0 <= i < j < |s| ==> s[i] != s[j]
  }

  /** `s.indexOf(x)`: the position of the first occurrence of `x`, or -1. */
  function IndexOf<T(==)>(s: seq<T>, x: T): (i: int)
    ensures -1 <= i < |s|
    ensures i == -1 <==> x !in s
    ensures 0 <= i ==> s[i] == x && x !in s[..i]
  {
    if |s| == 0 then -1
    else if s[0] == x then 0
    else
      var k := IndexOf(s[1..], x);
      assert s[1..][..if k < 0 then 0 else k] == s[1..1 + if k < 0 then 0 else k];
      if k < 0 then -1 else k + 1
  }

  /**
   * Splicing out the element found by an index search: the first
   * occurrence of `x` is deleted, and nothing happens when `x` is absent.
   */
  function RemoveFirst<T(==)>(s: seq<T>, x: T): (r: seq<T>)
    ensures x !in s ==> r == s
    ensures x in s ==> |r| == |s| - 1 && multiset(r) == multiset(s) - multiset{x}
    ensures x in s ==> exists i :: 0 <= i < |s| && s[i] == x && x !in s[..i] && r == s[..i] + s[i + 1..]
    ensures forall y :: y in r ==> y in s
    ensures forall y :: y in s && y != x ==> y in r
  {
    var i := IndexOf(s, x);
    if i < 0 then s
    else
      assert s == s[..i] + [s[i]] + s[i + 1..];
      s[..i] + s[i + 1..]
  }

  /** Without duplicates, removal deletes `x` altogether and keeps every other element. */
  lemma RemoveFirstDistinct<T>(s: seq<T>, x: T)
    requires NoDuplicates(s)
    ensures var r := RemoveFirst(s, x);
      && NoDuplicates(r)
      && x !in r
      && forall y :: y in r <==> y in s && y != x
  {
    if x in s {
      var i := IndexOf(s, x);
      SpliceDistinct(s, i);
    }
  }

  /** Deleting position `i` of a duplicate-free sequence removes exactly the element at `i`. */
  lemma SpliceDistinct<T>(s: seq<T>, i: nat)
    requires NoDuplicates(s) && i < |s|
    ensures var r := s[..i] + s[i + 1..];
      && NoDuplicates(r)
      && s[i] !in r
      && forall y :: y in r <==> y in s && y != s[i]
  {
    var r := s[..i] + s[i + 1..];
    forall a, b | 0 <= a < b < |r| ensures r[a] != r[b] {
      assert r[a] == s[if a < i then a else a + 1];
      assert r[b] == s[if b < i then b else b + 1];
    }
    forall y ensures y in r <==> y in s && y != s[i] {
      if y in r {
        var k :| 0 <= k < |r| && r[k] == y;
        assert r[k] == s[if k < i then k else k + 1];
      }
      if y in s && y != s[i] {
        var k :| 0 <= k < |s| && s[k] == y;
        assert r[if k < i then k else k - 1] == y;
      }
    }
  }

  /** Appending an element that is not there yet keeps a sequence duplicate-free. */
  lemma AppendDistinct<T>(s: seq<T>, x: T)
    requires NoDuplicates(s) && x !in s
    ensures NoDuplicates(s + [x])
  {
    var r := s + [x];
    forall i, j | 0 <= i < j < |r| ensures r[i] != r[j] {
      assert r[i] == s[i];
      if j == |s| {
        assert s[i] in s;
      }
    }
  }

  /** Removing twice is removing once: the operation is idempotent on duplicate-free sequences. */
  lemma RemoveFirstIdempotent<T>(s: seq<T>, x: T)
    requires NoDuplicates(s)
    ensures RemoveFirst(RemoveFirst(s, x), x) == RemoveFirst(s, x)
  {
    RemoveFirstDistinct(s, x);
  }

  /** A sequence of at most two elements holding two different values is exactly those two, in one order or the other. */
  lemma TwoDistinct<T>(s: seq<T>, a: T, b: T)
    requires |s| <= 2 && a in s && b in s && a != b
    ensures s == [a, b] || s == [b, a]
  {
    assert |s| == 2;
    assert s == [s[0], s[1]];
  }

  /** `s.find(e => e !== x)`: the first element that is not `x`, if any. */
  function FirstOther<T(==)>(s: seq<T>, x: T): (r: Option<T>)
    ensures r.None? <==> forall e :: e in s ==> e == x
    ensures r.Some? ==> exists i :: 0 <= i < |s| && s[i] == r.value && r.value != x && forall j :: 0 <= j < i ==> s[j] == x
  {
    if |s| == 0 then None
    else if s[0] != x then
      assert s[0] in s;
      Some(s[0])
    else
      var r := FirstOther(s[1..], x);
      assert forall e :: e in s ==> e == s[0] || e in s[1..];
      if r.Some? then
        var i :| 0 <= i < |s[1..]| && s[1..][i] == r.value && r.value != x && forall j :: 0 <= j < i ==> s[1..][j] == x;
        assert s[i + 1] == r.value && s[i + 1] in s;
        r
      else r
  }
}
