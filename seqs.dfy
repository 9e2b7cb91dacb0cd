/**
 * Sequences used as the engine's ordered collections.
 *
 * A JavaScript `Set` iterates in insertion order: `add` appends an absent
 * element and `delete` removes it in place. An array's `indexOf` + `splice(i, 1)`
 * removes the first occurrence. Both are modelled here on `seq`.
 */
module Seqs {

  /** No element occurs twice (what a `Set` guarantees). */
  predicate NoDups<T(==)>(s: seq<T>) {
    forall i, j :: 0 <= i < j < |s| ==> s[i] != s[j]
  }

  /** `Array.prototype.indexOf`: the first position of `x`, or -1. */
  function IndexOf<T(==)>(s: seq<T>, x: T): (r: int)
    ensures -1 <= r < |s|
    ensures r == -1 <==> x !in s
    ensures r >= 0 ==> s[r] == x && x !in s[..r]
  {
    if |s| == 0 then -1
    else if s[0] == x then 0
    else
      var k := IndexOf(s[1..], x);
      assert s[1..][..if k < 0 then 0 else k] == s[1..if k < 0 then 1 else k + 1];
      if k < 0 then -1 else k + 1
  }

  /** `indexOf` then `splice(index, 1)` when found; also `Set.delete` on a duplicate-free sequence. */
  function RemoveFirst<T(==)>(s: seq<T>, x: T): (r: seq<T>)
    ensures x !in s ==> r == s
    ensures x in s ==> |r| == |s| - 1
    ensures x in s ==> var i := IndexOf(s, x); r == s[..i] + s[i + 1..]
  {
    var i := IndexOf(s, x);
    if i < 0 then s else s[..i] + s[i + 1..]
  }

  /** Removing `x` keeps every other element and adds none. */
  lemma RemoveFirstMembers<T>(s: seq<T>, x: T)
    ensures forall y :: y in RemoveFirst(s, x) ==> y in s
    ensures forall y :: y in s && y != x ==> y in RemoveFirst(s, x)
  {
    var i := IndexOf(s, x);
    if i >= 0 {
      var r := RemoveFirst(s, x);
      assert r == s[..i] + s[i + 1..];
      forall y | y in s && y != x ensures y in r {
        var k :| 0 <= k < |s| && s[k] == y;
        if k < i { assert r[k] == y; } else { assert k != i && r[k - 1] == y; }
      }
      forall y | y in r ensures y in s {
        var k :| 0 <= k < |r| && r[k] == y;
        if k < i { assert s[k] == y; } else { assert s[k + 1] == y; }
      }
    }
  }

  /** `Set.add`: append only when absent. */
  function AddUnique<T(==)>(s: seq<T>, x: T): (r: seq<T>)
    ensures x in r
    ensures forall i :: 0 <= i < |r| ==> r[i] in s || r[i] == x
    ensures forall i :: 0 <= i < |s| ==> s[i] in r
    ensures x in s ==> r == s
    ensures NoDups(s) ==> NoDups(r)
  {
    if x in s then s else s + [x]
  }

  /** On a duplicate-free sequence, `RemoveFirst` removes `x` entirely and keeps the sequence duplicate-free. */
  lemma RemoveFirstNoDups<T>(s: seq<T>, x: T)
    requires NoDups(s)
    ensures x !in RemoveFirst(s, x)
    ensures NoDups(RemoveFirst(s, x))
  {
    var i := IndexOf(s, x);
    if i >= 0 {
      var r := RemoveFirst(s, x);
      assert r == s[..i] + s[i + 1..];
      forall a, b | 0 <= a < b < |r| ensures r[a] != r[b] {
        var a' := if a < i then a else a + 1;
        var b' := if b < i then b else b + 1;
        assert r[a] == s[a'] && r[b] == s[b'];
      }
    }
  }
}
