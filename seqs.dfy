/** Sequence helpers shared by the scripts' list handling: order-preserving
    de-duplication (first occurrence wins) and counting. */
module Seqs {

  predicate NoDuplicates<T(==)>(s: seq<T>) {
    forall i, j :: 0 <= i < j < |s| ==> s[i] != s[j]
  }

  /** The index of the first occurrence of `x` in `s`. */
  function FirstIndex<T(==)>(s: seq<T>, x: T): (i: nat)
    requires x in s
    ensures i < |s| && s[i] == x && x !in s[..i]
  {
    if s[0] == x then 0 else 1 + FirstIndex(s[1..], x)
  }

  /** The first occurrence of an entry is at or before it. */
  lemma {:induction false} FirstIndexAtMost<T>(s: seq<T>, k: nat)
    requires k < |s|
    ensures FirstIndex(s, s[k]) <= k
  {
    if k > 0 && s[0] != s[k] {
      assert s[1..][k - 1] == s[k];
      FirstIndexAtMost(s[1..], k - 1);
    }
  }

  lemma FirstIndexPrefix<T>(s: seq<T>, y: T, x: T)
    requires x in s
    ensures x in s + [y] && FirstIndex(s + [y], x) == FirstIndex(s, x)
  {
    var i := FirstIndex(s, x);
    var j := FirstIndex(s + [y], x);
    var s' := s + [y];
    assert s'[..i] == s[..i];
    assert s'[i] == x;
    assert forall k :: 0 <= k < i ==> s'[k] == s[..i][k];
  }

  /** The elements of `s` in order of first appearance, each once. */
  function KeepFirst<T(==)>(s: seq<T>): (r: seq<T>)
    ensures NoDuplicates(r)
    ensures forall i :: 0 <= i < |s| ==> s[i] in r
    ensures forall k :: 0 <= k < |r| ==> r[k] in s
    ensures |r| <= |s|
  {
    if |s| == 0 then []
    else
      var p := KeepFirst(s[..|s| - 1]);
      if s[|s| - 1] in p then p else p + [s[|s| - 1]]
  }

  /** The kept elements appear in the order of their first occurrences. */
  lemma {:induction false} KeepFirstOrder<T>(s: seq<T>)
    ensures forall k, l :: 0 <= k < l < |KeepFirst(s)| ==>
      FirstIndex(s, KeepFirst(s)[k]) < FirstIndex(s, KeepFirst(s)[l])
  {
    if |s| > 0 {
      var init, y := s[..|s| - 1], s[|s| - 1];
      assert s == init + [y];
      KeepFirstOrder(init);
      var p := KeepFirst(init);
      forall x | x in p ensures FirstIndex(s, x) == FirstIndex(init, x) {
        FirstIndexPrefix(init, y, x);
      }
      if y !in p {
        assert y !in init;
        assert FirstIndex(s, y) == |init|;
      }
    }
  }

  /** Kept elements whose first occurrences come in some order are kept in
      that order. */
  lemma KeptInOrder<T>(s: seq<T>, a: nat, b: nat)
    requires a < |KeepFirst(s)| && b < |KeepFirst(s)|
    requires FirstIndex(s, KeepFirst(s)[a]) < FirstIndex(s, KeepFirst(s)[b])
    ensures a < b
  {
    KeepFirstOrder(s);
  }

  /** How many times `x` occurs in `s`. */
  function Count<T(==)>(s: seq<T>, x: T): (n: nat)
    ensures n <= |s|
    ensures n > 0 <==> x in s
  {
    if |s| == 0 then 0
    else Count(s[..|s| - 1], x) + (if s[|s| - 1] == x then 1 else 0)
  }

  /** An element of a non-empty sequence is in all but its last element,
      or is the last one. */
  lemma InInitOrLast<T>(s: seq<T>, x: T)
    requires |s| > 0 && x in s
    ensures x in s[..|s| - 1] || x == s[|s| - 1]
  {
    var i :| 0 <= i < |s| && s[i] == x;
    if i < |s| - 1 {
      assert s[..|s| - 1][i] == x;
    }
  }

  lemma CountSnoc<T>(s: seq<T>, x: T, y: T)
    ensures Count(s + [x], y) == Count(s, y) + (if x == y then 1 else 0)
  {
    assert (s + [x])[..|s|] == s;
  }

  /** The count over one more element of `s`. */
  lemma CountPrefixStep<T>(s: seq<T>, i: nat, y: T)
    requires i < |s|
    ensures Count(s[..i + 1], y) == Count(s[..i], y) + (if s[i] == y then 1 else 0)
  {
    assert s[..i + 1][..i] == s[..i];
  }

  lemma KeepFirstSnoc<T>(s: seq<T>, x: T)
    ensures KeepFirst(s + [x]) == if x in KeepFirst(s) then KeepFirst(s) else KeepFirst(s) + [x]
  {
    assert (s + [x])[..|s|] == s;
  }

  lemma {:induction false} CountAppend<T>(s: seq<T>, t: seq<T>, x: T)
    ensures Count(s + t, x) == Count(s, x) + Count(t, x)
    decreases |t|
  {
    if |t| > 0 {
      CountAppend(s, t[..|t| - 1], x);
      assert (s + t)[..|s + t| - 1] == s + t[..|t| - 1];
      assert (s + t)[|s + t| - 1] == t[|t| - 1];
    } else {
      assert s + t == s;
    }
  }

  /** The occurrences in `s` of each key, added up. */
  function CountsOf<T(==)>(keys: seq<T>, s: seq<T>): nat {
    if |keys| == 0 then 0 else CountsOf(keys[..|keys| - 1], s) + Count(s, keys[|keys| - 1])
  }

  /** One more element adds one occurrence for each key equal to it. */
  /** Nothing counted, nothing found. */
  lemma {:induction false} CountsOfNothing<T>(keys: seq<T>)
    ensures CountsOf(keys, []) == 0
  {
    if |keys| > 0 {
      CountsOfNothing(keys[..|keys| - 1]);
    }
  }

  lemma {:induction false} CountsOfSnoc<T>(keys: seq<T>, s: seq<T>, x: T)
    ensures CountsOf(keys, s + [x]) == CountsOf(keys, s) + Count(keys, x)
  {
    if |keys| > 0 {
      CountsOfSnoc(keys[..|keys| - 1], s, x);
      assert (s + [x])[..|s + [x]| - 1] == s;
    }
  }

  /** The number of occurrences of a key that occurs once in a list without duplicates. */
  lemma {:induction false} CountOnce<T>(keys: seq<T>, x: T)
    requires NoDuplicates(keys)
    ensures Count(keys, x) == if x in keys then 1 else 0
  {
    if |keys| > 0 {
      var init := keys[..|keys| - 1];
      CountOnce(init, x);
      if keys[|keys| - 1] == x {
        assert x !in init by {
          forall k | 0 <= k < |init| ensures init[k] != x {
            assert keys[k] == init[k];
          }
        }
      } else if x in keys {
        var k :| 0 <= k < |keys| && keys[k] == x;
        assert init[k] == x;
      }
    }
  }

  /** Tallying each distinct element counts every element exactly once: the
      per-key totals add up to the length of the list. */
  lemma {:induction false} CountsOfKeepFirst<T>(s: seq<T>)
    ensures CountsOf(KeepFirst(s), s) == |s|
  {
    if |s| > 0 {
      var init, x := s[..|s| - 1], s[|s| - 1];
      assert s == init + [x];
      CountsOfKeepFirst(init);
      var keys := KeepFirst(init);
      CountsOfSnoc(keys, init, x);
      CountOnce(keys, x);
      if x !in keys {
        assert x !in init;
        assert Count(init, x) == 0;
        CountAppend(init, [x], x);
        assert Count([x], x) == 1 by { assert [x][..0] == []; }
        assert KeepFirst(s) == keys + [x];
        assert (keys + [x])[..|keys|] == keys;
      }
    }
  }

  /** A list without duplicates has as many distinct elements as entries. */
  lemma {:induction false} DistinctElements<T>(s: seq<T>)
    requires NoDuplicates(s)
    ensures |set x | x in s| == |s|
  {
    if |s| > 0 {
      var init, y := s[..|s| - 1], s[|s| - 1];
      DistinctElements(init);
      assert y !in init by {
        forall k | 0 <= k < |init| ensures init[k] != y {
          assert s[k] == init[k];
        }
      }
      assert (set x | x in s) == (set x | x in init) + {y} by {
        assert s == init + [y];
      }
    }
  }
}
