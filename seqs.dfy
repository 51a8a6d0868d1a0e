/** Order-preservation for the many `Array.prototype.filter` calls of the source. */
module Seqs {

  /** `a` is what is left of `b` after deleting some elements (order kept).
      Decided greedily from the back, which is exact for subsequences. */
  predicate SubsequenceOf<T(==)>(a: seq<T>, b: seq<T>)
    decreases |b|
  {
    if a == [] then true
    else if b == [] then false
    else if a[|a| - 1] == b[|b| - 1] then SubsequenceOf(a[..|a| - 1], b[..|b| - 1])
    else SubsequenceOf(a, b[..|b| - 1])
  }

  /** `s.map(x => x.id)`: the identifiers of `s`, position by position. */
  function Ids<T>(s: seq<T>, id: T -> string): (ids: seq<string>)
    ensures |ids| == |s| && forall i :: 0 <= i < |s| ==> ids[i] == id(s[i])
  {
    if s == [] then [] else Ids(s[..|s| - 1], id) + [id(s[|s| - 1])]
  }

  /** Keeping the next element of `b` keeps the subsequence relation. */
  lemma SubsequenceSnoc<T>(a: seq<T>, b: seq<T>, x: T)
    requires SubsequenceOf(a, b)
    ensures SubsequenceOf(a + [x], b + [x])
  {
    assert (a + [x])[..|a|] == a;
    assert (b + [x])[..|b|] == b;
  }

  /** Dropping the last kept element keeps the subsequence relation. */
  lemma {:induction false} SubsequenceDropLast<T>(a: seq<T>, b: seq<T>)
    requires a != [] && SubsequenceOf(a, b)
    ensures SubsequenceOf(a[..|a| - 1], b)
    decreases |b|, 0
  {
    var b', y := b[..|b| - 1], b[|b| - 1];
    assert b' + [y] == b;
    if a[|a| - 1] != y {
      SubsequenceDropLast(a, b');
    }
    SubsequenceExtend(a[..|a| - 1], b', y);
  }

  /** Skipping the next element of `b` keeps the subsequence relation. */
  lemma {:induction false} SubsequenceExtend<T>(a: seq<T>, b: seq<T>, x: T)
    requires SubsequenceOf(a, b)
    ensures SubsequenceOf(a, b + [x])
    decreases |b|, 1
  {
    assert (b + [x])[..|b|] == b;
    if a != [] && a[|a| - 1] == x {
      SubsequenceDropLast(a, b);
    }
  }

  /** Every element of a subsequence comes from the sequence. */
  lemma {:induction false} SubsequenceMembers<T>(a: seq<T>, b: seq<T>)
    requires SubsequenceOf(a, b)
    ensures forall x :: x in a ==> x in b
    decreases |b|
  {
    if a != [] {
      var b' := b[..|b| - 1];
      if a[|a| - 1] == b[|b| - 1] {
        SubsequenceMembers(a[..|a| - 1], b');
        assert a == a[..|a| - 1] + [a[|a| - 1]];
      } else {
        SubsequenceMembers(a, b');
      }
    }
  }

  /** `s.filter(p)` for a named predicate `p`: the elements satisfying `p`. */
  function Filter<T(!new)>(s: seq<T>, p: T -> bool): (r: seq<T>)
    ensures |r| <= |s|
  {
    if s == [] then [] else Filter(s[..|s| - 1], p) + (if p(s[|s| - 1]) then [s[|s| - 1]] else [])
  }

  /** The filter keeps exactly the elements satisfying `p`. */
  lemma {:induction false} FilterMembers<T(!new)>(s: seq<T>, p: T -> bool)
    ensures forall x :: x in Filter(s, p) <==> x in s && p(x)
  {
    if s != [] {
      var s', last := s[..|s| - 1], s[|s| - 1];
      assert s == s' + [last];
      FilterMembers(s', p);
    }
  }

  /** The filter keeps the order of the elements it keeps. */
  lemma {:induction false} FilterSubsequence<T(!new)>(s: seq<T>, p: T -> bool)
    ensures SubsequenceOf(Filter(s, p), s)
  {
    if s != [] {
      var s', last := s[..|s| - 1], s[|s| - 1];
      assert s == s' + [last];
      FilterSubsequence(s', p);
      if p(last) {
        assert Filter(s, p) == Filter(s', p) + [last];
        SubsequenceSnoc(Filter(s', p), s', last);
      } else {
        assert Filter(s, p) == Filter(s', p);
        SubsequenceExtend(Filter(s', p), s', last);
      }
    }
  }

  /** Filtering one more element. */
  lemma FilterSnoc<T(!new)>(s: seq<T>, x: T, p: T -> bool)
    ensures Filter(s + [x], p) == Filter(s, p) + (if p(x) then [x] else [])
  {
    assert (s + [x])[..|s|] == s;
  }

  /** No two elements of `s` share a key. */
  predicate UniqueBy<T, K(==)>(s: seq<T>, key: T -> K) {
    forall i, j :: 0 <= i < j < |s| ==> key(s[i]) != key(s[j])
  }

  /** Deleting elements keeps keys unique. */
  lemma {:induction false} UniqueBySubsequence<T, K>(a: seq<T>, b: seq<T>, key: T -> K)
    requires SubsequenceOf(a, b) && UniqueBy(b, key)
    ensures UniqueBy(a, key)
    decreases |b|
  {
    if a != [] {
      var b' := b[..|b| - 1];
      assert UniqueBy(b', key);
      if a[|a| - 1] == b[|b| - 1] {
        var a' := a[..|a| - 1];
        UniqueBySubsequence(a', b', key);
        SubsequenceMembers(a', b');
        forall i, j | 0 <= i < j < |a| ensures key(a[i]) != key(a[j]) {
          if j == |a| - 1 {
            assert a[i] in b';
            var k :| 0 <= k < |b'| && b'[k] == a[i];
            assert b[k] == a[i];
          } else {
            assert a[i] == a'[i] && a[j] == a'[j];
          }
        }
      } else {
        UniqueBySubsequence(a, b', key);
      }
    }
  }

  /** Filtering keeps keys unique. */
  lemma FilterUniqueBy<T(!new), K>(s: seq<T>, p: T -> bool, key: T -> K)
    requires UniqueBy(s, key)
    ensures UniqueBy(Filter(s, p), key)
  {
    FilterSubsequence(s, p);
    UniqueBySubsequence(Filter(s, p), s, key);
  }

  /** Appending an element whose key is new keeps keys unique. */
  lemma UniqueBySnoc<T, K>(s: seq<T>, x: T, key: T -> K)
    requires UniqueBy(s, key)
    requires forall i :: 0 <= i < |s| ==> key(s[i]) != key(x)
    ensures UniqueBy(s + [x], key)
  {
  }

  /** A prefix of a subsequence is a subsequence. */
  lemma {:induction false} SubsequencePrefix<T>(a: seq<T>, b: seq<T>, k: nat)
    requires k <= |a| && SubsequenceOf(a, b)
    ensures SubsequenceOf(a[..k], b)
    decreases |a| - k
  {
    if k < |a| {
      var a' := a[..|a| - 1];
      SubsequenceDropLast(a, b);
      SubsequencePrefix(a', b, k);
      assert a'[..k] == a[..k];
    } else {
      assert a[..k] == a;
    }
  }

  /** Filtering distributes over concatenation. */
  lemma {:induction false} FilterAppend<T(!new)>(a: seq<T>, b: seq<T>, p: T -> bool)
    ensures Filter(a + b, p) == Filter(a, p) + Filter(b, p)
    decreases |b|
  {
    if b == [] {
      assert a + b == a;
      assert Filter(a, p) + [] == Filter(a, p);
    } else {
      var b', y := b[..|b| - 1], b[|b| - 1];
      var last := if p(y) then [y] else [];
      assert b == b' + [y];
      assert a + b == (a + b') + [y];
      FilterAppend(a, b', p);
      FilterSnoc(a + b', y, p);
      FilterSnoc(b', y, p);
      assert Filter(a, p) + Filter(b', p) + last == Filter(a, p) + (Filter(b', p) + last);
    }
  }

  /** A filter that keeps nothing gives the empty sequence. */
  lemma {:induction false} FilterNone<T(!new)>(s: seq<T>, p: T -> bool)
    requires forall x :: x in s ==> !p(x)
    ensures Filter(s, p) == []
  {
    if s != [] {
      var s', last := s[..|s| - 1], s[|s| - 1];
      assert !p(last);
      assert forall x :: x in s' ==> x in s;
      FilterNone(s', p);
    }
  }

  /** Elements with pairwise different keys, every key drawn from `b`: there are
      no more of them than `b` has entries. */
  lemma {:induction false} UniqueKeysBound<T, K>(a: seq<T>, key: T -> K, b: seq<K>)
    requires UniqueBy(a, key)
    requires forall i :: 0 <= i < |a| ==> key(a[i]) in b
    ensures |a| <= |b|
    decreases |a|
  {
    if a != [] {
      var a' := a[..|a| - 1];
      var x := key(a[|a| - 1]);
      var k :| 0 <= k < |b| && b[k] == x;
      var b' := b[..k] + b[k + 1..];
      forall i | 0 <= i < |a'| ensures key(a'[i]) in b' {
        var y := key(a'[i]);
        assert y == key(a[i]) && y != x;
        var m :| 0 <= m < |b| && b[m] == y;
        if m < k {
          assert b'[m] == y;
        } else {
          assert b'[m - 1] == y;
        }
      }
      UniqueKeysBound(a', key, b');
    }
  }

  /** Filtering twice is filtering once by both tests. */
  lemma {:induction false} FilterConj<T(!new)>(s: seq<T>, p: T -> bool, q: T -> bool, pq: T -> bool)
    requires forall x :: pq(x) == (p(x) && q(x))
    ensures Filter(Filter(s, p), q) == Filter(s, pq)
  {
    if s != [] {
      var s', last := s[..|s| - 1], s[|s| - 1];
      assert s == s' + [last];
      FilterConj(s', p, q, pq);
      var kept := if p(last) then [last] else [];
      FilterAppend(Filter(s', p), kept, q);
      if p(last) {
        FilterSnoc([], last, q);
        assert Filter(kept, q) == Filter([] + [last], q);
      }
    }
  }

  /** Tests that agree on the elements of `s` filter it alike. */
  lemma {:induction false} FilterCongruence<T(!new)>(s: seq<T>, p: T -> bool, q: T -> bool)
    requires forall x :: x in s ==> p(x) == q(x)
    ensures Filter(s, p) == Filter(s, q)
  {
    if s != [] {
      var s', last := s[..|s| - 1], s[|s| - 1];
      assert forall x :: x in s' ==> x in s;
      FilterCongruence(s', p, q);
    }
  }

  /** A filter that every element passes keeps the whole sequence. */
  lemma {:induction false} FilterAll<T(!new)>(s: seq<T>, p: T -> bool)
    requires forall x :: x in s ==> p(x)
    ensures Filter(s, p) == s
  {
    if s != [] {
      var s', last := s[..|s| - 1], s[|s| - 1];
      assert s == s' + [last];
      assert p(last);
      assert forall x :: x in s' ==> x in s;
      FilterAll(s', p);
    }
  }
}
