/** Order-preserving sequence operations shared by the token filters: filtering,
    subsequences, duplicate-freedom, first-occurrence selection and counting. */
module Seqs {

  /** The elements of `s` that satisfy `p`, in their original order
      (a Python list comprehension with an `if`). */
  function Filter<T(==)>(s: seq<T>, p: T -> bool): (r: seq<T>)
    ensures |r| <= |s|
    ensures forall i :: 0 <= i < |r| ==> r[i] in s && p(r[i])
    ensures forall i :: 0 <= i < |s| && p(s[i]) ==> s[i] in r
  {
    if |s| == 0 then []
    else (if p(s[0]) then [s[0]] else []) + Filter(s[1..], p)
  }

  /** Filtering keeps every occurrence of a value that satisfies `p` and no
      occurrence of one that does not. */
  lemma {:induction false} FilterCount<T>(s: seq<T>, p: T -> bool)
    ensures forall x :: multiset(Filter(s, p))[x] == if p(x) then multiset(s)[x] else 0
  {
    if |s| > 0 {
      FilterCount(s[1..], p);
      assert s == [s[0]] + s[1..];
      assert multiset(s) == multiset([s[0]]) + multiset(s[1..]);
      var head := if p(s[0]) then [s[0]] else [];
      assert multiset(Filter(s, p)) == multiset(head) + multiset(Filter(s[1..], p));
    }
  }

  /** Filtering distributes over concatenation. */
  lemma {:induction false} FilterAppend<T>(a: seq<T>, b: seq<T>, p: T -> bool)
    ensures Filter(a + b, p) == Filter(a, p) + Filter(b, p)
  {
    if |a| == 0 {
      assert a + b == b;
    } else {
      assert (a + b)[1..] == a[1..] + b;
      FilterAppend(a[1..], b, p);
    }
  }

  /** `[f(x) for x in s]`. */
  function Map<A, B>(s: seq<A>, f: A -> B): (r: seq<B>)
    ensures |r| == |s| && forall i :: 0 <= i < |s| ==> r[i] == f(s[i])
  {
    seq(|s|, i requires 0 <= i < |s| => f(s[i]))
  }

  /** Filtering by a property of the image, then mapping, is mapping, then
      filtering the images. */
  lemma {:induction false} FilterMapped<A, B>(s: seq<A>, f: A -> B, q: A -> bool, p: B -> bool)
    requires forall x :: q(x) == p(f(x))
    ensures Map(Filter(s, q), f) == Filter(Map(s, f), p)
  {
    if |s| > 0 {
      var m := Map(s, f);
      assert m[0] == f(s[0]);
      assert m[1..] == Map(s[1..], f);
      FilterMapped(s[1..], f, q, p);
      if q(s[0]) {
        MapCons(s[0], Filter(s[1..], q), f);
      }
    }
  }

  lemma MapCons<A, B>(a: A, t: seq<A>, f: A -> B)
    ensures Map([a] + t, f) == [f(a)] + Map(t, f)
  {
    var l, r := Map([a] + t, f), [f(a)] + Map(t, f);
    forall i | 0 <= i < |l| ensures l[i] == r[i] {
      if i > 0 {
        assert ([a] + t)[i] == t[i - 1];
      }
    }
  }

  /** Filtering a sequence none of whose elements qualify gives nothing. */
  lemma FilterNone<T>(s: seq<T>, p: T -> bool)
    requires forall x :: x in s ==> !p(x)
    ensures Filter(s, p) == []
  {
  }

  /** Filtering a sequence all of whose elements qualify changes nothing. */
  lemma {:induction false} FilterAll<T>(s: seq<T>, p: T -> bool)
    requires forall x :: x in s ==> p(x)
    ensures Filter(s, p) == s
  {
    if |s| > 0 {
      assert s[0] in s;
      FilterAll(s[1..], p);
    }
  }

  /** `a` can be obtained from `b` by deleting elements, without reordering. */
  predicate IsSubseq<T(==)>(a: seq<T>, b: seq<T>)
    decreases |b|
  {
    if |a| == 0 then true
    else if |b| == 0 then false
    else if a[0] == b[0] then IsSubseq(a[1..], b[1..])
    else IsSubseq(a, b[1..])
  }

  /** A filter keeps an order-preserving selection of its input. */
  lemma {:induction false} FilterIsSubseq<T>(s: seq<T>, p: T -> bool)
    ensures IsSubseq(Filter(s, p), s)
  {
    if |s| > 0 {
      FilterIsSubseq(s[1..], p);
      var rest := Filter(s[1..], p);
      if p(s[0]) {
        assert Filter(s, p) == [s[0]] + rest;
        assert ([s[0]] + rest)[1..] == rest;
      } else {
        assert Filter(s, p) == rest;
        if |rest| > 0 {
          assert rest[0] in s[1..] && p(rest[0]);
          assert rest[0] != s[0];
        }
      }
    }
  }

  /** `r` is the selection of `s` by `p`: the elements of `s` that satisfy
      `p`, each as often as it occurs in `s`, in their order in `s`. */
  ghost predicate Selects<T(!new)>(r: seq<T>, s: seq<T>, p: T -> bool) {
    IsSubseq(r, s) && forall x :: multiset(r)[x] == if p(x) then multiset(s)[x] else 0
  }

  /** A filter is the selection by its predicate. */
  lemma FilterSelects<T(!new)>(s: seq<T>, p: T -> bool)
    ensures Selects(Filter(s, p), s, p)
  {
    FilterIsSubseq(s, p);
    FilterCount(s, p);
  }

  /** A subsequence holds no element more often than the sequence does. */
  lemma {:induction false} SubseqMultiset<T>(a: seq<T>, b: seq<T>)
    requires IsSubseq(a, b)
    ensures multiset(a) <= multiset(b)
    decreases |b|
  {
    if |a| > 0 {
      assert b == [b[0]] + b[1..];
      if a[0] == b[0] {
        SubseqMultiset(a[1..], b[1..]);
        assert a == [a[0]] + a[1..];
      } else {
        SubseqMultiset(a, b[1..]);
      }
    }
  }

  /** A subsequence is no longer than the sequence. */
  lemma {:induction false} SubseqShorter<T>(a: seq<T>, b: seq<T>)
    requires IsSubseq(a, b)
    ensures |a| <= |b|
    decreases |b|
  {
    if |a| > 0 {
      if a[0] == b[0] {
        SubseqShorter(a[1..], b[1..]);
      } else {
        SubseqShorter(a, b[1..]);
      }
    }
  }

  /** The selection by `p` is unique, and it is what `Filter` computes. */
  lemma {:induction false} SelectsUnique<T(!new)>(r: seq<T>, s: seq<T>, p: T -> bool)
    requires Selects(r, s, p)
    ensures r == Filter(s, p)
    decreases |s|
  {
    if |s| == 0 {
      assert |r| == 0;
    } else {
      var x := s[0];
      assert s == [x] + s[1..];
      assert multiset(s) == multiset([x]) + multiset(s[1..]);
      if p(x) {
        assert multiset(r)[x] > 0;
        assert |r| > 0;
        if r[0] != x {
          SubseqMultiset(r, s[1..]);
          assert false;
        }
        assert r == [x] + r[1..];
        assert multiset(r) == multiset([x]) + multiset(r[1..]);
        SelectsUnique(r[1..], s[1..], p);
      } else {
        assert x !in multiset(r);
        assert IsSubseq(r, s[1..]) by {
          if |r| > 0 {
            assert r[0] in multiset(r);
          }
        }
        SelectsUnique(r, s[1..], p);
      }
    }
  }

  /** No element occurs twice. */
  predicate Distinct<T(==)>(s: seq<T>) {
    forall i, j :: 0 <= i < j < |s| ==> s[i] != s[j]
  }

  /** Dropping the last element keeps a sequence distinct, and the last
      element occurs nowhere before. */
  lemma DistinctInit<T>(s: seq<T>)
    requires Distinct(s) && |s| > 0
    ensures Distinct(s[..|s| - 1]) && s[|s| - 1] !in s[..|s| - 1]
  {
    var init := s[..|s| - 1];
    forall k | 0 <= k < |init| ensures init[k] != s[|s| - 1] {
      assert s[k] != s[|s| - 1];
    }
  }

  /** The keys of the elements of `s`. */
  function KeysOf<T, K>(s: seq<T>, key: T -> K): set<K> {
    set i | 0 <= i < |s| :: key(s[i])
  }

  /** The key of any element is among the keys. */
  lemma KeysOfAt<T, K>(s: seq<T>, key: T -> K, p: nat)
    requires p < |s|
    ensures key(s[p]) in KeysOf(s, key)
  {
  }

  /** Every key is the key of some element. */
  lemma KeysOfIndex<T, K>(s: seq<T>, key: T -> K, x: K) returns (p: nat)
    requires x in KeysOf(s, key)
    ensures p < |s| && key(s[p]) == x
  {
    var q :| 0 <= q < |s| && key(s[q]) == x;
    p := q;
  }

  /** No two elements of `s` share a key. */
  predicate DistinctKeys<T, K(==)>(s: seq<T>, key: T -> K) {
    forall i, j :: 0 <= i < j < |s| ==> key(s[i]) != key(s[j])
  }

  /** `s[i]` is the first element of `s` with its key. */
  predicate IsFirstByKey<T, K(==)>(s: seq<T>, key: T -> K, i: int)
    requires 0 <= i < |s|
  {
    forall j :: 0 <= j < i ==> key(s[j]) != key(s[i])
  }

  /** The first element of `s` for every key, in input order: a single pass
      that remembers the keys already seen (a "seen" set). */
  function KeepFirstBy<T, K(==)>(s: seq<T>, key: T -> K): seq<T>
  {
    if |s| == 0 then []
    else
      var front := s[..|s| - 1];
      KeepFirstBy(front, key)
        + (if key(s[|s| - 1]) in KeysOf(front, key) then [] else [s[|s| - 1]])
  }

  /** What the first-occurrence pass keeps: one element per key, every key of
      the input, each kept element the first with its key, in input order. */
  lemma KeepFirstByProperties<T, K>(s: seq<T>, key: T -> K)
    ensures var r := KeepFirstBy(s, key);
      && IsSubseq(r, s)
      && DistinctKeys(r, key)
      && KeysOf(r, key) == KeysOf(s, key)
      && forall k :: 0 <= k < |r| ==>
           exists i :: 0 <= i < |s| && s[i] == r[k] && IsFirstByKey(s, key, i)
  {
    KeepFirstBySubseq(s, key);
    KeepFirstByKeys(s, key);
    KeepFirstByFirst(s, key);
  }

  lemma {:induction false} KeepFirstBySubseq<T, K>(s: seq<T>, key: T -> K)
    ensures IsSubseq(KeepFirstBy(s, key), s)
  {
    if |s| > 0 {
      var front, last := s[..|s| - 1], s[|s| - 1];
      KeepFirstBySubseq(front, key);
      var rf := KeepFirstBy(front, key);
      assert s == front + [last];
      SubseqAppend(rf, front, last);
      if key(last) in KeysOf(front, key) {
        assert KeepFirstBy(s, key) == rf;
      } else {
        assert KeepFirstBy(s, key) == rf + [last];
      }
    }
  }

  lemma {:induction false} KeepFirstByKeys<T, K>(s: seq<T>, key: T -> K)
    ensures DistinctKeys(KeepFirstBy(s, key), key)
    ensures KeysOf(KeepFirstBy(s, key), key) == KeysOf(s, key)
  {
    if |s| > 0 {
      var front, last := s[..|s| - 1], s[|s| - 1];
      KeepFirstByKeys(front, key);
      var rf := KeepFirstBy(front, key);
      var r := KeepFirstBy(s, key);
      assert s == front + [last];
      KeysSnoc(front, last, key);
      if key(last) in KeysOf(front, key) {
        assert r == rf;
      } else {
        assert r == rf + [last];
        forall i, j | 0 <= i < j < |r| ensures key(r[i]) != key(r[j]) {
          assert r[i] == rf[i];
          if j == |r| - 1 {
            KeysOfAt(rf, key, i);
          } else {
            assert r[j] == rf[j];
          }
        }
        KeysSnoc(rf, last, key);
      }
    }
  }

  /** `x` occurs in `s` as the first element with its key. */
  predicate OccursFirstByKey<T(==), K(==)>(s: seq<T>, key: T -> K, x: T) {
    exists i :: 0 <= i < |s| && s[i] == x && IsFirstByKey(s, key, i)
  }

  /** Every element of `r` is, in `s`, the first element with its key. */
  predicate AllFirstByKey<T(==), K(==)>(r: seq<T>, s: seq<T>, key: T -> K) {
    forall k :: 0 <= k < |r| ==> OccursFirstByKey(s, key, r[k])
  }

  lemma {:induction false} KeepFirstByFirst<T, K>(s: seq<T>, key: T -> K)
    ensures AllFirstByKey(KeepFirstBy(s, key), s, key)
  {
    if |s| == 0 {
      assert KeepFirstBy(s, key) == [];
    } else {
      var front, last := s[..|s| - 1], s[|s| - 1];
      KeepFirstByFirst(front, key);
      var rf := KeepFirstBy(front, key);
      var r := KeepFirstBy(s, key);
      assert r == rf + (if key(last) in KeysOf(front, key) then [] else [last]);
      forall k | 0 <= k < |r| ensures OccursFirstByKey(s, key, r[k]) {
        if k < |rf| {
          assert r[k] == rf[k];
          assert OccursFirstByKey(front, key, rf[k]);
          var i :| 0 <= i < |front| && front[i] == rf[k] && IsFirstByKey(front, key, i);
          assert s[i] == front[i];
          assert IsFirstByKey(s, key, i);
        } else {
          assert r[k] == last;
          forall j | 0 <= j < |s| - 1 ensures key(s[j]) != key(last) {
            assert s[j] == front[j];
            KeysOfAt(front, key, j);
          }
          assert IsFirstByKey(s, key, |s| - 1);
        }
      }
    }
  }

  lemma KeysSnoc<T, K>(s: seq<T>, x: T, key: T -> K)
    ensures KeysOf(s + [x], key) == KeysOf(s, key) + {key(x)}
  {
    var t := s + [x];
    forall k | k in KeysOf(t, key) ensures k in KeysOf(s, key) + {key(x)} {
      var i :| 0 <= i < |t| && key(t[i]) == k;
      if i < |s| { assert t[i] == s[i]; }
    }
    forall k | k in KeysOf(s, key) + {key(x)} ensures k in KeysOf(t, key) {
      if k == key(x) {
        assert key(t[|s|]) == k;
      } else {
        var i :| 0 <= i < |s| && key(s[i]) == k;
        assert key(t[i]) == k;
      }
    }
  }

  /** Appending to the longer sequence keeps a subsequence a subsequence. */
  lemma {:induction false} SubseqAppend<T>(a: seq<T>, b: seq<T>, x: T)
    requires IsSubseq(a, b)
    ensures IsSubseq(a, b + [x]) && IsSubseq(a + [x], b + [x])
    decreases |b|
  {
    if |a| == 0 {
      assert a + [x] == [x];
      SubseqSingleton(x, b);
    } else {
      assert (b + [x])[1..] == b[1..] + [x];
      assert (a + [x])[1..] == a[1..] + [x];
      if a[0] == b[0] {
        SubseqAppend(a[1..], b[1..], x);
      } else {
        SubseqAppend(a, b[1..], x);
      }
    }
  }

  /** Appending anything to the longer sequence keeps a subsequence. */
  lemma {:induction false} SubseqAppendAll<T>(a: seq<T>, b: seq<T>, c: seq<T>)
    requires IsSubseq(a, b)
    ensures IsSubseq(a, b + c)
    decreases |c|
  {
    if |c| == 0 {
      assert b + c == b;
    } else {
      var n := |c|;
      SubseqAppendAll(a, b, c[..n - 1]);
      SubseqAppend(a, b + c[..n - 1], c[n - 1]);
      assert b + c[..n - 1] + [c[n - 1]] == b + c;
    }
  }

  lemma {:induction false} SubseqSingleton<T>(x: T, b: seq<T>)
    ensures IsSubseq([x], b + [x])
    decreases |b|
  {
    if |b| > 0 {
      assert (b + [x])[1..] == b[1..] + [x];
      if b[0] != x {
        SubseqSingleton(x, b[1..]);
      } else {
        assert [x][1..] == [];
      }
    }
  }

  /** On a sequence whose keys are already distinct, the first-occurrence pass
      is the identity; in particular the pass is idempotent. */
  lemma {:induction false} KeepFirstByDistinct<T, K>(s: seq<T>, key: T -> K)
    requires DistinctKeys(s, key)
    ensures KeepFirstBy(s, key) == s
  {
    if |s| > 0 {
      var front := s[..|s| - 1];
      assert DistinctKeys(front, key);
      KeepFirstByDistinct(front, key);
      assert s == front + [s[|s| - 1]];
    }
  }

  /** The number of occurrences of `x` in `s`. */
  function Count<T(==)>(s: seq<T>, x: T): (n: nat)
    ensures n == multiset(s)[x]
  {
    if |s| == 0 then 0
    else
      assert s == [s[0]] + s[1..];
      (if s[0] == x then 1 else 0) + Count(s[1..], x)
  }

  /** The set of elements of `s`. */
  function Elems<T>(s: seq<T>): set<T> {
    set i | 0 <= i < |s| :: s[i]
  }

  /** A sequence has at least as many positions as distinct elements, and
      exactly as many when no element repeats. */
  lemma {:induction false} ElemsCard<T>(s: seq<T>)
    ensures |Elems(s)| <= |s|
    ensures Distinct(s) ==> |Elems(s)| == |s|
  {
    if |s| > 0 {
      var front := s[..|s| - 1];
      var x := s[|s| - 1];
      ElemsCard(front);
      assert Elems(s) == Elems(front) + {x} by {
        forall y | y in Elems(s) ensures y in Elems(front) + {x} {
          var i :| 0 <= i < |s| && s[i] == y;
          if i < |s| - 1 { assert front[i] == y; }
        }
        forall y | y in Elems(front) ensures y in Elems(s) {
          var i :| 0 <= i < |front| && front[i] == y;
          assert s[i] == y;
        }
      }
      if Distinct(s) {
        assert Distinct(front);
      }
    }
  }

  /** Putting elements in front of the longer sequence keeps a subsequence. */
  lemma {:induction false} SubseqPrepend<T>(a: seq<T>, c: seq<T>, b: seq<T>)
    requires IsSubseq(a, b)
    ensures IsSubseq(a, c + b)
    decreases |c|
  {
    if |c| > 0 {
      SubseqPrepend(a, c[1..], b);
      SubseqPrependOne(a, c[0], c[1..] + b);
      assert [c[0]] + (c[1..] + b) == c + b;
    } else {
      assert c + b == b;
    }
  }

  lemma {:induction false} SubseqPrependOne<T>(a: seq<T>, x: T, b: seq<T>)
    requires IsSubseq(a, b)
    ensures IsSubseq(a, [x] + b)
    decreases |b|, 1
  {
    assert ([x] + b)[1..] == b;
    if |a| > 0 && a[0] == x {
      SubseqDropHead(a, b);
    }
  }

  /** Dropping the first element of a subsequence keeps a subsequence. */
  lemma {:induction false} SubseqDropHead<T>(a: seq<T>, b: seq<T>)
    requires |a| > 0 && IsSubseq(a, b)
    ensures IsSubseq(a[1..], b)
    decreases |b|, 0
  {
    assert [b[0]] + b[1..] == b;
    if a[0] != b[0] {
      SubseqDropHead(a, b[1..]);
    }
    SubseqPrependOne(a[1..], b[0], b[1..]);
  }
}
