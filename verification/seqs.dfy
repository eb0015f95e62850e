/** Generic facts about sequences: filtering, duplicate-freedom, first
    positions and sums. The ranking model states its order and partition
    properties with these. */
module Seqs {

  /** No element occurs twice. */
  ghost predicate NoDup<T>(s: seq<T>) {
    forall i, j :: 0 <= i < j < |s| ==> s[i] != s[j]
  }

  /** The set of elements of `s`. */
  ghost function Elements<T>(s: seq<T>): set<T> {
    set x | x in s
  }

  /** Position of the first occurrence of `x` in `s`. */
  function FirstIndex<T(==)>(s: seq<T>, x: T): (k: nat)
    requires x in s
    ensures k < |s| && s[k] == x
    ensures forall i :: 0 <= i < k ==> s[i] != x
  {
    if s[0] == x then 0 else 1 + FirstIndex(s[1..], x)
  }

  /** The elements of `s` that satisfy `p`, in their order in `s`. */
  function Filter<T>(s: seq<T>, p: T -> bool): (r: seq<T>)
    ensures |r| <= |s|
  {
    if |s| == 0 then [] else (if p(s[0]) then [s[0]] else []) + Filter(s[1..], p)
  }

  lemma AppendAssociates<T>(a: seq<T>, b: seq<T>, c: seq<T>)
    ensures (a + b) + c == a + (b + c)
  {
  }

  /** `a` is an initial segment of `b`. */
  ghost predicate IsPrefix<T>(a: seq<T>, b: seq<T>) {
    |a| <= |b| && b[..|a|] == a
  }

  lemma PrefixOfAppend<T>(a: seq<T>, x: seq<T>)
    ensures IsPrefix(a, a + x)
  {
    assert (a + x)[..|a|] == a;
  }

  lemma PrefixTransitive<T>(a: seq<T>, b: seq<T>, c: seq<T>)
    requires IsPrefix(a, b) && IsPrefix(b, c)
    ensures IsPrefix(a, c)
  {
    assert c[..|a|] == c[..|b|][..|a|];
  }

  /** `x` survives the filter exactly when it is in `s` and satisfies `p`. */
  lemma {:induction false} FilterMembership<T>(s: seq<T>, p: T -> bool, x: T)
    ensures x in Filter(s, p) <==> x in s && p(x)
  {
    if |s| > 0 {
      FilterMembership(s[1..], p, x);
      assert s == [s[0]] + s[1..];
    }
  }

  /** Sum of `f` over the elements of `s`. */
  function SumOf<T>(s: seq<T>, f: T -> nat): nat {
    if |s| == 0 then 0 else f(s[0]) + SumOf(s[1..], f)
  }

  lemma FirstIndexOfNoDup<T>(s: seq<T>, k: nat)
    requires NoDup(s) && k < |s|
    ensures FirstIndex(s, s[k]) == k
  {
  }

  /** Appending never moves the first occurrence of an element already present. */
  lemma {:induction false} FirstIndexExtend<T>(s: seq<T>, t: seq<T>, x: T)
    requires x in s
    ensures x in s + t && FirstIndex(s + t, x) == FirstIndex(s, x)
  {
    assert (s + t)[0] == s[0];
    if s[0] != x {
      assert (s + t)[1..] == s[1..] + t;
      FirstIndexExtend(s[1..], t, x);
    }
  }

  /** `ks` lists elements of `s` in the order of their first occurrence in `s`. */
  ghost predicate InFirstSeenOrder<T>(ks: seq<T>, s: seq<T>) {
    && (forall i :: 0 <= i < |ks| ==> ks[i] in s)
    && (forall i, j :: 0 <= i < j < |ks| ==> FirstIndex(s, ks[i]) < FirstIndex(s, ks[j]))
  }

  /** Extending `s` keeps a first-seen order, and a new element can join it at the end. */
  lemma FirstSeenExtend<T>(ks: seq<T>, s: seq<T>, x: T)
    requires InFirstSeenOrder(ks, s)
    ensures InFirstSeenOrder(ks, s + [x])
    ensures x !in s ==> InFirstSeenOrder(ks + [x], s + [x])
  {
    forall k | 0 <= k < |ks| ensures FirstIndex(s + [x], ks[k]) == FirstIndex(s, ks[k]) {
      FirstIndexExtend(s, [x], ks[k]);
    }
    if x !in s {
      var s' := s + [x];
      var ks' := ks + [x];
      assert FirstIndex(s', x) == |s|;
      forall i, j | 0 <= i < j < |ks'| ensures FirstIndex(s', ks'[i]) < FirstIndex(s', ks'[j]) {
        assert ks'[i] == ks[i];
        if j < |ks| {
          assert ks'[j] == ks[j];
        }
      }
    }
  }

  /** Permutations have the same members. */
  lemma PermutationMembers<T>(a: seq<T>, b: seq<T>)
    requires multiset(a) == multiset(b)
    ensures forall i :: 0 <= i < |a| ==> a[i] in b
    ensures forall i :: 0 <= i < |b| ==> b[i] in a
  {
    forall i | 0 <= i < |a| ensures a[i] in b {
      assert a[i] in multiset(a);
    }
    forall i | 0 <= i < |b| ensures b[i] in a {
      assert b[i] in multiset(b);
    }
  }

  /** The tail of a duplicate-free sequence is duplicate-free and lacks the head. */
  lemma NoDupTail<T>(s: seq<T>)
    requires NoDup(s) && |s| > 0
    ensures NoDup(s[1..]) && s[0] !in s[1..]
  {
    assert forall i :: 0 <= i < |s| - 1 ==> s[1..][i] == s[i + 1];
  }

  lemma {:induction false} FilterAppend<T>(a: seq<T>, b: seq<T>, p: T -> bool)
    ensures Filter(a + b, p) == Filter(a, p) + Filter(b, p)
  {
    if |a| == 0 {
      assert a + b == b;
    } else {
      var h := if p(a[0]) then [a[0]] else [];
      assert (a + b)[0] == a[0];
      assert (a + b)[1..] == a[1..] + b;
      FilterAppend(a[1..], b, p);
      calc {
        Filter(a + b, p);
        h + Filter(a[1..] + b, p);
        h + (Filter(a[1..], p) + Filter(b, p));
        (h + Filter(a[1..], p)) + Filter(b, p);
        Filter(a, p) + Filter(b, p);
      }
    }
  }

  lemma {:induction false} FilterNone<T>(s: seq<T>, p: T -> bool)
    requires forall i :: 0 <= i < |s| ==> !p(s[i])
    ensures Filter(s, p) == []
  {
    if |s| > 0 {
      FilterNone(s[1..], p);
    }
  }

  lemma {:induction false} FilterAll<T>(s: seq<T>, p: T -> bool)
    requires forall i :: 0 <= i < |s| ==> p(s[i])
    ensures Filter(s, p) == s
  {
    if |s| > 0 {
      FilterAll(s[1..], p);
      assert s == [s[0]] + s[1..];
    }
  }

  /** Every element of `Filter(s, p)` satisfies `p`. */
  lemma FilterSatisfies<T>(s: seq<T>, p: T -> bool)
    ensures forall i :: 0 <= i < |Filter(s, p)| ==> p(Filter(s, p)[i])
  {
    forall i | 0 <= i < |Filter(s, p)| ensures p(Filter(s, p)[i]) {
      FilterMembership(s, p, Filter(s, p)[i]);
    }
  }

  /** Filtering by a predicate and by its negation splits `s` into two
      multisets that make up all of `s`. */
  lemma {:induction false} FilterPartition<T>(s: seq<T>, p: T -> bool, q: T -> bool)
    requires forall i :: 0 <= i < |s| ==> (q(s[i]) <==> !p(s[i]))
    ensures multiset(Filter(s, p)) + multiset(Filter(s, q)) == multiset(s)
  {
    if |s| > 0 {
      FilterPartition(s[1..], p, q);
      assert s == [s[0]] + s[1..];
    }
  }

  /** The element `s[i]` sits in `Filter(s, p)` at the number of earlier
      elements that satisfy `p`. */
  lemma {:induction false} FilterPosition<T>(s: seq<T>, p: T -> bool, i: nat)
    requires i < |s| && p(s[i])
    ensures |Filter(s[..i], p)| < |Filter(s, p)|
    ensures Filter(s, p)[|Filter(s[..i], p)|] == s[i]
  {
    assert s == s[..i] + ([s[i]] + s[i+1..]);
    FilterAppend(s[..i], [s[i]] + s[i+1..], p);
    FilterAppend([s[i]], s[i+1..], p);
    assert Filter([s[i]], p) == [s[i]] by {
      assert [s[i]][1..] == [];
    }
  }

  /** Positions in a filtered sequence grow with positions in the source. */
  lemma {:induction false} FilterPositionMonotone<T>(s: seq<T>, p: T -> bool, i: nat, j: nat)
    requires i < j <= |s| && p(s[i])
    ensures |Filter(s[..i], p)| < |Filter(s[..j], p)|
  {
    assert s[..j] == s[..i] + ([s[i]] + s[i+1..j]);
    FilterAppend(s[..i], [s[i]] + s[i+1..j], p);
    FilterAppend([s[i]], s[i+1..j], p);
    assert Filter([s[i]], p) == [s[i]] by {
      assert [s[i]][1..] == [];
    }
  }

  /** In a duplicate-free source, a filtered sequence lists its elements in
      the order of their positions in the source. */
  lemma {:induction false} FilterOrderInSource<T>(s: seq<T>, p: T -> bool, a: nat, b: nat)
    requires NoDup(s)
    requires a < b < |Filter(s, p)|
    ensures Filter(s, p)[a] in s && Filter(s, p)[b] in s
    ensures FirstIndex(s, Filter(s, p)[a]) < FirstIndex(s, Filter(s, p)[b])
  {
    var f := Filter(s, p);
    var t := s[1..];
    var g := Filter(t, p);
    NoDupTail(s);
    if p(s[0]) {
      assert f == [s[0]] + g;
      var y := g[b - 1];
      assert f[b] == y;
      FilterMembership(t, p, y);
      FirstIndexTail(s, y);
      if a == 0 {
        assert f[a] == s[0];
      } else {
        FilterOrderInSource(t, p, a - 1, b - 1);
        var x := g[a - 1];
        assert f[a] == x;
        FirstIndexTail(s, x);
      }
    } else {
      assert f == g;
      FilterOrderInSource(t, p, a, b);
      FirstIndexTail(s, g[a]);
      FirstIndexTail(s, g[b]);
    }
  }

  lemma FirstIndexTail<T>(s: seq<T>, x: T)
    requires |s| > 0 && x in s[1..] && x != s[0]
    ensures x in s && FirstIndex(s, x) == 1 + FirstIndex(s[1..], x)
  {
  }

  /** A stable filter keeps relative order: if two sequences have the same
      `p`-filter and the second is duplicate-free, two `p`-elements of the
      first appear in the same order in the second. */
  lemma {:induction false} FilterPreservesOrder<T>(r: seq<T>, s: seq<T>, p: T -> bool, i: nat, j: nat)
    requires Filter(r, p) == Filter(s, p) && NoDup(s)
    requires i < j < |r| && p(r[i]) && p(r[j])
    ensures r[i] in s && r[j] in s
    ensures FirstIndex(s, r[i]) < FirstIndex(s, r[j])
  {
    FilterPosition(r, p, i);
    FilterPosition(r, p, j);
    FilterPositionMonotone(r, p, i, j);
    FilterOrderInSource(s, p, |Filter(r[..i], p)|, |Filter(r[..j], p)|);
  }

  lemma {:induction false} NoDupMultiset<T>(s: seq<T>)
    ensures NoDup(s) <==> forall x :: multiset(s)[x] <= 1
  {
    if |s| > 0 {
      var t := s[1..];
      assert s == [s[0]] + t;
      NoDupMultiset(t);
      if NoDup(s) {
        NoDupTail(s);
      }
      if forall x :: multiset(s)[x] <= 1 {
        assert forall x :: multiset(t)[x] <= 1 by {
          forall x ensures multiset(t)[x] <= 1 {
            assert multiset(s)[x] == multiset{s[0]}[x] + multiset(t)[x];
          }
        }
        assert multiset(s)[s[0]] == 1 + multiset(t)[s[0]];
        forall i, j | 0 <= i < j < |s| ensures s[i] != s[j] {
          if i == 0 {
            assert s[j] == t[j - 1];
          } else {
            assert s[i] == t[i - 1] && s[j] == t[j - 1];
          }
        }
      }
    }
  }

  /** Duplicate-freedom survives any permutation. */
  lemma NoDupPermutation<T>(a: seq<T>, b: seq<T>)
    requires multiset(a) == multiset(b) && NoDup(a)
    ensures NoDup(b)
  {
    NoDupMultiset(a);
    NoDupMultiset(b);
  }

  /** A duplicate-free sequence has as many elements as distinct values. */
  lemma {:induction false} NoDupCardinality<T>(s: seq<T>)
    requires NoDup(s)
    ensures |Elements(s)| == |s|
  {
    if |s| > 0 {
      var t := s[1..];
      NoDupTail(s);
      NoDupCardinality(t);
      assert Elements(s) == {s[0]} + Elements(t);
    }
  }

  lemma {:induction false} SumOfAppend<T>(a: seq<T>, b: seq<T>, f: T -> nat)
    ensures SumOf(a + b, f) == SumOf(a, f) + SumOf(b, f)
  {
    if |a| == 0 {
      assert a + b == b;
    } else {
      assert (a + b)[1..] == a[1..] + b;
      SumOfAppend(a[1..], b, f);
    }
  }

  /** Sums of two functions that agree on every element are equal. */
  lemma {:induction false} SumOfAgree<T>(s: seq<T>, f: T -> nat, g: T -> nat)
    requires forall i :: 0 <= i < |s| ==> f(s[i]) == g(s[i])
    ensures SumOf(s, f) == SumOf(s, g)
  {
    if |s| > 0 {
      SumOfAgree(s[1..], f, g);
    }
  }

  /** Raising `f` by one at a single element that occurs once raises the sum by one. */
  lemma {:induction false} SumOfPointUpdate<T>(s: seq<T>, f: T -> nat, g: T -> nat, x: T)
    requires NoDup(s) && x in s
    requires g(x) == f(x) + 1
    requires forall i :: 0 <= i < |s| && s[i] != x ==> g(s[i]) == f(s[i])
    ensures SumOf(s, g) == SumOf(s, f) + 1
  {
    NoDupTail(s);
    if s[0] == x {
      SumOfAgree(s[1..], f, g);
    } else {
      SumOfPointUpdate(s[1..], f, g, x);
    }
  }

  /** The sum over one element is that element's term. */
  lemma SumOfSingleton<T>(x: T, f: T -> nat)
    ensures SumOf([x], f) == f(x)
  {
    assert [x][1..] == [];
  }

  /** Removing the element at position `k` leaves the sum short by its term. */
  lemma SumOfRemove<T>(b: seq<T>, k: nat, f: T -> nat)
    requires k < |b|
    ensures SumOf(b, f) == f(b[k]) + SumOf(b[..k] + b[k+1..], f)
  {
    var front, back := b[..k], b[k+1..];
    assert b == front + ([b[k]] + back);
    assert b[..k] + b[k+1..] == front + back;
    SumOfAppend(front, [b[k]] + back, f);
    SumOfAppend([b[k]], back, f);
    SumOfAppend(front, back, f);
    SumOfSingleton(b[k], f);
  }

  lemma MultisetRemove<T>(b: seq<T>, k: nat)
    requires k < |b|
    ensures multiset(b[..k] + b[k+1..]) == multiset(b) - multiset{b[k]}
  {
    assert b == b[..k] + ([b[k]] + b[k+1..]);
    assert multiset(b) == multiset(b[..k]) + multiset{b[k]} + multiset(b[k+1..]);
  }

  /** Taking the same element out of two permutations of each other leaves
      permutations of each other. */
  lemma RemoveMatching<T>(a: seq<T>, b: seq<T>, k: nat)
    requires multiset(a) == multiset(b) && |a| > 0
    requires k < |b| && b[k] == a[0]
    ensures multiset(a[1..]) == multiset(b[..k] + b[k+1..])
  {
    MultisetRemove(b, k);
    assert a == [a[0]] + a[1..];
    assert multiset(a) == multiset{a[0]} + multiset(a[1..]);
  }

  /** A sum does not depend on the order of its terms. */
  lemma {:induction false} SumOfPermutation<T>(a: seq<T>, b: seq<T>, f: T -> nat)
    requires multiset(a) == multiset(b)
    ensures SumOf(a, f) == SumOf(b, f)
  {
    if |a| == 0 {
      assert |b| == |multiset(b)| == 0;
    } else {
      assert a[0] in multiset(b);
      var k := FirstIndex(b, a[0]);
      var rest := b[..k] + b[k+1..];
      RemoveMatching(a, b, k);
      SumOfPermutation(a[1..], rest, f);
      SumOfRemove(b, k, f);
    }
  }
}
