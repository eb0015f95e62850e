/** The order in which `Object.entries` lists the own string-keyed
    properties of an ordinary JavaScript object: first every key that is an
    array index, in ascending numeric order, then all other keys in the
    order in which they were created (OrdinaryOwnPropertyKeys in the
    ECMAScript language specification). The contributor count is a plain
    object keyed by author name, so this order decides which of two
    equally active authors is listed first. */
module JsKeys {
  import opened Seqs

  /** The largest array index, 2^32 - 2. */
  const MaxArrayIndex: nat := 0xFFFF_FFFE

  predicate IsDigit(c: char) {
    '0' <= c <= '9'
  }

  function DigitValue(c: char): nat {
    if IsDigit(c) then c as int - '0' as int else 0
  }

  /** Value of a decimal numeral. */
  function DecimalValue(s: string): nat {
    if |s| == 0 then 0 else 10 * DecimalValue(s[..|s| - 1]) + DigitValue(s[|s| - 1])
  }

  /** A key that is the canonical decimal form of an array index: digits
      only, no leading zero, at most 2^32 - 2. */
  predicate IsArrayIndex(k: string) {
    && |k| > 0
    && (forall i :: 0 <= i < |k| ==> IsDigit(k[i]))
    && (k[0] != '0' || |k| == 1)
    && DecimalValue(k) <= MaxArrayIndex
  }

  /** Any key that is not an array index keeps its creation position. */
  predicate IsNamedKey(k: string) {
    !IsArrayIndex(k)
  }

  /** `ks` is in ascending order of `rank`. */
  ghost predicate Ascending(ks: seq<string>, rank: string -> nat) {
    forall i, j :: 0 <= i < j < |ks| ==> rank(ks[i]) <= rank(ks[j])
  }

  /** Every key of `ks` has rank at least `v`. */
  ghost predicate AtLeast(ks: seq<string>, rank: string -> nat, v: nat) {
    forall i :: 0 <= i < |ks| ==> rank(ks[i]) >= v
  }

  /** Places `k` before the first key whose rank is at least its own. */
  function InsertByRank(sorted: seq<string>, k: string, rank: string -> nat): (r: seq<string>)
    requires Ascending(sorted, rank)
    ensures Ascending(r, rank)
    ensures forall v: nat :: AtLeast(sorted, rank, v) && rank(k) >= v ==> AtLeast(r, rank, v)
  {
    if |sorted| == 0 then [k]
    else if rank(k) <= rank(sorted[0]) then [k] + sorted
    else
      var rest := InsertByRank(sorted[1..], k, rank);
      assert AtLeast(sorted[1..], rank, rank(sorted[0]));
      assert AtLeast(rest, rank, rank(sorted[0]));
      [sorted[0]] + rest
  }

  lemma {:induction false} InsertByRankPermutes(sorted: seq<string>, k: string, rank: string -> nat)
    requires Ascending(sorted, rank)
    ensures multiset(InsertByRank(sorted, k, rank)) == multiset(sorted) + multiset{k}
  {
    if |sorted| > 0 && rank(k) > rank(sorted[0]) {
      InsertByRankPermutes(sorted[1..], k, rank);
      assert sorted == [sorted[0]] + sorted[1..];
    }
  }

  /** Insertion sort of `ks` by ascending `rank`. */
  function SortByRank(ks: seq<string>, rank: string -> nat): (r: seq<string>)
    ensures Ascending(r, rank)
    ensures multiset(r) == multiset(ks)
  {
    if |ks| == 0 then []
    else
      assert ks == [ks[0]] + ks[1..];
      InsertByRankPermutes(SortByRank(ks[1..], rank), ks[0], rank);
      InsertByRank(SortByRank(ks[1..], rank), ks[0], rank)
  }

  /** Every array-index key is preceded only by array-index keys of no
      larger value. */
  ghost predicate IndexKeysLead(ks: seq<string>) {
    forall i, j :: 0 <= i < j < |ks| && IsArrayIndex(ks[j]) ==>
      IsArrayIndex(ks[i]) && DecimalValue(ks[i]) <= DecimalValue(ks[j])
  }

  /** The keys of an object whose properties were created in the order
      `created`, in the order `Object.entries` lists them. The result is a
      permutation of `created`; keys that are not array indices keep their
      creation order; every array-index key comes before all other keys and
      after the array-index keys of smaller value. */
  function OwnKeys(created: seq<string>): (r: seq<string>)
    ensures |r| == |created|
    ensures multiset(r) == multiset(created)
    ensures Filter(r, IsNamedKey) == Filter(created, IsNamedKey)
    ensures IndexKeysLead(r)
  {
    var indices := SortByRank(Filter(created, IsArrayIndex), DecimalValue);
    var named := Filter(created, IsNamedKey);
    OwnKeysFacts(created, indices, named);
    assert |indices + named| == |multiset(indices + named)| == |multiset(created)| == |created|;
    indices + named
  }

  lemma OwnKeysFacts(created: seq<string>, indices: seq<string>, named: seq<string>)
    requires indices == SortByRank(Filter(created, IsArrayIndex), DecimalValue)
    requires named == Filter(created, IsNamedKey)
    ensures multiset(indices + named) == multiset(created)
    ensures Filter(indices + named, IsNamedKey) == named
    ensures IndexKeysLead(indices + named)
  {
    FilterPartition(created, IsArrayIndex, IsNamedKey);
    AllIndexKeys(created, indices);
    FilterSatisfies(created, IsNamedKey);
    FilterNone(indices, IsNamedKey);
    FilterAll(named, IsNamedKey);
    FilterAppend(indices, named, IsNamedKey);
    IndexKeysFirst(indices, named);
  }

  lemma IndexKeysFirst(indices: seq<string>, named: seq<string>)
    requires Ascending(indices, DecimalValue)
    requires forall i :: 0 <= i < |indices| ==> IsArrayIndex(indices[i])
    requires forall i :: 0 <= i < |named| ==> IsNamedKey(named[i])
    ensures IndexKeysLead(indices + named)
  {
    var r := indices + named;
    forall i, j | 0 <= i < j < |r| && IsArrayIndex(r[j])
      ensures IsArrayIndex(r[i]) && DecimalValue(r[i]) <= DecimalValue(r[j])
    {
      assert r[i] == indices[i] && r[j] == indices[j];
    }
  }

  lemma AllIndexKeys(created: seq<string>, indices: seq<string>)
    requires indices == SortByRank(Filter(created, IsArrayIndex), DecimalValue)
    ensures forall i :: 0 <= i < |indices| ==> IsArrayIndex(indices[i])
  {
    var all := Filter(created, IsArrayIndex);
    FilterSatisfies(created, IsArrayIndex);
    forall i | 0 <= i < |indices| ensures IsArrayIndex(indices[i]) {
      assert indices[i] in multiset(all);
      var k := FirstIndex(all, indices[i]);
    }
  }
}
