/** The contributor ranking of `getTopUsers`: count the posts of every
    author in a plain object, list the object's entries as `{ user, count }`,
    sort them by descending count with a stable sort, keep the first ten. */
module Ranking {
  import opened Seqs
  import opened JsKeys

  /** The `data` object of one listing child. Only `author` is read; the
      other fields pass through untouched. */
  datatype Post = Post(author: string, fields: seq<(string, string)>)

  /** One `{ user, count }` entry of the result. */
  datatype UserCount = UserCount(user: string, count: nat)

  /** How many entries `getTopUsers` returns at most (`slice(0, 10)`). */
  const TopLimit: nat := 10

  function Authors(posts: seq<Post>): (r: seq<string>)
    ensures |r| == |posts|
    ensures forall i :: 0 <= i < |posts| ==> r[i] == posts[i].author
  {
    seq(|posts|, i requires 0 <= i < |posts| => posts[i].author)
  }

  function Min(a: nat, b: nat): nat {
    if a <= b then a else b
  }

  // ---------------------------------------------------------------------
  // Counting: the object `userPostCount`
  // ---------------------------------------------------------------------

  /** The object `userPostCount`: its keys in creation order and its values. */
  datatype CountTable = CountTable(created: seq<string>, count: map<string, nat>)

  /** The count of a key, 0 when the object has no such key. */
  function Tally(t: CountTable): string -> nat {
    k => if k in t.count then t.count[k] else 0
  }

  /** One step of the `forEach` loop:
      `userPostCount[author] = (userPostCount[author] || 0) + 1`.
      A missing key reads as `undefined`, which `|| 0` turns into 0; a
      present key holds a count of at least one, which `||` keeps. */
  function Bump(t: CountTable, author: string): (r: CountTable)
    ensures Tally(r)(author) == Tally(t)(author) + 1
    ensures forall k :: k != author ==> Tally(r)(k) == Tally(t)(k) && (k in r.count <==> k in t.count)
    ensures r.created == if author in t.count then t.created else t.created + [author]
  {
    if author in t.count then t.(count := t.count[author := t.count[author] + 1])
    else CountTable(t.created + [author], t.count[author := 1])
  }

  /** `userPostCount` after the loop over `authors`. Every created key has
      a count, so the entries can be listed. */
  function CountAuthors(authors: seq<string>): (t: CountTable)
    ensures forall i :: 0 <= i < |t.created| ==> t.created[i] in t.count
    ensures |t.created| <= |authors|
  {
    if |authors| == 0 then CountTable([], map[])
    else Bump(CountAuthors(authors[..|authors| - 1]), authors[|authors| - 1])
  }

  /** The object counts exactly: its keys are the authors, each created
      once, and each count is the number of occurrences of its author. */
  ghost predicate CountsExactly(t: CountTable, authors: seq<string>) {
    && NoDup(t.created)
    && (forall a :: a in t.created <==> a in authors)
    && (forall a :: a in t.count <==> a in authors)
    && (forall a :: a in t.count ==> t.count[a] == multiset(authors)[a])
  }

  lemma {:induction false} CountAuthorsExact(authors: seq<string>)
    ensures CountsExactly(CountAuthors(authors), authors)
  {
    if |authors| > 0 {
      var prefix := authors[..|authors| - 1];
      var last := authors[|authors| - 1];
      assert authors == prefix + [last];
      CountAuthorsExact(prefix);
      var t := CountAuthors(prefix);
      assert last !in t.count ==> NoDup(t.created + [last]);
    }
  }

  /** The object's keys were created in the order in which their authors
      first occur among the posts. */
  lemma {:induction false} CreationOrderIsFirstSeen(authors: seq<string>)
    ensures InFirstSeenOrder(CountAuthors(authors).created, authors)
  {
    if |authors| > 0 {
      var prefix := authors[..|authors| - 1];
      var last := authors[|authors| - 1];
      assert authors == prefix + [last];
      CreationOrderIsFirstSeen(prefix);
      CountAuthorsExact(prefix);
      var t0 := CountAuthors(prefix);
      FirstSeenExtend(t0.created, prefix, last);
    }
  }

  /** The counts of the whole object add up to the number of authors. */
  lemma {:induction false} TallySumIsLength(authors: seq<string>)
    ensures var t := CountAuthors(authors);
      SumOf(t.created, Tally(t)) == |authors|
  {
    if |authors| > 0 {
      var prefix := authors[..|authors| - 1];
      var last := authors[|authors| - 1];
      assert authors == prefix + [last];
      TallySumIsLength(prefix);
      CountAuthorsExact(prefix);
      var t0 := CountAuthors(prefix);
      var t := CountAuthors(authors);
      if last in t0.count {
        assert t.created == t0.created;
        SumOfPointUpdate(t0.created, Tally(t0), Tally(t), last);
      } else {
        assert t.created == t0.created + [last];
        SumOfAgree(t0.created, Tally(t0), Tally(t));
        SumOfAppend(t0.created, [last], Tally(t));
        assert SumOf([last], Tally(t)) == 1 by {
          assert [last][1..] == [];
        }
      }
    }
  }

  // ---------------------------------------------------------------------
  // Listing: `Object.entries(userPostCount).map(...)`
  // ---------------------------------------------------------------------

  /** One `{ user, count }` entry per key of `keys`, in that order. */
  function EntriesFor(keys: seq<string>, count: map<string, nat>): (r: seq<UserCount>)
    requires forall i :: 0 <= i < |keys| ==> keys[i] in count
    ensures |r| == |keys|
    ensures forall i :: 0 <= i < |r| ==> r[i] == UserCount(keys[i], count[keys[i]])
  {
    if |keys| == 0 then [] else [UserCount(keys[0], count[keys[0]])] + EntriesFor(keys[1..], count)
  }

  /** `Object.entries(t).map(([user, count]) => ({ user, count }))`. */
  function Entries(t: CountTable): (r: seq<UserCount>)
    requires forall i :: 0 <= i < |t.created| ==> t.created[i] in t.count
    ensures |r| == |t.created|
    ensures forall i :: 0 <= i < |r| ==> r[i].user == OwnKeys(t.created)[i]
    ensures forall i :: 0 <= i < |r| ==> r[i].user in t.count && r[i].count == t.count[r[i].user]
  {
    var keys := OwnKeys(t.created);
    PermutationMembers(keys, t.created);
    EntriesFor(keys, t.count)
  }


  lemma {:induction false} EntriesForSum(keys: seq<string>, t: CountTable)
    requires forall i :: 0 <= i < |keys| ==> keys[i] in t.count
    ensures SumOf(EntriesFor(keys, t.count), CountOf) == SumOf(keys, Tally(t))
  {
    if |keys| > 0 {
      EntriesForSum(keys[1..], t);
    }
  }

  // ---------------------------------------------------------------------
  // Sorting: `.sort((a, b) => b.count - a.count)`
  // ---------------------------------------------------------------------

  function CountOf(e: UserCount): nat {
    e.count
  }

  /** Counts never increase along `s`. */
  ghost predicate SortedByCount(s: seq<UserCount>) {
    forall i, j :: 0 <= i < j < |s| ==> s[i].count >= s[j].count
  }

  /** Every entry of `s` has a count of at most `v`. */
  ghost predicate AtMost(s: seq<UserCount>, v: nat) {
    forall i :: 0 <= i < |s| ==> s[i].count <= v
  }

  function HasCount(c: nat): UserCount -> bool {
    (e: UserCount) => e.count == c
  }

  /** The entries of `s` whose count is `c`, in their order in `s`. */
  function WithCount(s: seq<UserCount>, c: nat): seq<UserCount> {
    Filter(s, HasCount(c))
  }

  /** Places `e` after every entry whose count is at least its own, which
      is where a stable sort puts an entry that comes last in its input. */
  function InsertByCount(sorted: seq<UserCount>, e: UserCount): (r: seq<UserCount>)
    requires SortedByCount(sorted)
    ensures SortedByCount(r)
    ensures forall v: nat :: AtMost(sorted, v) && e.count <= v ==> AtMost(r, v)
  {
    if |sorted| == 0 then [e]
    else if sorted[0].count >= e.count then
      var rest := InsertByCount(sorted[1..], e);
      assert AtMost(sorted[1..], sorted[0].count);
      assert AtMost(rest, sorted[0].count);
      [sorted[0]] + rest
    else [e] + sorted
  }

  lemma {:induction false} InsertByCountPermutes(sorted: seq<UserCount>, e: UserCount)
    requires SortedByCount(sorted)
    ensures multiset(InsertByCount(sorted, e)) == multiset(sorted) + multiset{e}
  {
    if |sorted| > 0 && sorted[0].count >= e.count {
      InsertByCountPermutes(sorted[1..], e);
      assert sorted == [sorted[0]] + sorted[1..];
    }
  }

  /** `Array.prototype.sort` with the comparator `(a, b) => b.count - a.count`:
      a stable sort by descending count (insertion sort). */
  function SortByCount(s: seq<UserCount>): (r: seq<UserCount>)
    ensures SortedByCount(r)
    ensures multiset(r) == multiset(s)
  {
    if |s| == 0 then []
    else
      var init := s[..|s| - 1];
      assert s == init + [s[|s| - 1]];
      InsertByCountPermutes(SortByCount(init), s[|s| - 1]);
      InsertByCount(SortByCount(init), s[|s| - 1])
  }

  /** Inserting keeps, for every count, the entries of that count in the
      order they have in `sorted + [e]`. */
  lemma {:induction false} InsertByCountStable(sorted: seq<UserCount>, e: UserCount, c: nat)
    requires SortedByCount(sorted)
    ensures WithCount(InsertByCount(sorted, e), c) == WithCount(sorted + [e], c)
  {
    var p := HasCount(c);
    if |sorted| == 0 {
      assert sorted + [e] == [e];
    } else if sorted[0].count >= e.count {
      var rest := InsertByCount(sorted[1..], e);
      InsertByCountStable(sorted[1..], e, c);
      FilterAppend([sorted[0]], rest, p);
      FilterAppend([sorted[0]], sorted[1..] + [e], p);
      assert sorted + [e] == [sorted[0]] + (sorted[1..] + [e]);
    } else {
      FilterAppend([e], sorted, p);
      FilterAppend(sorted, [e], p);
      if e.count == c {
        FilterNone(sorted, p);
      }
    }
  }

  /** The sort is stable: for every count, the entries with that count keep
      their input order. */
  lemma {:induction false} SortByCountStable(s: seq<UserCount>, c: nat)
    ensures WithCount(SortByCount(s), c) == WithCount(s, c)
  {
    if |s| > 0 {
      var init := s[..|s| - 1];
      var last := s[|s| - 1];
      assert s == init + [last];
      SortByCountStable(init, c);
      InsertByCountStable(SortByCount(init), last, c);
      FilterAppend(SortByCount(init), [last], HasCount(c));
      FilterAppend(init, [last], HasCount(c));
    }
  }

  /** Sortedness and stability pin the result down: two sequences sorted by
      descending count that agree on the entries of every count are equal.
      So any stable sort by descending count (the engine's own algorithm
      included) yields exactly `SortByCount`. */
  lemma {:induction false} StableSortIsUnique(a: seq<UserCount>, b: seq<UserCount>)
    requires SortedByCount(a) && SortedByCount(b)
    requires forall c: nat :: WithCount(a, c) == WithCount(b, c)
    ensures a == b
  {
    if |a| > 0 {
      assert WithCount(a, a[0].count) != [];
    }
    if |b| > 0 {
      assert WithCount(b, b[0].count) != [];
    }
    if |a| > 0 && |b| > 0 {
      var ca := a[0].count;
      var cb := b[0].count;
      assert WithCount(a, ca) == [a[0]] + WithCount(a[1..], ca);
      assert WithCount(b, cb) == [b[0]] + WithCount(b[1..], cb);
      assert ca == cb by {
        var x := WithCount(b, ca)[0];
        FilterMembership(b, HasCount(ca), x);
        var y := WithCount(a, cb)[0];
        FilterMembership(a, HasCount(cb), y);
      }
      assert WithCount(a, ca) == WithCount(b, ca);
      assert WithCount(a, ca)[0] == a[0];
      assert WithCount(b, ca)[0] == b[0];
      assert a[0] == b[0];
      forall c: nat ensures WithCount(a[1..], c) == WithCount(b[1..], c) {
        var h := if a[0].count == c then [a[0]] else [];
        assert WithCount(a, c) == h + WithCount(a[1..], c);
        assert WithCount(b, c) == h + WithCount(b[1..], c);
        assert WithCount(a[1..], c) == WithCount(a, c)[|h|..];
        assert WithCount(b[1..], c) == WithCount(b, c)[|h|..];
      }
      StableSortIsUnique(a[1..], b[1..]);
      assert a == [a[0]] + a[1..];
      assert b == [b[0]] + b[1..];
    }
  }

  /** Sorting a list already in descending order of count changes nothing:
      the sort only moves entries past entries of a different count. */
  lemma SortedInputUnchanged(s: seq<UserCount>)
    requires SortedByCount(s)
    ensures SortByCount(s) == s
  {
    forall c: nat ensures WithCount(SortByCount(s), c) == WithCount(s, c) {
      SortByCountStable(s, c);
    }
    StableSortIsUnique(SortByCount(s), s);
  }

  // ---------------------------------------------------------------------
  // The whole ranking
  // ---------------------------------------------------------------------

  /** Every contributor with its post count, before truncation. */
  function FullRanking(posts: seq<Post>): (r: seq<UserCount>)
    ensures SortedByCount(r)
  {
    SortByCount(Entries(CountAuthors(Authors(posts))))
  }

  /** What one `{ user, count }` entry may say: its user wrote at least one
      of the posts and its count is the number of posts that user wrote. */
  ghost predicate Exact(posts: seq<Post>, e: UserCount) {
    e.user in Authors(posts) && e.count == multiset(Authors(posts))[e.user]
  }

  /** No user is listed twice. */
  ghost predicate UsersDistinct(r: seq<UserCount>) {
    forall i, j :: 0 <= i < j < |r| ==> r[i].user != r[j].user
  }

  /** The listing before sorting: one exact entry per distinct author, in
      the key order of `OwnKeys`. */
  lemma EntriesFacts(posts: seq<Post>)
    ensures var t := CountAuthors(Authors(posts));
      var es := Entries(t);
      && |es| == |Elements(Authors(posts))|
      && NoDup(es)
      && (forall i :: 0 <= i < |es| ==> Exact(posts, es[i]))
      && (forall i :: 0 <= i < |es| ==> es[i].user == OwnKeys(t.created)[i])
  {
    var authors := Authors(posts);
    var t := CountAuthors(authors);
    var keys := OwnKeys(t.created);
    var es := Entries(t);
    KeysFacts(authors);
    CountAuthorsExact(authors);
    forall i | 0 <= i < |es| ensures Exact(posts, es[i]) && es[i].user == keys[i] {
      assert es[i] == UserCount(keys[i], t.count[keys[i]]);
    }
    forall i, j | 0 <= i < j < |es| ensures es[i] != es[j] {
      assert es[i].user == keys[i] && es[j].user == keys[j];
    }
  }

  /** The listed keys: each author once. */
  lemma KeysFacts(authors: seq<string>)
    ensures var keys := OwnKeys(CountAuthors(authors).created);
      && NoDup(keys)
      && |keys| == |Elements(authors)|
      && (forall i :: 0 <= i < |keys| ==> keys[i] in authors)
      && (forall i :: 0 <= i < |authors| ==> authors[i] in keys)
  {
    var t := CountAuthors(authors);
    assert NoDup(t.created) by { CountAuthorsExact(authors); }
    KeysAreDistinct(t.created);
    KeysAreAuthors(authors);
    AuthorsAreKeys(authors);
    CreatedCountsAuthors(authors);
  }

  lemma KeysAreDistinct(created: seq<string>)
    requires NoDup(created)
    ensures NoDup(OwnKeys(created)) && |OwnKeys(created)| == |created|
  {
    var keys := OwnKeys(created);
    NoDupPermutation(created, keys);
    assert |keys| == |multiset(keys)| == |multiset(created)| == |created|;
  }

  lemma KeysAreAuthors(authors: seq<string>)
    ensures var keys := OwnKeys(CountAuthors(authors).created);
      forall i :: 0 <= i < |keys| ==> keys[i] in authors
  {
    var t := CountAuthors(authors);
    CountAuthorsExact(authors);
    PermutationMembers(OwnKeys(t.created), t.created);
  }

  lemma AuthorsAreKeys(authors: seq<string>)
    ensures var keys := OwnKeys(CountAuthors(authors).created);
      forall i :: 0 <= i < |authors| ==> authors[i] in keys
  {
    var t := CountAuthors(authors);
    var keys := OwnKeys(t.created);
    CountAuthorsExact(authors);
    forall i | 0 <= i < |authors| ensures authors[i] in keys {
      var k := FirstIndex(t.created, authors[i]);
      PermutationMembers(keys, t.created);
    }
  }

  lemma CreatedCountsAuthors(authors: seq<string>)
    ensures |CountAuthors(authors).created| == |Elements(authors)|
  {
    var t := CountAuthors(authors);
    CountAuthorsExact(authors);
    NoDupCardinality(t.created);
    assert Elements(t.created) == Elements(authors);
  }

  /** The full ranking: one exact entry per distinct author, sorted by
      descending count, every user once. */
  lemma FullRankingFacts(posts: seq<Post>)
    ensures var full := FullRanking(posts);
      && |full| == |Elements(Authors(posts))|
      && SortedByCount(full)
      && UsersDistinct(full)
      && (forall i :: 0 <= i < |full| ==> Exact(posts, full[i]))
  {
    var es := Entries(CountAuthors(Authors(posts)));
    var full := FullRanking(posts);
    EntriesFacts(posts);
    PermutationMembers(es, full);
    NoDupPermutation(es, full);
    assert |full| == |multiset(full)| == |multiset(es)| == |es|;
    forall i | 0 <= i < |full| ensures Exact(posts, full[i]) {
      var k := FirstIndex(es, full[i]);
    }
    forall i, j | 0 <= i < j < |full| ensures full[i].user != full[j].user {
      assert full[i] != full[j];
      assert Exact(posts, full[i]) && Exact(posts, full[j]);
    }
  }

  /** `getTopUsers`' result for the posts it fetched: at most ten entries,
      and exactly as many as there are distinct authors when those are
      fewer; sorted by descending count; each user once, with the exact
      number of posts it wrote. */
  function TopUsers(posts: seq<Post>): (r: seq<UserCount>)
    ensures |r| == Min(TopLimit, |Elements(Authors(posts))|)
    ensures SortedByCount(r)
    ensures UsersDistinct(r)
    ensures forall i :: 0 <= i < |r| ==> Exact(posts, r[i])
  {
    var full := FullRanking(posts);
    FullRankingFacts(posts);
    PrefixKeepsRanking(posts, full, Min(TopLimit, |full|));
    full[..Min(TopLimit, |full|)]
  }

  /** A prefix of a sorted, exact list of distinct users is one too. */
  lemma PrefixKeepsRanking(posts: seq<Post>, full: seq<UserCount>, n: nat)
    requires n <= |full|
    requires SortedByCount(full) && UsersDistinct(full)
    requires forall i :: 0 <= i < |full| ==> Exact(posts, full[i])
    ensures SortedByCount(full[..n]) && UsersDistinct(full[..n])
    ensures forall i :: 0 <= i < n ==> Exact(posts, full[..n][i])
  {
  }

  /** No posts, no contributors: the empty listing ranks nobody and is not
      an error. */
  lemma NoPostsNoUsers()
    ensures TopUsers([]) == []
  {
    assert Elements(Authors([])) == {};
  }

  /** The users of a ranking, in order. */
  function Users(r: seq<UserCount>): (u: seq<string>)
    ensures |u| == |r| && forall i :: 0 <= i < |r| ==> u[i] == r[i].user
  {
    seq(|r|, i requires 0 <= i < |r| => r[i].user)
  }

  /** The counting object partitions the posts: its keys are exactly the
      authors, every count is the number of posts by that author, and the
      counts add up to the number of posts. */
  lemma CountsPartitionPosts(posts: seq<Post>)
    ensures var t := CountAuthors(Authors(posts));
      && (forall a :: a in t.count <==> a in Authors(posts))
      && (forall a :: a in t.count ==> t.count[a] == multiset(Authors(posts))[a])
      && SumOf(t.created, Tally(t)) == |posts|
  {
    CountAuthorsExact(Authors(posts));
    TallySumIsLength(Authors(posts));
  }

  /** Before truncation the ranking still accounts for every post. */
  lemma FullRankingSumsToPosts(posts: seq<Post>)
    ensures SumOf(FullRanking(posts), CountOf) == |posts|
  {
    var authors := Authors(posts);
    var t := CountAuthors(authors);
    var keys := OwnKeys(t.created);
    var es := Entries(t);
    SumOfPermutation(FullRanking(posts), es, CountOf);
    PermutationMembers(keys, t.created);
    EntriesForSum(keys, t);
    SumOfPermutation(keys, t.created, Tally(t));
    TallySumIsLength(authors);
  }

  /** Every author has an entry in the full ranking. */
  lemma AuthorRanked(posts: seq<Post>, a: string) returns (m: nat)
    requires a in Authors(posts)
    ensures m < |FullRanking(posts)|
    ensures FullRanking(posts)[m] == UserCount(a, multiset(Authors(posts))[a])
  {
    var authors := Authors(posts);
    var t := CountAuthors(authors);
    var keys := OwnKeys(t.created);
    var es := Entries(t);
    KeysFacts(authors);
    CountAuthorsExact(authors);
    EntriesFacts(posts);
    var k := FirstIndex(keys, a);
    var e := es[k];
    assert e.user == a && Exact(posts, e);
    PermutationMembers(es, FullRanking(posts));
    m := FirstIndex(FullRanking(posts), e);
  }

  /** The result holds the most active authors: an author left out wrote no
      more posts than anyone listed, and when fewer than ten are listed
      nobody is left out. */
  lemma TopUsersAreMostActive(posts: seq<Post>)
    ensures var r := TopUsers(posts);
      forall a, i :: a in Authors(posts) && a !in Users(r) && 0 <= i < |r| ==>
        r[i].count >= multiset(Authors(posts))[a]
    ensures |TopUsers(posts)| < TopLimit ==>
      forall a :: a in Authors(posts) ==> a in Users(TopUsers(posts))
  {
    var r := TopUsers(posts);
    var full := FullRanking(posts);
    FullRankingFacts(posts);
    assert forall i :: 0 <= i < |r| ==> r[i] == full[i];
    forall a | a in Authors(posts) && a !in Users(r)
      ensures forall i :: 0 <= i < |r| ==> r[i].count >= multiset(Authors(posts))[a]
    {
      var m := AuthorRanked(posts, a);
    }
    if |r| < TopLimit {
      forall a | a in Authors(posts) ensures a in Users(TopUsers(posts)) {
        var m := AuthorRanked(posts, a);
        assert Users(r)[m] == a;
      }
    }
  }

  /** Two entries with the same count are listed in the order in which
      `Object.entries` lists their users. */
  lemma TieFollowsKeyOrder(posts: seq<Post>, i: nat, j: nat)
    requires i < j < |FullRanking(posts)|
    requires FullRanking(posts)[i].count == FullRanking(posts)[j].count
    ensures var keys := OwnKeys(CountAuthors(Authors(posts)).created);
      && FullRanking(posts)[i].user in keys && FullRanking(posts)[j].user in keys
      && FirstIndex(keys, FullRanking(posts)[i].user) < FirstIndex(keys, FullRanking(posts)[j].user)
  {
    var authors := Authors(posts);
    var t := CountAuthors(authors);
    EntriesFacts(posts);
    KeysFacts(authors);
    StableTieOrder(Entries(t), OwnKeys(t.created), i, j);
  }

  /** A stable sort lists two entries of equal count in the order of the
      keys they were made from. */
  lemma StableTieOrder(es: seq<UserCount>, keys: seq<string>, i: nat, j: nat)
    requires NoDup(es) && NoDup(keys) && |es| == |keys|
    requires forall k :: 0 <= k < |es| ==> es[k].user == keys[k]
    requires i < j < |SortByCount(es)|
    requires SortByCount(es)[i].count == SortByCount(es)[j].count
    ensures SortByCount(es)[i].user in keys && SortByCount(es)[j].user in keys
    ensures FirstIndex(keys, SortByCount(es)[i].user) < FirstIndex(keys, SortByCount(es)[j].user)
  {
    var full := SortByCount(es);
    var c := full[i].count;
    SortByCountStable(es, c);
    FilterPreservesOrder(full, es, HasCount(c), i, j);
    var ki := FirstIndex(es, full[i]);
    var kj := FirstIndex(es, full[j]);
    assert keys[ki] == full[i].user && keys[kj] == full[j].user;
    FirstIndexOfNoDup(keys, ki);
    FirstIndexOfNoDup(keys, kj);
  }


  /** Ties between authors that are not array-index-like names keep the
      order in which those authors first occur among the posts. */
  lemma TiesKeepFirstSeenOrder(posts: seq<Post>)
    ensures var r := TopUsers(posts);
      forall i, j ::
        (0 <= i < j < |r| && r[i].count == r[j].count && IsNamedKey(r[i].user) && IsNamedKey(r[j].user)) ==>
          FirstIndex(Authors(posts), r[i].user) < FirstIndex(Authors(posts), r[j].user)
  {
    var r := TopUsers(posts);
    var full := FullRanking(posts);
    forall i, j | 0 <= i < j < |r| && r[i].count == r[j].count && IsNamedKey(r[i].user) && IsNamedKey(r[j].user)
      ensures FirstIndex(Authors(posts), r[i].user) < FirstIndex(Authors(posts), r[j].user)
    {
      assert r[i] == full[i] && r[j] == full[j];
      NamedTie(posts, i, j);
    }
  }

  lemma NamedTie(posts: seq<Post>, i: nat, j: nat)
    requires i < j < |FullRanking(posts)|
    requires FullRanking(posts)[i].count == FullRanking(posts)[j].count
    requires IsNamedKey(FullRanking(posts)[i].user) && IsNamedKey(FullRanking(posts)[j].user)
    ensures FullRanking(posts)[i].user in Authors(posts) && FullRanking(posts)[j].user in Authors(posts)
    ensures FirstIndex(Authors(posts), FullRanking(posts)[i].user) < FirstIndex(Authors(posts), FullRanking(posts)[j].user)
  {
    TieFollowsKeyOrder(posts, i, j);
    KeyOrderIsFirstSeen(Authors(posts), FullRanking(posts)[i].user, FullRanking(posts)[j].user);
  }

  /** Among names that are not array-index-like, `Object.entries` order
      is the order of first occurrence. */
  lemma KeyOrderIsFirstSeen(authors: seq<string>, u: string, v: string)
    requires var keys := OwnKeys(CountAuthors(authors).created);
      u in keys && v in keys && FirstIndex(keys, u) < FirstIndex(keys, v)
    requires IsNamedKey(u) && IsNamedKey(v)
    ensures u in authors && v in authors && FirstIndex(authors, u) < FirstIndex(authors, v)
  {
    var t := CountAuthors(authors);
    CountAuthorsExact(authors);
    CreationOrderIsFirstSeen(authors);
    NamedKeysFirstSeen(authors, t.created, OwnKeys(t.created), u, v);
  }

  /** The same for any key list that lists the named keys of a first-seen
      creation order in that order. */
  lemma NamedKeysFirstSeen(authors: seq<string>, created: seq<string>, keys: seq<string>, u: string, v: string)
    requires Filter(keys, IsNamedKey) == Filter(created, IsNamedKey) && NoDup(created)
    requires InFirstSeenOrder(created, authors)
    requires u in keys && v in keys && FirstIndex(keys, u) < FirstIndex(keys, v)
    requires IsNamedKey(u) && IsNamedKey(v)
    ensures u in authors && v in authors && FirstIndex(authors, u) < FirstIndex(authors, v)
  {
    FilterPreservesOrder(keys, created, IsNamedKey, FirstIndex(keys, u), FirstIndex(keys, v));
    var a, b := FirstIndex(created, u), FirstIndex(created, v);
    assert created[a] == u && created[b] == v;
  }


  /** An author missing from the result sits beyond the cut in the full
      ranking. */
  lemma LeftOutRanksLater(posts: seq<Post>, a: string, m: nat)
    requires m < |FullRanking(posts)| && FullRanking(posts)[m].user == a
    requires a !in Users(TopUsers(posts))
    ensures m >= |TopUsers(posts)|
  {
    var full := FullRanking(posts);
    assert TopUsers(posts) == full[..Min(TopLimit, |full|)];
    MissingBeyondPrefix(full, Min(TopLimit, |full|), a, m);
  }

  lemma MissingBeyondPrefix(full: seq<UserCount>, n: nat, a: string, m: nat)
    requires n <= |full| && m < |full| && full[m].user == a
    requires a !in Users(full[..n])
    ensures m >= n
  {
    var r := full[..n];
    assert forall k :: 0 <= k < n ==> Users(r)[k] == full[k].user != a;
  }

  /** Which of several equally active authors survive the cut to ten: an
      author left out that ties with a listed one first occurs later than
      the listed one, when neither name is array-index-like. */
  lemma TruncationKeepsEarliestTies(posts: seq<Post>)
    ensures var r := TopUsers(posts);
      forall i, a ::
        && 0 <= i < |r| && a in Authors(posts) && a !in Users(r)
        && multiset(Authors(posts))[a] == r[i].count
        && IsNamedKey(r[i].user) && IsNamedKey(a)
        ==> FirstIndex(Authors(posts), r[i].user) < FirstIndex(Authors(posts), a)
  {
    var r := TopUsers(posts);
    forall i, a | && 0 <= i < |r| && a in Authors(posts) && a !in Users(r)
                  && multiset(Authors(posts))[a] == r[i].count
                  && IsNamedKey(r[i].user) && IsNamedKey(a)
      ensures FirstIndex(Authors(posts), r[i].user) < FirstIndex(Authors(posts), a)
    {
      TruncatedTie(posts, i, a);
    }
  }

  /** An array-index-like author is left out of a tie only after every
      listed author of that count is array-index-like with no larger
      value. */
  lemma TruncationKeepsSmallestIndexTies(posts: seq<Post>)
    ensures var r := TopUsers(posts);
      forall i, a ::
        && 0 <= i < |r| && a in Authors(posts) && a !in Users(r)
        && multiset(Authors(posts))[a] == r[i].count
        && IsArrayIndex(a)
        ==> IsArrayIndex(r[i].user) && DecimalValue(r[i].user) <= DecimalValue(a)
  {
    var r := TopUsers(posts);
    forall i, a | && 0 <= i < |r| && a in Authors(posts) && a !in Users(r)
                  && multiset(Authors(posts))[a] == r[i].count
                  && IsArrayIndex(a)
      ensures IsArrayIndex(r[i].user) && DecimalValue(r[i].user) <= DecimalValue(a)
    {
      TruncatedTie(posts, i, a);
    }
  }

  /** The same for one listed entry and one left-out author. */
  lemma TruncatedTie(posts: seq<Post>, i: nat, a: string)
    requires i < |TopUsers(posts)|
    requires a in Authors(posts) && a !in Users(TopUsers(posts))
    requires multiset(Authors(posts))[a] == TopUsers(posts)[i].count
    ensures IsNamedKey(TopUsers(posts)[i].user) && IsNamedKey(a) ==>
      FirstIndex(Authors(posts), TopUsers(posts)[i].user) < FirstIndex(Authors(posts), a)
    ensures IsArrayIndex(a) ==>
      IsArrayIndex(TopUsers(posts)[i].user) && DecimalValue(TopUsers(posts)[i].user) <= DecimalValue(a)
  {
    var r := TopUsers(posts);
    var full := FullRanking(posts);
    var m := AuthorRanked(posts, a);
    LeftOutRanksLater(posts, a, m);
    assert r[i] == full[i];
    if IsNamedKey(r[i].user) && IsNamedKey(a) {
      NamedTie(posts, i, m);
    }
    if IsArrayIndex(a) {
      IndexLikeTie(posts, i, m);
    }
  }

  /** Ties involving array-index-like names (such as "42") do not follow
      first occurrence: such users come before every other user of the same
      count, in ascending numeric order. */
  lemma IndexLikeAuthorsLeadTies(posts: seq<Post>)
    ensures var r := TopUsers(posts);
      forall i, j :: 0 <= i < j < |r| && r[i].count == r[j].count && IsArrayIndex(r[j].user) ==>
        IsArrayIndex(r[i].user) && DecimalValue(r[i].user) <= DecimalValue(r[j].user)
  {
    var r := TopUsers(posts);
    var full := FullRanking(posts);
    forall i, j | 0 <= i < j < |r| && r[i].count == r[j].count && IsArrayIndex(r[j].user)
      ensures IsArrayIndex(r[i].user) && DecimalValue(r[i].user) <= DecimalValue(r[j].user)
    {
      assert r[i] == full[i] && r[j] == full[j];
      IndexLikeTie(posts, i, j);
    }
  }

  lemma IndexLikeTie(posts: seq<Post>, i: nat, j: nat)
    requires i < j < |FullRanking(posts)|
    requires FullRanking(posts)[i].count == FullRanking(posts)[j].count
    requires IsArrayIndex(FullRanking(posts)[j].user)
    ensures IsArrayIndex(FullRanking(posts)[i].user)
    ensures DecimalValue(FullRanking(posts)[i].user) <= DecimalValue(FullRanking(posts)[j].user)
  {
    var keys := OwnKeys(CountAuthors(Authors(posts)).created);
    var u, v := FullRanking(posts)[i].user, FullRanking(posts)[j].user;
    TieFollowsKeyOrder(posts, i, j);
    var a, b := FirstIndex(keys, u), FirstIndex(keys, v);
    assert keys[a] == u && keys[b] == v;
  }
}
