/** Worked examples on concrete inputs: the contributor ranking of a
    six-post listing, the key order of authors named like array indices,
    the replies of the unit tests, and a connection whose cycles all fail.
    The ranking examples follow the count, key-order and sort steps one
    lemma at a time and then assemble the final list. */
module Samples {
  import opened Outcomes
  import opened Seqs
  import opened JsKeys
  import opened Ranking
  import Upstream
  import Session

  /** A post reduced to its author; the other fields play no part. */
  function ByAuthor(a: string): Post {
    Post(a, [])
  }

  /** One more loop iteration: counting `pre + [x]` is counting `pre` and
      then bumping `x`. */
  lemma CountThrough(pre: seq<string>, x: string, full: seq<string>, t: CountTable, t': CountTable)
    requires full == pre + [x]
    requires CountAuthors(pre) == t
    requires Bump(t, x) == t'
    ensures CountAuthors(full) == t'
  {
    assert full[..|pre|] == pre;
  }

  /** The key order `OwnKeys` computes, from its two filters and the sort of
      the index keys. */
  lemma OwnKeysThrough(created: seq<string>, indices: seq<string>, sortedIndices: seq<string>, named: seq<string>)
    requires Filter(created, IsArrayIndex) == indices
    requires Filter(created, IsNamedKey) == named
    requires SortByRank(indices, DecimalValue) == sortedIndices
    ensures OwnKeys(created) == sortedIndices + named
  {
  }

  /** `Entries` from the key order and the listing of those keys. */
  lemma EntriesThrough(t: CountTable, keys: seq<string>, es: seq<UserCount>)
    requires forall i :: 0 <= i < |t.created| ==> t.created[i] in t.count
    requires OwnKeys(t.created) == keys
    requires forall i :: 0 <= i < |keys| ==> keys[i] in t.count
    requires EntriesFor(keys, t.count) == es
    ensures Entries(t) == es
  {
  }

  lemma NotIndex(k: string)
    requires |k| > 0 && !IsDigit(k[0])
    ensures IsNamedKey(k)
  {
  }

  // ---------------------------------------------------------------------
  // Six posts by three users, all names that are not array indices
  // ---------------------------------------------------------------------

  lemma SampleBump1()
    ensures Bump(CountTable([], map[]), "user1")
      == CountTable(["user1"], map["user1" := 1])
  {
  }

  lemma SampleCounts1()
    ensures CountAuthors(["user1"])
      == CountTable(["user1"], map["user1" := 1])
  {
    SampleBump1();
    CountThrough([], "user1", ["user1"],
      CountTable([], map[]),
      CountTable(["user1"], map["user1" := 1]));
  }

  lemma SampleBump2()
    ensures Bump(CountTable(["user1"], map["user1" := 1]), "user2")
      == CountTable(["user1", "user2"], map["user1" := 1, "user2" := 1])
  {
  }

  lemma SampleCounts2()
    ensures CountAuthors(["user1", "user2"])
      == CountTable(["user1", "user2"], map["user1" := 1, "user2" := 1])
  {
    SampleCounts1();
    SampleBump2();
    CountThrough(["user1"], "user2", ["user1", "user2"],
      CountTable(["user1"], map["user1" := 1]),
      CountTable(["user1", "user2"], map["user1" := 1, "user2" := 1]));
  }

  lemma SampleBump3()
    ensures Bump(CountTable(["user1", "user2"], map["user1" := 1, "user2" := 1]), "user1")
      == CountTable(["user1", "user2"], map["user1" := 2, "user2" := 1])
  {
  }

  lemma SampleCounts3()
    ensures CountAuthors(["user1", "user2", "user1"])
      == CountTable(["user1", "user2"], map["user1" := 2, "user2" := 1])
  {
    SampleCounts2();
    SampleBump3();
    CountThrough(["user1", "user2"], "user1", ["user1", "user2", "user1"],
      CountTable(["user1", "user2"], map["user1" := 1, "user2" := 1]),
      CountTable(["user1", "user2"], map["user1" := 2, "user2" := 1]));
  }

  lemma SampleBump4()
    ensures Bump(CountTable(["user1", "user2"], map["user1" := 2, "user2" := 1]), "user3")
      == CountTable(["user1", "user2", "user3"], map["user1" := 2, "user2" := 1, "user3" := 1])
  {
  }

  lemma SampleCounts4()
    ensures CountAuthors(["user1", "user2", "user1", "user3"])
      == CountTable(["user1", "user2", "user3"], map["user1" := 2, "user2" := 1, "user3" := 1])
  {
    SampleCounts3();
    SampleBump4();
    CountThrough(["user1", "user2", "user1"], "user3", ["user1", "user2", "user1", "user3"],
      CountTable(["user1", "user2"], map["user1" := 2, "user2" := 1]),
      CountTable(["user1", "user2", "user3"], map["user1" := 2, "user2" := 1, "user3" := 1]));
  }

  lemma SampleBump5()
    ensures Bump(CountTable(["user1", "user2", "user3"], map["user1" := 2, "user2" := 1, "user3" := 1]), "user2")
      == CountTable(["user1", "user2", "user3"], map["user1" := 2, "user2" := 2, "user3" := 1])
  {
  }

  lemma SampleCounts5()
    ensures CountAuthors(["user1", "user2", "user1", "user3", "user2"])
      == CountTable(["user1", "user2", "user3"], map["user1" := 2, "user2" := 2, "user3" := 1])
  {
    SampleCounts4();
    SampleBump5();
    CountThrough(["user1", "user2", "user1", "user3"], "user2", ["user1", "user2", "user1", "user3", "user2"],
      CountTable(["user1", "user2", "user3"], map["user1" := 2, "user2" := 1, "user3" := 1]),
      CountTable(["user1", "user2", "user3"], map["user1" := 2, "user2" := 2, "user3" := 1]));
  }

  lemma SampleBump6()
    ensures Bump(CountTable(["user1", "user2", "user3"], map["user1" := 2, "user2" := 2, "user3" := 1]), "user1")
      == CountTable(["user1", "user2", "user3"], map["user1" := 3, "user2" := 2, "user3" := 1])
  {
  }

  lemma SampleCounts6()
    ensures CountAuthors(["user1", "user2", "user1", "user3", "user2", "user1"])
      == CountTable(["user1", "user2", "user3"], map["user1" := 3, "user2" := 2, "user3" := 1])
  {
    SampleCounts5();
    SampleBump6();
    CountThrough(["user1", "user2", "user1", "user3", "user2"], "user1", ["user1", "user2", "user1", "user3", "user2", "user1"],
      CountTable(["user1", "user2", "user3"], map["user1" := 2, "user2" := 2, "user3" := 1]),
      CountTable(["user1", "user2", "user3"], map["user1" := 3, "user2" := 2, "user3" := 1]));
  }

  lemma SampleKeys()
    ensures OwnKeys(["user1", "user2", "user3"]) == ["user1", "user2", "user3"]
  {
    var ks := ["user1", "user2", "user3"];
    NotIndex("user1");
    NotIndex("user2");
    NotIndex("user3");
    FilterNone(ks, IsArrayIndex);
    FilterAll(ks, IsNamedKey);
  }

  lemma SampleListing()
    ensures EntriesFor(["user1", "user2", "user3"], map["user1" := 3, "user2" := 2, "user3" := 1])
      == [UserCount("user1", 3), UserCount("user2", 2), UserCount("user3", 1)]
  {
    var r := EntriesFor(["user1", "user2", "user3"], map["user1" := 3, "user2" := 2, "user3" := 1]);
    assert r[0] == UserCount("user1", 3);
    assert r[1] == UserCount("user2", 2);
    assert r[2] == UserCount("user3", 1);
  }

  lemma SampleEntries()
    ensures Entries(CountTable(["user1", "user2", "user3"], map["user1" := 3, "user2" := 2, "user3" := 1]))
      == [UserCount("user1", 3), UserCount("user2", 2), UserCount("user3", 1)]
  {
    var t := CountTable(["user1", "user2", "user3"], map["user1" := 3, "user2" := 2, "user3" := 1]);
    var ks := ["user1", "user2", "user3"];
    var es := [UserCount("user1", 3), UserCount("user2", 2), UserCount("user3", 1)];
    assert forall i :: 0 <= i < |ks| ==> ks[i] in t.count;
    assert OwnKeys(t.created) == ks by { SampleKeys(); }
    assert EntriesFor(ks, t.count) == es by { SampleListing(); }
    EntriesThrough(t, ks, es);
  }

  lemma SampleAlreadySorted()
    ensures SortByCount([UserCount("user1", 3), UserCount("user2", 2), UserCount("user3", 1)])
      == [UserCount("user1", 3), UserCount("user2", 2), UserCount("user3", 1)]
  {
    SortedInputUnchanged([UserCount("user1", 3), UserCount("user2", 2), UserCount("user3", 1)]);
  }

  /** The full ranking from its stages: authors, counts, entries, and a
      sort that leaves the entries where they are. */
  lemma FullRankingThrough(posts: seq<Post>, authors: seq<string>, t: CountTable, es: seq<UserCount>)
    requires Authors(posts) == authors
    requires CountAuthors(authors) == t
    requires Entries(t) == es
    requires SortByCount(es) == es
    ensures FullRanking(posts) == es
  {
  }

  /** A full ranking of at most ten users is reported whole. */
  lemma ShortRankingWhole(posts: seq<Post>, es: seq<UserCount>)
    requires FullRanking(posts) == es
    requires |es| <= TopLimit
    ensures TopUsers(posts) == es
  {
    assert es[..|es|] == es;
  }

  lemma SampleAuthors()
    ensures Authors([ByAuthor("user1"), ByAuthor("user2"), ByAuthor("user1"),
                     ByAuthor("user3"), ByAuthor("user2"), ByAuthor("user1")])
      == ["user1", "user2", "user1", "user3", "user2", "user1"]
  {
  }

  /** user1 wrote three posts, user2 two and user3 one: they are listed in
      that order with those counts. */
  lemma SampleTopUsers()
    ensures TopUsers([ByAuthor("user1"), ByAuthor("user2"), ByAuthor("user1"),
                      ByAuthor("user3"), ByAuthor("user2"), ByAuthor("user1")])
      == [UserCount("user1", 3), UserCount("user2", 2), UserCount("user3", 1)]
  {
    SampleAuthors();
    SampleCounts6();
    SampleEntries();
    SampleAlreadySorted();
    var posts := [ByAuthor("user1"), ByAuthor("user2"), ByAuthor("user1"),
                  ByAuthor("user3"), ByAuthor("user2"), ByAuthor("user1")];
    var es := [UserCount("user1", 3), UserCount("user2", 2), UserCount("user3", 1)];
    FullRankingThrough(posts, ["user1", "user2", "user1", "user3", "user2", "user1"],
                       CountTable(["user1", "user2", "user3"], map["user1" := 3, "user2" := 2, "user3" := 1]), es);
    ShortRankingWhole(posts, es);
  }

  // ---------------------------------------------------------------------
  // Key order when some author names are array indices
  // ---------------------------------------------------------------------

  lemma MixedKeyKinds()
    ensures IsArrayIndex("42") && DecimalValue("42") == 42
    ensures IsArrayIndex("7") && DecimalValue("7") == 7
    ensures IsNamedKey("zed")
  {
    assert "42"[..1] == "4";
  }

  lemma MixedFilters()
    ensures Filter(["zed", "42", "7"], IsArrayIndex) == ["42", "7"]
    ensures Filter(["zed", "42", "7"], IsNamedKey) == ["zed"]
  {
    MixedKeyKinds();
    var ks := ["zed", "42", "7"];
    assert ks[1..] == ["42", "7"];
    assert ks[1..][1..] == ["7"];
  }

  lemma MixedIndexSort()
    ensures SortByRank(["42", "7"], DecimalValue) == ["7", "42"]
  {
    MixedKeyKinds();
    assert ["42", "7"][1..] == ["7"];
  }

  lemma MixedKeysSplit()
    ensures OwnKeys(["zed", "42", "7"]) == ["7", "42"] + ["zed"]
  {
    MixedFilters();
    MixedIndexSort();
    OwnKeysThrough(["zed", "42", "7"], ["42", "7"], ["7", "42"], ["zed"]);
  }

  /** "7" and "42" are listed before "zed" although "zed" was created first,
      and "7" before "42" by numeric value. */
  lemma MixedKeys()
    ensures OwnKeys(["zed", "42", "7"]) == ["7", "42", "zed"]
  {
    calc {
      OwnKeys(["zed", "42", "7"]);
      == { MixedKeysSplit(); }
      ["7", "42"] + ["zed"];
      == ["7", "42", "zed"];
    }
  }

  // ---------------------------------------------------------------------
  // The replies of the unit tests
  // ---------------------------------------------------------------------

  /** Headers with requests to spare. */
  const Spare := Upstream.RateLimit(Some(10), Some(60))

  /** A resolved token reply yields its token; a rejected one rejects with
      the same error. */
  lemma TokenSample(e: Error)
    ensures Upstream.AccessToken(Ok(Upstream.TokenGrant(Some("mockAccessToken")))) == Ok(Some("mockAccessToken"))
    ensures Upstream.AccessToken(Err(e)) == Err(e)
  {
  }

  /** With requests to spare the call does not sleep and returns the
      children untouched; with `data: null` it sleeps no more and fails. */
  lemma PostsSample(children: seq<Post>, nowMs: nat)
    ensures Upstream.TopPosts(Ok(Upstream.Reply(Spare, Some(Upstream.Listing(Some(children))))), nowMs)
      == Upstream.Fetched(Upstream.NoWait, Ok(Some(children)))
    ensures Upstream.TopPosts(Ok(Upstream.Reply(Spare, None)), nowMs)
      == Upstream.Fetched(Upstream.NoWait, Err(ListingMissing))
  {
  }

  /** The six-post listing through `getTopUsers`. */
  lemma UsersSample(nowMs: nat)
    ensures var posts := [ByAuthor("user1"), ByAuthor("user2"), ByAuthor("user1"),
                          ByAuthor("user3"), ByAuthor("user2"), ByAuthor("user1")];
      Upstream.TopUsers(Ok(Upstream.Reply(Spare, Some(Upstream.Listing(Some(posts))))), nowMs)
        == Upstream.Fetched(Upstream.NoWait,
             Ok([UserCount("user1", 3), UserCount("user2", 2), UserCount("user3", 1)]))
  {
    SampleTopUsers();
  }

  /** Exhausted headers with the reset at second 1060, read at 1000.5
      seconds: the call sleeps 60 seconds. */
  lemma ThrottleSample()
    ensures Upstream.ThrottleFor(Upstream.RateLimit(Some(0), Some(1060)), 1000500)
      == Upstream.Wait(Some(60000))
  {
  }

  // ---------------------------------------------------------------------
  // A connection whose cycles all fail
  // ---------------------------------------------------------------------

  /** A cycle in which every request is rejected by the HTTP client. */
  function Failing(): Session.Cycle {
    Session.Cycle(Err(RequestRejected("OAuth request failed")), Err(RequestRejected("Failed to fetch top posts")), 0,
                  Err(RequestRejected("Failed to fetch top posts")), 0)
  }

  /** Connected at 0, two firings, a close, then a firing that cannot
      happen any more: three cycles ran on schedule, each made only the
      token request, nothing was sent, and the timer is gone. */
  lemma FailingConnectionSample()
    ensures var s := Session.Run(Session.Connect(0, Failing()),
                                 [Session.Tick(Failing()), Session.Tick(Failing()), Session.Close, Session.Tick(Failing())]);
      && s.cycleStartsMs == [0, 10000, 20000]
      && s.requests == [Session.TokenRequest, Session.TokenRequest, Session.TokenRequest]
      && s.sent == []
      && !Session.IsOpen(s)
  {
    var events := [Session.Tick(Failing()), Session.Tick(Failing()), Session.Close, Session.Tick(Failing())];
    var s0 := Session.Connect(0, Failing());
    var s1 := Session.Step(s0, events[0]);
    var s2 := Session.Step(s1, events[1]);
    var s3 := Session.Step(s2, events[2]);
    assert events[1..][1..][1..][1..] == [];
    assert Session.Run(s0, events) == Session.Run(s3, events[1..][1..][1..]);
    Session.ClosedIsFinal(s3, events[1..][1..][1..]);
  }
}
