/**
 * The follow-set retriever and the relationship correlator of
 * getFriendsOfUser: the friends of a resolved account are gathered page by
 * page into one list, turned into a set, and each commenter found in that
 * set yields one directed edge.
 */
module Friends {
  import opened Lists

  /** One relationship, `[aUsername, commenter]` in the source: `follower` follows `followed`. */
  datatype Edge = Edge(follower: string, followed: string)

  /**
   * The account `api.get_user` resolves a name to, with the screen names of
   * its friends as the `api.friends` cursor delivers them, page by page.
   */
  datatype Account = Account(friendPages: seq<seq<string>>)

  /** `tempList` once every page has been appended to it, in page order. */
  function Flatten(pages: seq<seq<string>>): seq<string>
  {
    if pages == [] then [] else Flatten(pages[..|pages| - 1]) + pages[|pages| - 1]
  }

  /** Every screen name that appears on some page. */
  function FriendSet(pages: seq<seq<string>>): set<string>
  {
    set p, j | 0 <= p < |pages| && 0 <= j < |pages[p]| :: pages[p][j]
  }

  /** The flattened list holds exactly the names on the pages. */
  lemma {:induction false} FlattenElements(pages: seq<seq<string>>)
    ensures Elements(Flatten(pages)) == FriendSet(pages)
  {
    if pages != [] {
      var n := |pages| - 1;
      var init := pages[..n];
      FlattenElements(init);
      forall x | x in FriendSet(pages)
        ensures x in Elements(Flatten(pages))
      {
        var p, j :| 0 <= p < |pages| && 0 <= j < |pages[p]| && pages[p][j] == x;
        if p < n {
          assert init[p][j] == x;
          assert x in FriendSet(init);
        } else {
          assert x in pages[n];
        }
      }
      forall x | x in Elements(Flatten(pages))
        ensures x in FriendSet(pages)
      {
        if x in Flatten(init) {
          assert x in FriendSet(init);
          var p, j :| 0 <= p < |init| && 0 <= j < |init[p]| && init[p][j] == x;
          assert pages[p][j] == x;
        } else {
          assert x in pages[n];
          var j :| 0 <= j < |pages[n]| && pages[n][j] == x;
        }
      }
    }
  }

  /**
   * The page loop of getFriendsOfUser: `tempList` is extended by each page
   * and `aCounter` goes up once per page, after that page's cooldown.
   */
  method FetchFriendPages(pages: seq<seq<string>>) returns (tempList: seq<string>, counter: nat)
    ensures Elements(tempList) == FriendSet(pages)
    ensures tempList == Flatten(pages)
    ensures counter == |pages|
  {
    tempList, counter := [], 0;
    for p := 0 to |pages|
      invariant tempList == Flatten(pages[..p])
      invariant counter == p
    {
      assert pages[..p + 1][..p] == pages[..p];
      tempList := tempList + pages[p];
      // time.sleep(60)
      counter := counter + 1;
    }
    assert pages[..|pages|] == pages;
    FlattenElements(pages);
  }

  /** The loop that adds every name of `tempList` to `aSetFriends`. */
  method BuildFriendSet(tempList: seq<string>) returns (friends: set<string>)
    ensures forall x :: x in friends <==> x in tempList
  {
    friends := {};
    for i := 0 to |tempList|
      invariant forall x :: x in friends <==> x in tempList[..i]
    {
      assert tempList[..i + 1] == tempList[..i] + [tempList[i]];
      friends := friends + {tempList[i]};
    }
    assert tempList[..|tempList|] == tempList;
  }

  /**
   * The edges getFriendsOfUser appends for `user`: one `Edge(user, c)` for
   * each commenter `c` in the friend set, in the order of the list.
   */
  function Correlate(user: string, friends: set<string>, commenters: seq<string>): seq<Edge>
  {
    if commenters == [] then []
    else
      var n := |commenters| - 1;
      Correlate(user, friends, commenters[..n])
      + (if commenters[n] in friends then [Edge(user, commenters[n])] else [])
  }

  /** An edge is produced iff it starts at the user and ends at a commenter who is a friend. */
  lemma {:induction false} CorrelateMember(user: string, friends: set<string>, commenters: seq<string>, e: Edge)
    ensures e in Correlate(user, friends, commenters)
        <==> e.follower == user && e.followed in friends && e.followed in commenters
  {
    if commenters != [] {
      var n := |commenters| - 1;
      CorrelateMember(user, friends, commenters[..n], e);
      assert commenters == commenters[..n] + [commenters[n]];
    }
  }

  /** The edges for a list are those for its first part followed by those for the rest. */
  lemma {:induction false} CorrelateAppend(user: string, friends: set<string>, a: seq<string>, b: seq<string>)
    ensures Correlate(user, friends, a + b) == Correlate(user, friends, a) + Correlate(user, friends, b)
  {
    if b == [] {
      assert a + b == a;
    } else {
      var n := |b| - 1;
      assert (a + b)[..|a + b| - 1] == a + b[..n];
      CorrelateAppend(user, friends, a, b[..n]);
    }
  }

  /** A commenter list without duplicates yields no edge twice. */
  lemma {:induction false} CorrelateNoDuplicates(user: string, friends: set<string>, commenters: seq<string>)
    requires NoDuplicates(commenters)
    ensures NoDuplicates(Correlate(user, friends, commenters))
  {
    if commenters != [] {
      var n := |commenters| - 1;
      var init := commenters[..n];
      CorrelateNoDuplicates(user, friends, init);
      var last := if commenters[n] in friends then [Edge(user, commenters[n])] else [];
      forall e | e in Correlate(user, friends, init)
        ensures e !in last
      {
        CorrelateMember(user, friends, init, e);
        assert commenters[n] !in init;
      }
      ConcatNoDuplicates(Correlate(user, friends, init), last);
    }
  }
}
