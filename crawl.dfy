/**
 * The crawl orchestrator: the process-wide `relationshipList`, the per-user
 * step getFriendsOfUser that appends to it, and getAllRelationships, which
 * runs that step for the tweet's author and then for every commenter.
 *
 * The account provider (`api.get_user` followed by the `api.friends`
 * cursor) is a map from the name asked for to the account it resolves to; a
 * name missing from the map is one whose lookup raises.
 */
module Crawl {
  import opened Wrappers
  import opened Lists
  import opened Friends

  /** One call of getFriendsOfUser: the user and the commenter list passed with it. */
  datatype Call = Call(user: string, commenters: seq<string>)

  /** `api.get_user(name)`: the account, or None when the lookup raises. */
  function Resolve(accounts: map<string, Account>, name: string): Option<Account>
  {
    if name in accounts then Some(accounts[name]) else None
  }

  /** The edges one call getFriendsOfUser(user, commenters) appends. */
  function EdgesOf(accounts: map<string, Account>, user: string, commenters: seq<string>): seq<Edge>
  {
    match Resolve(accounts, user)
    case None => []
    case Some(a) => Correlate(user, FriendSet(a.friendPages), commenters)
  }

  /** The edges appended by calling getFriendsOfUser(u, commenters) for each `u` of `users`, in order. */
  function EdgesOfEach(accounts: map<string, Account>, users: seq<string>, commenters: seq<string>): seq<Edge>
  {
    if users == [] then []
    else
      var n := |users| - 1;
      EdgesOfEach(accounts, users[..n], commenters) + EdgesOf(accounts, users[n], commenters)
  }

  /** The calls getFriendsOfUser(u, commenters), one per `u` of `users`, in order. */
  ghost function CallsOfEach(users: seq<string>, commenters: seq<string>): seq<Call>
  {
    if users == [] then []
    else CallsOfEach(users[..|users| - 1], commenters) + [Call(users[|users| - 1], commenters)]
  }

  /**
   * The edges getAllRelationships appends: the author's against the
   * repliers, then each replier's against the repliers and the author.
   */
  function Relate(accounts: map<string, Account>, author: string, commenters: seq<string>): seq<Edge>
  {
    EdgesOf(accounts, author, commenters) + EdgesOfEach(accounts, commenters, commenters + [author])
  }

  /** The friend pages getFriendsOfUser(user, _) reads, each followed by one cooldown. */
  function PagesRead(accounts: map<string, Account>, user: string): nat
  {
    if user in accounts then |accounts[user].friendPages| else 0
  }

  /** The friend pages read by calling getFriendsOfUser for each of `users`. */
  function PagesOfEach(accounts: map<string, Account>, users: seq<string>): nat
  {
    if users == [] then 0
    else PagesOfEach(accounts, users[..|users| - 1]) + PagesRead(accounts, users[|users| - 1])
  }

  /** The follow set of a resolvable user. */
  function FollowsOf(accounts: map<string, Account>, user: string): set<string>
    requires user in accounts
  {
    FriendSet(accounts[user].friendPages)
  }

  /** A round over `users` calls getFriendsOfUser once per user, at the user's index, with the same list. */
  lemma {:induction false} CallsOfEachAt(users: seq<string>, commenters: seq<string>)
    ensures |CallsOfEach(users, commenters)| == |users|
    ensures forall i :: 0 <= i < |users| ==> CallsOfEach(users, commenters)[i] == Call(users[i], commenters)
  {
    if users != [] {
      var n := |users| - 1;
      CallsOfEachAt(users[..n], commenters);
    }
  }

  /** An edge comes from a round over `users` iff its follower is one of them, resolvable, and follows a listed name. */
  lemma {:induction false} EdgesOfEachMember(accounts: map<string, Account>, users: seq<string>, commenters: seq<string>, e: Edge)
    ensures e in EdgesOfEach(accounts, users, commenters)
        <==> e.follower in users && e.follower in accounts
             && e.followed in FollowsOf(accounts, e.follower) && e.followed in commenters
  {
    if users != [] {
      var n := |users| - 1;
      EdgesOfEachMember(accounts, users[..n], commenters, e);
      assert users == users[..n] + [users[n]];
      if users[n] in accounts {
        CorrelateMember(users[n], FollowsOf(accounts, users[n]), commenters, e);
      }
    }
  }

  /**
   * An edge of the whole run: its follower resolves and follows its target,
   * and either the follower is the author and the target a replier, or the
   * follower is a replier and the target a replier or the author.
   */
  lemma RelateMember(accounts: map<string, Account>, author: string, commenters: seq<string>, e: Edge)
    ensures e in Relate(accounts, author, commenters)
        <==> e.follower in accounts && e.followed in FollowsOf(accounts, e.follower)
             && ((e.follower == author && e.followed in commenters)
                 || (e.follower in commenters && e.followed in commenters + [author]))
  {
    EdgesOfEachMember(accounts, commenters, commenters + [author], e);
    if author in accounts {
      CorrelateMember(author, FollowsOf(accounts, author), commenters, e);
    }
  }

  /** A user whose lookup fails is the follower of no edge. */
  lemma UnresolvedHasNoEdges(accounts: map<string, Account>, author: string, commenters: seq<string>, name: string)
    requires name !in accounts
    ensures forall e :: e in Relate(accounts, author, commenters) ==> e.follower != name
  {
    forall e | e in Relate(accounts, author, commenters)
      ensures e.follower != name
    {
      RelateMember(accounts, author, commenters, e);
    }
  }

  /** Every edge of a round over `users` starts at one of them. */
  lemma EdgesOfEachFollowers(accounts: map<string, Account>, users: seq<string>, commenters: seq<string>)
    ensures forall e :: e in EdgesOfEach(accounts, users, commenters) ==> e.follower in users
  {
    forall e | e in EdgesOfEach(accounts, users, commenters)
      ensures e.follower in users
    {
      EdgesOfEachMember(accounts, users, commenters, e);
    }
  }

  /** Distinct users against a duplicate-free list yield no edge twice. */
  lemma {:induction false} EdgesOfEachNoDuplicates(accounts: map<string, Account>, users: seq<string>, commenters: seq<string>)
    requires NoDuplicates(users) && NoDuplicates(commenters)
    ensures NoDuplicates(EdgesOfEach(accounts, users, commenters))
  {
    if users != [] {
      var n := |users| - 1;
      var init := users[..n];
      EdgesOfEachNoDuplicates(accounts, init, commenters);
      EdgesOfEachFollowers(accounts, init, commenters);
      var last := EdgesOf(accounts, users[n], commenters);
      if users[n] in accounts {
        CorrelateNoDuplicates(users[n], FollowsOf(accounts, users[n]), commenters);
        forall e | e in last
          ensures e.follower == users[n]
        {
          CorrelateMember(users[n], FollowsOf(accounts, users[n]), commenters, e);
        }
      }
      assert users[n] !in init;
      ConcatNoDuplicates(EdgesOfEach(accounts, init, commenters), last);
    }
  }

  /**
   * Each edge appears once, provided the repliers are distinct (they come
   * from a set) and the author is not among them.
   */
  lemma RelateNoDuplicates(accounts: map<string, Account>, author: string, commenters: seq<string>)
    requires NoDuplicates(commenters) && author !in commenters
    ensures NoDuplicates(Relate(accounts, author, commenters))
  {
    var all := commenters + [author];
    assert NoDuplicates(all) by {
      ConcatNoDuplicates(commenters, [author]);
    }
    EdgesOfEachNoDuplicates(accounts, commenters, all);
    EdgesOfEachFollowers(accounts, commenters, all);
    var first := EdgesOf(accounts, author, commenters);
    if author in accounts {
      CorrelateNoDuplicates(author, FollowsOf(accounts, author), commenters);
      forall e | e in first
        ensures e.follower == author
      {
        CorrelateMember(author, FollowsOf(accounts, author), commenters, e);
      }
    }
    ConcatNoDuplicates(first, EdgesOfEach(accounts, commenters, all));
  }

  /**
   * When the author also replied under the tweet, the author is processed
   * twice and the author's edges to the repliers appear twice.
   */
  lemma AuthorAmongRepliersDuplicates()
    ensures var accounts := map["alice" := Account([["bob"]])];
            Relate(accounts, "alice", ["bob", "alice"])
            == [Edge("alice", "bob"), Edge("alice", "bob")]
  {
    var accounts := map["alice" := Account([["bob"]])];
    var friends := {"bob"};
    assert FriendSet([["bob"]]) == friends by {
      assert [["bob"]][0][0] == "bob";
    }
    var list := ["bob", "alice"];
    var all := list + ["alice"];
    assert list[..1] == ["bob"] && list[..1][..0] == [] && all[..2] == list;
    assert Correlate("alice", friends, ["bob"]) == [Edge("alice", "bob")];
    assert Correlate("alice", friends, list) == [Edge("alice", "bob")];
    assert Correlate("alice", friends, all) == [Edge("alice", "bob")];
    assert EdgesOf(accounts, "alice", list) == [Edge("alice", "bob")];
    assert EdgesOf(accounts, "alice", all) == [Edge("alice", "bob")];
    assert EdgesOf(accounts, "bob", all) == [];
    assert EdgesOfEach(accounts, [], all) == [];
    assert EdgesOfEach(accounts, ["bob"], all) == [];
    assert EdgesOfEach(accounts, list, all) == EdgesOfEach(accounts, ["bob"], all) + EdgesOf(accounts, "alice", all);
  }

  /**
   * alice's tweet is answered by bob; alice follows bob and bob follows
   * alice: the run produces the two edges, alice's first.
   */
  lemma TwoMutualFollowers()
    ensures var accounts := map["alice" := Account([["bob"]]), "bob" := Account([["carol"], ["alice"]])];
            Relate(accounts, "alice", ["bob"]) == [Edge("alice", "bob"), Edge("bob", "alice")]
  {
    var accounts := map["alice" := Account([["bob"]]), "bob" := Account([["carol"], ["alice"]])];
    assert FriendSet([["bob"]]) == {"bob"} by {
      assert [["bob"]][0][0] == "bob";
    }
    var bobs: seq<seq<string>> := [["carol"], ["alice"]];
    assert FriendSet(bobs) == {"carol", "alice"} by {
      assert bobs[0][0] == "carol" && bobs[1][0] == "alice";
    }
    var all := ["bob"] + ["alice"];
    assert ["bob"][..0] == [] && all[..1] == ["bob"];
    assert Correlate("alice", {"bob"}, ["bob"]) == [Edge("alice", "bob")];
    assert Correlate("bob", {"carol", "alice"}, all) == [Edge("bob", "alice")];
    assert EdgesOf(accounts, "alice", ["bob"]) == [Edge("alice", "bob")];
    assert EdgesOfEach(accounts, ["bob"], all) == [Edge("bob", "alice")];
  }

  /** Processing one more replier extends the round's edges, calls and pages by that replier's. */
  lemma RoundStep(accounts: map<string, Account>, commenters: seq<string>, participants: seq<string>, x: nat)
    requires x < |commenters|
    ensures EdgesOfEach(accounts, commenters[..x + 1], participants)
         == EdgesOfEach(accounts, commenters[..x], participants) + EdgesOf(accounts, commenters[x], participants)
    ensures CallsOfEach(commenters[..x + 1], participants)
         == CallsOfEach(commenters[..x], participants) + [Call(commenters[x], participants)]
    ensures PagesOfEach(accounts, commenters[..x + 1])
         == PagesOfEach(accounts, commenters[..x]) + PagesRead(accounts, commenters[x])
  {
    assert commenters[..x + 1][..x] == commenters[..x];
  }

  /** Concatenation is associative. */
  lemma AppendAssoc<T>(a: seq<T>, b: seq<T>, c: seq<T>)
    ensures a + b + c == a + (b + c)
  {
  }

  /** The state of a run: the shared edge list and the account provider it reads. */
  class Crawler {
    /** The account provider. */
    const accounts: map<string, Account>
    /** `relationshipList`, in the order the edges were appended. */
    var relationships: seq<Edge>
    /** Every call of getFriendsOfUser so far, in order. */
    ghost var calls: seq<Call>
    /** The cooldowns (`time.sleep(60)`) taken so far, one after each friend page. */
    ghost var cooldowns: nat

    /** A run starts with an empty `relationshipList`. */
    constructor (accounts: map<string, Account>)
      ensures this.accounts == accounts
      ensures relationships == [] && calls == [] && cooldowns == 0
    {
      this.accounts := accounts;
      relationships := [];
      calls := [];
      cooldowns := 0;
    }

    /**
     * getFriendsOfUser: look the user up; when that fails, append nothing;
     * otherwise read every page of friends (one cooldown per page), make
     * the friend set, and append `Edge(user, c)` for each commenter `c` in
     * it, in list order.
     */
    method GetFriendsOfUser(user: string, commenters: seq<string>)
      modifies this
      ensures calls == old(calls) + [Call(user, commenters)]
      ensures user !in accounts ==> relationships == old(relationships)
      ensures user in accounts ==>
        relationships == old(relationships) + Correlate(user, FollowsOf(accounts, user), commenters)
      ensures cooldowns == old(cooldowns) + PagesRead(accounts, user)
      ensures relationships == old(relationships) + EdgesOf(accounts, user, commenters)
    {
      calls := calls + [Call(user, commenters)];
      var resolved := Resolve(accounts, user);
      if resolved.None? {
        // the error-file line is not modelled
        return;
      }
      var tempList, counter := FetchFriendPages(resolved.value.friendPages);
      cooldowns := cooldowns + counter;
      var friends := BuildFriendSet(tempList);
      assert friends == FollowsOf(accounts, user);
      for x := 0 to |commenters|
        invariant relationships == old(relationships) + Correlate(user, friends, commenters[..x])
        invariant calls == old(calls) + [Call(user, commenters)]
        invariant cooldowns == old(cooldowns) + |accounts[user].friendPages|
      {
        assert commenters[..x + 1][..x] == commenters[..x];
        if commenters[x] in friends {
          relationships := relationships + [Edge(user, commenters[x])];
        }
      }
      assert commenters[..|commenters|] == commenters;
    }

    /**
     * getAllRelationships: the author first, against the repliers only;
     * then the author is appended to the list (returned as `participants`);
     * then each original replier in order, against the extended list.
     */
    method GetAllRelationships(author: string, commenters: seq<string>) returns (participants: seq<string>)
      modifies this
      ensures participants == commenters + [author]
      ensures calls == old(calls) + [Call(author, commenters)] + CallsOfEach(commenters, participants)
      ensures relationships == old(relationships) + Relate(accounts, author, commenters)
      ensures cooldowns == old(cooldowns) + PagesRead(accounts, author) + PagesOfEach(accounts, commenters)
    {
      GetFriendsOfUser(author, commenters);
      participants := commenters + [author];
      ghost var edges := relationships;
      ghost var history := calls;
      ghost var slept := cooldowns;
      for x := 0 to |participants| - 1
        invariant relationships == edges + EdgesOfEach(accounts, commenters[..x], participants)
        invariant calls == history + CallsOfEach(commenters[..x], participants)
        invariant cooldowns == slept + PagesOfEach(accounts, commenters[..x])
      {
        assert participants[x] == commenters[x];
        RoundStep(accounts, commenters, participants, x);
        AppendAssoc(edges, EdgesOfEach(accounts, commenters[..x], participants), EdgesOf(accounts, commenters[x], participants));
        AppendAssoc(history, CallsOfEach(commenters[..x], participants), [Call(commenters[x], participants)]);
        GetFriendsOfUser(participants[x], participants);
      }
      assert commenters[..|commenters|] == commenters;
      AppendAssoc(old(relationships), EdgesOf(accounts, author, commenters), EdgesOfEach(accounts, commenters, participants));
      AppendAssoc(old(calls), [Call(author, commenters)], CallsOfEach(commenters, participants));
    }
  }
}
