# Twitter thread relationships, modelled in Dafny

This project models the core of `twitterDataExtraction.py`. The script takes
one tweet and its author. It collects the users who replied to that tweet.
It then finds which of those users, and the author, follow each other. The
result is a list of directed edges `[follower, followed]`.

The network is replaced by plain input values:

- The reply search cursor is a finite sequence of `ReplyEvent`s, one per
  call of `next()`. An event is an item (a `Reply`), a rate-limit signal, a
  Tweepy error, another exception, or StopIteration. Running past the end of
  the sequence is also StopIteration. The `.items(1000)` cap is the constant
  `MaxItems`. It is checked before each event is consumed, as the cursor
  checks its limit before each fetch.
- The `in_reply_to_status_id_str` attribute is `Absent`, `NullId` (Python's
  `None`) or `Id(s)` for a string `s`, which may be the text `"None"`.
- `api.get_status` is an `Option` holding the tweet's `id_str`. A failed
  lookup is not caught by the script, so it ends the run. The model returns
  `None`.
- `api.get_user` followed by the `api.friends` cursor is a map from a name
  to an `Account`. An `Account` holds its friends' screen names page by page.
  A name missing from the map is a lookup that raises.

Modules, one per component of the script:

- `Replies` (`replies.dfy`): getCertainTweetAndComments. `Collect` says which
  names the loop gathers. The method `GetCertainTweetAndComments` is proved
  to return exactly those names, each once.
- `Friends` (`friends.dfy`): the page loop and friend set of
  getFriendsOfUser, and `Correlate`, the edges it appends.
- `Crawl` (`crawl.dfy`): the class `Crawler`. It holds the global
  `relationshipList` as the field `relationships` and has the methods
  `GetFriendsOfUser` and `GetAllRelationships`. A ghost history `calls`
  records every call of getFriendsOfUser. A ghost counter `cooldowns` counts
  the 60-second sleeps, one after each friend page.
- `Lists` and `Wrappers`: small helpers (duplicate-freedom, the element set
  of a list, `Option`).

Behaviour of the code worth knowing, each stated by a member:

- An edge can be appended twice. When the author also replied to their own
  tweet, the author is processed twice, once first and once as a replier.
  `Crawl.AuthorAmongRepliersDuplicates` exhibits the duplicate edge.
  `Crawl.RelateNoDuplicates` proves that no edge is duplicated when the
  author is not among the repliers.
- The friend-page cursor has no exception handler. An error while paging
  through a user's friends ends the whole run, not only that user's fetch.
  This path is not modelled (see below).
- The first test of the reply loop skips records that lack the
  `in_reply_to_status_id_str` attribute or hold the text `"None"`. A record
  holding Python's `None` passes that test, but its comparison with the
  tweet's `id_str` always fails (`Replies.CollectMember`). An empty string is
  not skipped either.
- The replier list is built with `list(set)`, so its order is unspecified.
  `Replies.ListOfSet` leaves the order open.

## Model

| member | source | states |
|---|---|---|
| `Replies.GetCertainTweetAndComments` | twitterDataExtraction.py:46-105 | A failed tweet lookup gives `None`. Otherwise the returned list holds exactly the names in `Collect(events, id_str, 1000)`, with no duplicates. |
| `Replies.Reach` | twitterDataExtraction.py:58-95 | The loop consumes only items and rate-limit signals, at most the cap's number of items. It stops only at the end of the cursor, after the 1000th item, or at the first TweepError, other exception or StopIteration. |
| `Replies.CollectMember` | twitterDataExtraction.py:61-79 | A name is collected iff some record the loop reaches passes the skip test and has `in_reply_to_status_id_str` equal to the tweet's `id_str`, under that name. |
| `Replies.NoneNeverMatches` | twitterDataExtraction.py:66-67 | The `"None"` test runs before the comparison: even a target id of `"None"` collects no one. |
| `Replies.RateLimitChangesNothing` | twitterDataExtraction.py:81-84 | Inserting a rate-limit signal anywhere leaves the collected set unchanged; the loop goes on. |
| `Replies.StopKeepsGathered` | twitterDataExtraction.py:86-95 | After a TweepError, another exception or StopIteration, later events do not count and the names gathered before are kept. |
| `Replies.BudgetBoundsCollect` | twitterDataExtraction.py:58 | Once 1000 items have been handed out, later events do not change the result. |
| `Replies.ThreadWithOneDirectReply` | twitterDataExtraction.py:66-79 | For tweet 42, replies to 42 (bob), to 99 (carol) and with the text "None" (dave) collect only bob. |
| `Replies.ListOfSet` | twitterDataExtraction.py:98 | `list(set)` holds every element of the set exactly once, so its length is the set's size. |
| `Friends.FetchFriendPages` | twitterDataExtraction.py:123-134 | `tempList` is the pages in order, its names are exactly the friend set, and the counter (one sleep per page) equals the number of pages. |
| `Friends.FlattenElements` | twitterDataExtraction.py:127-129 | The names of the concatenated pages are exactly the names appearing on some page. |
| `Friends.BuildFriendSet` | twitterDataExtraction.py:137-139 | A name is in `aSetFriends` iff it is in `tempList`. |
| `Friends.CorrelateMember` | twitterDataExtraction.py:152-154 | An edge is appended iff it starts at the user and ends at a commenter in the friend set. |
| `Friends.CorrelateAppend` | twitterDataExtraction.py:152-154 | The edges follow list order: those for a list are those for its first part, then those for the rest. |
| `Friends.CorrelateNoDuplicates` | twitterDataExtraction.py:152-154 | A duplicate-free commenter list yields no edge twice. |
| `Crawl.Crawler.constructor` | twitterDataExtraction.py:40 | A run starts with an empty relationship list, no calls and no sleeps. |
| `Crawl.Crawler.GetFriendsOfUser` | twitterDataExtraction.py:107-156 | An unknown user leaves the edge list unchanged. A known user's edges `Edge(user, c)` are appended after the old list, for each commenter `c` in the friend set, in order. The sleeps grow by the number of pages. The call is recorded. |
| `Crawl.Crawler.GetAllRelationships` | twitterDataExtraction.py:158-169 | The author is processed first, against the original list. Then the author is appended to the list. Then each original replier is processed once, in order, against the extended list. The edge list only grows, by `Relate`. The sleeps grow by the friend pages of the author and of every replier whose lookup succeeds. |
| `Crawl.CallsOfEachAt` | twitterDataExtraction.py:168-169 | The i-th call of the replier round is for the i-th replier, with the extended list, and there is one call per replier. |
| `Crawl.EdgesOfEachMember` | twitterDataExtraction.py:168-169 | An edge of the replier round starts at a resolvable replier and ends at a listed name that replier follows. |
| `Crawl.EdgesOfEachFollowers` | twitterDataExtraction.py:168-169 | Every edge of the replier round starts at one of the repliers. |
| `Crawl.RelateMember` | twitterDataExtraction.py:158-169 | An edge of the run has a resolvable follower who follows its target. Either the follower is the author and the target a replier, or the follower is a replier and the target a replier or the author. |
| `Crawl.UnresolvedHasNoEdges` | twitterDataExtraction.py:111-119 | A user whose lookup fails is the follower of no edge of the run. |
| `Crawl.EdgesOfEachNoDuplicates` | twitterDataExtraction.py:168-169 | Distinct repliers processed against a duplicate-free list produce no edge twice. |
| `Crawl.RelateNoDuplicates` | twitterDataExtraction.py:158-169 | With distinct repliers and the author not among them, no edge of the run appears twice. |
| `Crawl.AuthorAmongRepliersDuplicates` | twitterDataExtraction.py:162-169 | When the author is also a replier, the author's edge to a replier is appended twice. |
| `Crawl.TwoMutualFollowers` | twitterDataExtraction.py:158-169 | alice's tweet answered by bob, where each follows the other, yields exactly `alice→bob` then `bob→alice`. |

## Left out

- Authentication and construction of the API object (lines 31-36): configuration and a foreign library.
- The network calls `api.get_status`, `api.search`, `api.get_user` and `api.friends`: they are input values (an option, an event sequence, a map of accounts). Pagination and rate-limit handling inside Tweepy are not modelled.
- `time.sleep`: wall-clock waiting. The friend-page sleeps are counted by `Crawler.cooldowns`. The reply loop's sleep on a rate-limit signal is not counted.
- An exception raised while paging through a user's friends: the script does not catch it, so the run ends. The friend pages are taken as always complete.
- The account provider is a fixed map, so every lookup of the same name gives the same account and pages. A real provider may answer two calls differently.
- The error-file line written when a user lookup fails, the per-user friend file, and the CSV writer (lines 116-118, 142-146, 176-183): file output. The CSV writer also depends on the `csv` module's quoting rules.
- All console output, including `printRelationships` (lines 171-174).
- `main` and `getData` (lines 185-204): wiring with hard-coded configuration. They run the reply collector, then getAllRelationships, then the CSV writer.
- `commenterList` is a Python list that getAllRelationships extends in place, so the caller sees the author appended. The model returns the extended list as `participants` instead.
- An exception raised inside the reply loop's body, such as a record without a `user`, ends the loop like any other exception. The model only raises exceptions from `next()`.
