/**
 * The reply collector: walks the reply-search cursor of one tweet and keeps,
 * as a set, the screen names of the users who replied directly to it.
 *
 * The search cursor is given as a finite sequence of events, one per call of
 * `next()`; running past the end of the sequence is the cursor's
 * StopIteration.
 */
module Replies {
  import opened Wrappers
  import opened Lists

  /** The cursor hands out at most this many items (`.items(1000)`). */
  const MaxItems: nat := 1000

  /** The `in_reply_to_status_id_str` attribute of a search result. */
  datatype ReplyTo =
    | Absent             // the object has no such attribute
    | NullId             // the attribute holds Python's None
    | Id(idStr: string)  // the attribute holds a string, possibly the text "None"

  /** What one call of `next()` on the reply cursor produces. */
  datatype ReplyEvent =
    | Reply(replyTo: ReplyTo, screenName: string)  // an item of the search
    | RateLimited                                  // tweepy.RateLimitError
    | TweepErr                                     // any other tweepy.TweepError
    | OtherErr                                     // any other exception
    | End                                          // StopIteration

  /** The first test of the loop body: such a record is skipped outright. */
  predicate Skipped(r: ReplyTo) {
    r.Absent? || r == Id("None")
  }

  /** The record passes the skip test and names the target tweet: its author is kept. */
  predicate RepliesTo(e: ReplyEvent, target: string) {
    e.Reply? && !Skipped(e.replyTo) && e.replyTo == Id(target)
  }

  /** Number of items among the events. */
  function ItemCount(events: seq<ReplyEvent>): nat {
    if events == [] then 0
    else (if events[0].Reply? then 1 else 0) + ItemCount(events[1..])
  }

  /**
   * How many events the loop consumes when the cursor may still hand out
   * `budget` items: it goes on over items and rate-limit signals and stops
   * at an error, at StopIteration, or when the item budget is used up.
   */
  function Reach(events: seq<ReplyEvent>, budget: nat): (k: nat)
    ensures k <= |events|
    ensures forall i :: 0 <= i < k ==> events[i].Reply? || events[i].RateLimited?
    ensures ItemCount(events[..k]) <= budget
    ensures k == |events| || ItemCount(events[..k]) == budget || !(events[k].Reply? || events[k].RateLimited?)
  {
    if |events| == 0 || budget == 0 then 0
    else
      match events[0]
      case Reply(_, _) =>
        var k := Reach(events[1..], budget - 1);
        assert events[..1 + k][1..] == events[1..][..k];
        1 + k
      case RateLimited =>
        var k := Reach(events[1..], budget);
        assert events[..1 + k][1..] == events[1..][..k];
        1 + k
      case _ => 0
  }

  /**
   * The screen names the loop adds to `aSetCommenters` for the tweet whose
   * `id_str` is `target`, when the cursor may still hand out `budget` items.
   */
  function Collect(events: seq<ReplyEvent>, target: string, budget: nat): set<string>
  {
    if |events| == 0 || budget == 0 then {}
    else match events[0]
      case Reply(replyTo, name) =>
        (if Skipped(replyTo) then {} else if replyTo == Id(target) then {name} else {})
        + Collect(events[1..], target, budget - 1)
      case RateLimited => Collect(events[1..], target, budget)
      case _ => {}
  }

  /**
   * A name is collected iff some record the loop reaches replies to the
   * target tweet under that name.
   */
  lemma {:induction false} CollectMember(events: seq<ReplyEvent>, target: string, budget: nat, x: string)
    ensures x in Collect(events, target, budget)
        <==> exists i :: 0 <= i < Reach(events, budget) && RepliesTo(events[i], target) && events[i].screenName == x
  {
    if |events| == 0 || budget == 0 {
    } else {
      var rest := events[1..];
      match events[0]
      case Reply(_, _) =>
        CollectMember(rest, target, budget - 1, x);
        ShiftedWitness(events, target, Reach(events, budget), x);
      case RateLimited =>
        CollectMember(rest, target, budget, x);
        ShiftedWitness(events, target, Reach(events, budget), x);
      case _ =>
    }
  }

  /** A witness in `events[..k]` is at index 0 or is a witness in `events[1..][..k-1]`. */
  lemma ShiftedWitness(events: seq<ReplyEvent>, target: string, k: nat, x: string)
    requires 1 <= k <= |events|
    ensures (exists i :: 0 <= i < k && RepliesTo(events[i], target) && events[i].screenName == x)
        <==> (RepliesTo(events[0], target) && events[0].screenName == x)
             || (exists i :: 0 <= i < k - 1 && RepliesTo(events[1..][i], target) && events[1..][i].screenName == x)
  {
    if exists i :: 0 <= i < k && RepliesTo(events[i], target) && events[i].screenName == x {
      var i :| 0 <= i < k && RepliesTo(events[i], target) && events[i].screenName == x;
      if i > 0 {
        assert events[1..][i - 1] == events[i];
      }
    }
    if exists i :: 0 <= i < k - 1 && RepliesTo(events[1..][i], target) && events[1..][i].screenName == x {
      var i :| 0 <= i < k - 1 && RepliesTo(events[1..][i], target) && events[1..][i].screenName == x;
      assert events[i + 1] == events[1..][i];
    }
  }

  /**
   * The "None" test runs before the comparison: even a tweet whose `id_str`
   * were the text "None" collects no one.
   */
  lemma {:induction false} NoneNeverMatches(events: seq<ReplyEvent>, budget: nat)
    ensures Collect(events, "None", budget) == {}
  {
    if |events| > 0 && budget > 0 {
      match events[0]
      case Reply(_, _) => NoneNeverMatches(events[1..], budget - 1);
      case RateLimited => NoneNeverMatches(events[1..], budget);
      case _ =>
    }
  }

  /** A rate-limit signal changes nothing: the loop waits and goes on. */
  lemma {:induction false} RateLimitChangesNothing(pre: seq<ReplyEvent>, post: seq<ReplyEvent>, target: string, budget: nat)
    ensures Collect(pre + [RateLimited] + post, target, budget) == Collect(pre + post, target, budget)
  {
    if budget == 0 {
    } else if pre == [] {
      assert (pre + [RateLimited] + post)[1..] == pre + post;
    } else {
      assert (pre + [RateLimited] + post)[1..] == pre[1..] + [RateLimited] + post;
      assert (pre + post)[1..] == pre[1..] + post;
      match pre[0]
      case Reply(_, _) => RateLimitChangesNothing(pre[1..], post, target, budget - 1);
      case RateLimited => RateLimitChangesNothing(pre[1..], post, target, budget);
      case _ =>
    }
  }

  /**
   * A TweepError, another exception or StopIteration ends the loop: nothing
   * after it counts, and what was gathered before it is kept.
   */
  lemma {:induction false} StopKeepsGathered(pre: seq<ReplyEvent>, stop: ReplyEvent, post: seq<ReplyEvent>, target: string, budget: nat)
    requires stop.TweepErr? || stop.OtherErr? || stop.End?
    ensures Collect(pre + [stop] + post, target, budget) == Collect(pre, target, budget)
  {
    if budget == 0 {
    } else if pre == [] {
    } else {
      assert (pre + [stop] + post)[1..] == pre[1..] + [stop] + post;
      match pre[0]
      case Reply(_, _) => StopKeepsGathered(pre[1..], stop, post, target, budget - 1);
      case RateLimited => StopKeepsGathered(pre[1..], stop, post, target, budget);
      case _ =>
    }
  }

  /** Once the cursor has handed out its budget of items, later events count for nothing. */
  lemma {:induction false} BudgetBoundsCollect(pre: seq<ReplyEvent>, post: seq<ReplyEvent>, target: string, budget: nat)
    requires ItemCount(pre) >= budget
    ensures Collect(pre + post, target, budget) == Collect(pre, target, budget)
  {
    if budget == 0 {
    } else {
      assert pre != [];
      assert (pre + post)[1..] == pre[1..] + post;
      match pre[0]
      case Reply(_, _) => BudgetBoundsCollect(pre[1..], post, target, budget - 1);
      case RateLimited => BudgetBoundsCollect(pre[1..], post, target, budget);
      case _ =>
    }
  }

  /**
   * Tweet "42": bob replies to it, carol to tweet "99", and dave's record
   * carries the text "None"; only bob is collected.
   */
  lemma ThreadWithOneDirectReply()
    ensures Collect([Reply(Id("42"), "bob"), Reply(Id("99"), "carol"), Reply(Id("None"), "dave")], "42", MaxItems)
            == {"bob"}
  {
  }

  /**
   * `list(aSetCommenters)`: a list holding every element of the set once, in
   * an order the model leaves open, as Python's set iteration order is.
   */
  method ListOfSet(s: set<string>) returns (r: seq<string>)
    ensures Elements(r) == s
    ensures NoDuplicates(r)
    ensures |r| == |s|
  {
    r := [];
    var rest := s;
    while rest != {}
      invariant Elements(r) + rest == s
      invariant Elements(r) !! rest
      invariant NoDuplicates(r)
      decreases rest
    {
      var x :| x in rest;
      r := r + [x];
      rest := rest - {x};
    }
    DistinctCardinality(r);
  }

  /**
   * getCertainTweetAndComments: `status` is the `id_str` of the tweet
   * `api.get_status` returns, or None when that lookup raises (the exception
   * is not caught, so the run ends); `events` is the reply cursor.
   */
  method GetCertainTweetAndComments(status: Option<string>, events: seq<ReplyEvent>)
    returns (commenters: Option<seq<string>>)
    ensures status.None? ==> commenters.None?
    ensures status.Some? ==> commenters.Some?
    ensures status.Some? ==> Elements(commenters.value) == Collect(events, status.value, MaxItems)
    ensures status.Some? ==> NoDuplicates(commenters.value)
  {
    if status.None? {
      return None;
    }
    var target := status.value;
    var found: set<string> := {};
    var i, taken := 0, 0;
    while i < |events|
      invariant 0 <= i <= |events| && taken <= MaxItems
      invariant Collect(events, target, MaxItems) == found + Collect(events[i..], target, MaxItems - taken)
      decreases |events| - i
    {
      // `.items(1000)` raises StopIteration once the limit is reached
      if taken == MaxItems {
        break;
      }
      var e := events[i];
      assert events[i..][0] == e && events[i..][1..] == events[i + 1..];
      if e.RateLimited? {
        // time.sleep(60) and continue
        i := i + 1;
        continue;
      }
      if !e.Reply? {
        // TweepError, StopIteration or another exception: leave the loop
        break;
      }
      i, taken := i + 1, taken + 1;
      if Skipped(e.replyTo) {
        continue;
      }
      if e.replyTo == Id(target) {
        found := found + {e.screenName};
      }
    }
    var list := ListOfSet(found);
    return Some(list);
  }
}
