/** The fixed-window limiter for comment submissions: a counter whose expiry is set once per window. */
module RateLimiter {
  import opened Wrappers

  type Time = int

  datatype Entry = Entry(count: nat, expires: Time)

  predicate Running(e: Option<Entry>, now: Time) {
    e.Some? && now < e.value.expires
  }

  /** Increment; the expiry is set only when the key has none. */
  function Hit(e: Option<Entry>, now: Time, window: nat): Entry {
    if Running(e, now) then Entry(e.value.count + 1, e.value.expires) else Entry(1, now + window)
  }

  predicate Allows(e: Option<Entry>, now: Time, limit: nat, window: nat) {
    Hit(e, now, window).count <= limit
  }

  /** The entry after a list of request times, starting from `e`. */
  function After(e: Option<Entry>, times: seq<Time>, window: nat): Option<Entry>
    decreases |times|
  {
    if times == [] then e else After(Some(Hit(e, times[0], window)), times[1..], window)
  }

  /** How many of the requests are allowed. */
  function Allowed(e: Option<Entry>, times: seq<Time>, limit: nat, window: nat): nat
    decreases |times|
  {
    if times == [] then 0
    else (if Allows(e, times[0], limit, window) then 1 else 0)
         + Allowed(Some(Hit(e, times[0], window)), times[1..], limit, window)
  }

  function Left(e: Option<Entry>, now: Time, limit: nat): nat {
    if Running(e, now) then (if e.value.count <= limit then limit - e.value.count else 0) else 0
  }

  ghost predicate Ordered(times: seq<Time>) {
    forall i, j :: 0 <= i < j < |times| ==> times[i] <= times[j]
  }

  /** From a state whose running window ends at `from` or that has none, requests before
      from + k windows are allowed at most k times the limit beyond what the running window has left. */
  lemma {:induction false} WindowsBound(e: Option<Entry>, times: seq<Time>, from: Time, k: nat, limit: nat, window: nat)
    requires 0 < window && Ordered(times)
    requires e.Some? ==> e.value.expires <= from
    requires forall i :: 0 <= i < |times| ==> times[i] < from + k * window
    requires forall i :: 0 <= i < |times| ==> Running(e, times[i]) || from <= times[i]
    ensures Allowed(e, times, limit, window) <= (if times == [] then 0 else Left(e, times[0], limit)) + k * limit
    decreases |times|
  {
    if times == [] {
    } else {
      var now, rest := times[0], times[1..];
      var next := Some(Hit(e, now, window));
      if Running(e, now) {
        WindowsBound(next, rest, from, k, limit, window);
      } else {
        var end := now + window;
        assert 0 < k by {
          assert now < from + k * window;
        }
        assert from + k * window <= end + (k - 1) * window by {
          assert k * window == (k - 1) * window + window;
        }
        WindowsBound(next, rest, end, k - 1, limit, window);
        assert k * limit == (k - 1) * limit + limit;
      }
    }
  }

  lemma {:induction false} EntriesCount(e: Option<Entry>, times: seq<Time>, window: nat)
    requires e.Some? ==> 1 <= e.value.count
    ensures After(e, times, window).Some? ==> 1 <= After(e, times, window).value.count
    decreases |times|
  {
    if times == [] {
    } else {
      EntriesCount(Some(Hit(e, times[0], window)), times[1..], window);
    }
  }

  lemma OrderedTail(before: seq<Time>, inside: seq<Time>)
    requires Ordered(before + inside)
    ensures Ordered(inside)
  {
    forall i, j | 0 <= i < j < |inside| ensures inside[i] <= inside[j] {
      assert (before + inside)[|before| + i] == inside[i] && (before + inside)[|before| + j] == inside[j];
    }
  }

  /** Any half-open interval of `k` windows contains at most (k + 1) times the limit of allowed
      requests, whatever requests came before it; with a positive limit it is even one less, because
      a window already running has used up at least one. */
  lemma IntervalBound(before: seq<Time>, inside: seq<Time>, start: Time, k: nat, limit: nat, window: nat)
    requires 0 < window && Ordered(before + inside)
    requires forall i :: 0 <= i < |inside| ==> start <= inside[i] < start + k * window
    ensures Allowed(After(None, before, window), inside, limit, window) <= (k + 1) * limit
    ensures 0 < limit ==> Allowed(After(None, before, window), inside, limit, window) < (k + 1) * limit
  {
    var e := After(None, before, window);
    EntriesCount(None, before, window);
    OrderedTail(before, inside);
    assert (k + 1) * limit == k * limit + limit;
    hide Ordered;
    if inside != [] {
      WindowsBound(e, inside, if Running(e, start) then e.value.expires else start, k, limit, window);
    }
  }

  /** Within one window exactly the first `limit` requests are allowed. */
  lemma {:induction false} WindowAllowsExactly(e: Entry, times: seq<Time>, limit: nat, window: nat)
    requires forall i :: 0 <= i < |times| ==> times[i] < e.expires
    ensures Allowed(Some(e), times, limit, window)
            == (if limit <= e.count then 0 else if |times| <= limit - e.count then |times| else limit - e.count)
    decreases |times|
  {
    if times == [] {
    } else {
      WindowAllowsExactly(Hit(Some(e), times[0], window), times[1..], limit, window);
    }
  }

  /** A window that starts with the first request allows min(requests, limit) of them. */
  lemma FreshWindowAllows(e: Option<Entry>, times: seq<Time>, limit: nat, window: nat)
    requires 0 < window && times != [] && !Running(e, times[0])
    requires forall i :: 0 <= i < |times| ==> times[i] < times[0] + window
    ensures Allowed(e, times, limit, window) == if |times| <= limit then |times| else limit
  {
    WindowAllowsExactly(Hit(e, times[0], window), times[1..], limit, window);
  }

  lemma {:induction false} AllowedSplits(e: Option<Entry>, first: seq<Time>, rest: seq<Time>, limit: nat, window: nat)
    ensures Allowed(e, first + rest, limit, window)
            == Allowed(e, first, limit, window) + Allowed(After(e, first, window), rest, limit, window)
    decreases |first|
  {
    if first == [] {
      assert first + rest == rest;
    } else {
      assert (first + rest)[1..] == first[1..] + rest;
      AllowedSplits(Some(Hit(e, first[0], window)), first[1..], rest, limit, window);
    }
  }

  /** Requests within a window do not prolong it. */
  lemma {:induction false} WindowIsNotProlonged(e: Entry, times: seq<Time>, window: nat)
    requires forall i :: 0 <= i < |times| ==> times[i] < e.expires
    ensures After(Some(e), times, window).Some? && After(Some(e), times, window).value.expires == e.expires
    decreases |times|
  {
    if times == [] {
    } else {
      WindowIsNotProlonged(Hit(Some(e), times[0], window), times[1..], window);
    }
  }

  /** Groups of requests, each within one window of its first one and a window after the first of the group
      before it. */
  ghost predicate InWindows(groups: seq<seq<Time>>, window: nat) {
    && (forall g :: 0 <= g < |groups| ==> groups[g] != [])
    && (forall g, i :: 0 <= g < |groups| && 0 <= i < |groups[g]| ==> groups[g][i] < groups[g][0] + window)
    && (forall g, h :: 0 <= g && h == g + 1 && h < |groups| ==> groups[g][0] + window <= groups[h][0])
  }

  function Flat(groups: seq<seq<Time>>): seq<Time> {
    if groups == [] then [] else groups[0] + Flat(groups[1..])
  }

  /** What each group may send: all of it up to the limit. */
  function Allotted(groups: seq<seq<Time>>, limit: nat): nat {
    if groups == [] then 0
    else (if |groups[0]| <= limit then |groups[0]| else limit) + Allotted(groups[1..], limit)
  }

  /** Every window starts anew: of each group exactly the first requests up to the limit are allowed,
      however many were refused before. */
  lemma {:induction false} EachWindowStartsAnew(e: Option<Entry>, groups: seq<seq<Time>>, limit: nat, window: nat)
    requires 0 < window && InWindows(groups, window)
    requires groups != [] ==> !Running(e, groups[0][0])
    ensures Allowed(e, Flat(groups), limit, window) == Allotted(groups, limit)
    decreases |groups|
  {
    if groups == [] {
    } else {
      var first, rest := groups[0], groups[1..];
      FreshWindowAllows(e, first, limit, window);
      WindowIsNotProlonged(Hit(e, first[0], window), first[1..], window);
      assert InWindows(rest, window) by {
        assert forall g :: 0 <= g < |rest| ==> rest[g] == groups[g + 1];
      }
      AllowedSplits(e, first, Flat(rest), limit, window);
      EachWindowStartsAnew(After(e, first, window), rest, limit, window);
    }
  }

  class RedisFixedWindowRateLimiter {
    const limit: nat
    const window: nat
    var entries: map<string, Entry>

    constructor (limit: nat, windowSeconds: nat)
      ensures this.limit == limit && window == windowSeconds && entries == map[]
    {
      this.limit, window, entries := limit, windowSeconds, map[];
    }

    function Get(key: string): Option<Entry>
      reads this
    {
      if key in entries then Some(entries[key]) else None
    }

    /** Redis being down allows every request. */
    method Allow(key: string, now: Time, redisUp: bool) returns (r: bool)
      modifies this
      ensures redisUp ==> r == Allows(old(Get(key)), now, limit, window)
      ensures redisUp ==> entries == old(entries)[key := Hit(old(Get(key)), now, window)]
      ensures !redisUp ==> r && entries == old(entries)
    {
      if !redisUp {
        return true;
      }
      var count, expires := 1, now + window;
      if key in entries && now < entries[key].expires {
        count, expires := entries[key].count + 1, entries[key].expires;
      }
      entries := entries[key := Entry(count, expires)];
      r := count <= limit;
    }
  }
}
