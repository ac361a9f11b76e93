/** Per-source rate limiting of player-key webhooks
    (`is_rate_limited`, `update_rate_limit`, `cleanup_expired_rate_limits`,
    sls/src/core/SLSListenerAuth.cpp).  Times are milliseconds. */
module RateLimit {
  import opened MapSizes

  const MAX_RATE_LIMIT_ENTRIES := 100000
  const RATE_LIMIT_CLEANUP_INTERVAL := 1000

  /** `requests` is -1 for no limit. */
  datatype Limits = Limits(requests: int, window: nat)

  datatype State = State(entries: map<string, seq<int>>, lastCleanup: int)

  /** The front of the deque is dropped while it lies before `cutoff`. */
  function DropBefore(times: seq<int>, cutoff: int): seq<int> {
    if |times| > 0 && times[0] < cutoff then DropBefore(times[1..], cutoff) else times
  }

  /** A sweep of the whole map: deques trimmed, empty ones erased. */
  function Swept(m: map<string, seq<int>>, cutoff: int): map<string, seq<int>> {
    map ip | ip in m && DropBefore(m[ip], cutoff) != [] :: DropBefore(m[ip], cutoff)
  }

  /** The time-gated sweep. */
  function Cleaned(l: Limits, s: State, now: int): State {
    if now - s.lastCleanup < RATE_LIMIT_CLEANUP_INTERVAL then s
    else State(Swept(s.entries, now - l.window * 2), now)
  }

  function Checked(l: Limits, s: State, ip: string, now: int): (State, bool) {
    if l.requests == -1 || ip == "" then (s, false)
    else
      var c := Cleaned(l, s, now);
      if ip !in c.entries then (c, false)
      else
        var kept := DropBefore(c.entries[ip], now - l.window);
        (c.(entries := c.entries[ip := kept]), |kept| >= l.requests)
  }

  function Times(s: State, ip: string): seq<int> {
    if ip in s.entries then s.entries[ip] else []
  }

  function Updated(l: Limits, s: State, ip: string, now: int): State {
    if l.requests == -1 || ip == "" then s
    else if ip !in s.entries && |s.entries| >= MAX_RATE_LIMIT_ENTRIES then
      var swept := Swept(s.entries, now - l.window * 2);
      if |swept| >= MAX_RATE_LIMIT_ENTRIES then s.(entries := swept)
      else s.(entries := swept[ip := [now]])
    else s.(entries := s.entries[ip := Times(s, ip) + [now]])
  }

  class Limiter {
    const limits: Limits
    var entries: map<string, seq<int>>
    var lastCleanup: int

    constructor (limits: Limits, start: int)
      ensures this.limits == limits && View() == State(map[], start)
    {
      this.limits := limits;
      entries, lastCleanup := map[], start;
    }

    function View(): State
      reads this
    {
      State(entries, lastCleanup)
    }

    /** One deque of the map, trimmed from the front. */
    method TrimDeque(times: seq<int>, cutoff: int) returns (kept: seq<int>)
      ensures kept == DropBefore(times, cutoff)
    {
      kept := times;
      while |kept| > 0 && kept[0] < cutoff
        invariant DropBefore(kept, cutoff) == DropBefore(times, cutoff)
      {
        kept := kept[1..];
      }
    }

    /** The iterator loop that erases in place. */
    method SweepEntries(cutoff: int)
      modifies this`entries
      ensures entries == Swept(old(entries), cutoff)
    {
      ghost var was := entries;
      var todo := entries.Keys;
      while todo != {}
        invariant todo <= was.Keys
        invariant forall ip :: ip in todo ==> ip in entries && entries[ip] == was[ip]
        invariant forall ip :: ip in was && ip !in todo ==>
          (ip in entries <==> DropBefore(was[ip], cutoff) != [])
          && (ip in entries ==> entries[ip] == DropBefore(was[ip], cutoff))
        invariant forall ip :: ip in entries ==> ip in was
        decreases |todo|
      {
        var ip :| ip in todo;
        todo := todo - {ip};
        var kept := TrimDeque(entries[ip], cutoff);
        if kept == [] {
          entries := entries - {ip};
        } else {
          entries := entries[ip := kept];
        }
      }
    }

    method CleanupExpired(now: int)
      modifies this`entries, this`lastCleanup
      ensures View() == Cleaned(limits, old(View()), now)
    {
      if now - lastCleanup < RATE_LIMIT_CLEANUP_INTERVAL {
        return;
      }
      lastCleanup := now;
      SweepEntries(now - limits.window * 2);
    }

    method IsRateLimited(ip: string, now: int) returns (limited: bool)
      modifies this`entries, this`lastCleanup
      ensures (View(), limited) == Checked(limits, old(View()), ip, now)
    {
      if limits.requests == -1 {
        return false;
      }
      if |ip| == 0 {
        return false;
      }
      CleanupExpired(now);
      if ip !in entries {
        return false;
      }
      var kept := TrimDeque(entries[ip], now - limits.window);
      entries := entries[ip := kept];
      limited := |kept| >= limits.requests;
    }

    method UpdateRateLimit(ip: string, now: int)
      modifies this`entries
      ensures View() == Updated(limits, old(View()), ip, now)
    {
      if limits.requests == -1 {
        return;
      }
      if |ip| == 0 {
        return;
      }
      if ip !in entries && |entries| >= MAX_RATE_LIMIT_ENTRIES {
        SweepEntries(now - limits.window * 2);
        if |entries| >= MAX_RATE_LIMIT_ENTRIES {
          return;
        }
      }
      assert [] + [now] == [now];
      entries := entries[ip := (if ip in entries then entries[ip] else []) + [now]];
    }
  }

  // ------------------------------------------------------------ whole runs

  /** A player key presented by `ip`: checked at `now`; if it passes and nothing else
      answers it (`asks`), a webhook is dispatched and counted at `later`. */
  datatype Visit = Visit(ip: string, now: int, asks: bool, later: int)

  predicate Dispatches(l: Limits, s: State, v: Visit) {
    v.asks && !Checked(l, s, v.ip, v.now).1
  }

  function Step(l: Limits, s: State, v: Visit): State {
    var c := Checked(l, s, v.ip, v.now).0;
    if Dispatches(l, s, v) then Updated(l, c, v.ip, v.later) else c
  }

  function After(l: Limits, start: int, visits: seq<Visit>): State {
    if |visits| == 0 then State(map[], start)
    else Step(l, After(l, start, visits[..|visits| - 1]), visits[|visits| - 1])
  }

  /** Times of all webhooks dispatched for `ip`, counted or not. */
  function DispatchTimes(l: Limits, start: int, visits: seq<Visit>, ip: string): seq<int> {
    if |visits| == 0 then []
    else
      var n := |visits| - 1;
      DispatchTimes(l, start, visits[..n], ip)
      + if visits[n].ip == ip && Dispatches(l, After(l, start, visits[..n]), visits[n]) then [visits[n].later] else []
  }

  /** The map can take a dispatch of `ip`: it knows the IP, or has a place left, or gets
      one by dropping what is older than two windows. */
  predicate HasRoom(l: Limits, s: State, ip: string, now: int) {
    || ip in s.entries
    || |s.entries| < MAX_RATE_LIMIT_ENTRIES
    || |Swept(s.entries, now - l.window * 2)| < MAX_RATE_LIMIT_ENTRIES
  }

  lemma AfterPush(l: Limits, start: int, visits: seq<Visit>, v: Visit, ip: string)
    ensures After(l, start, visits + [v]) == Step(l, After(l, start, visits), v)
    ensures DispatchTimes(l, start, visits + [v], ip) == DispatchTimes(l, start, visits, ip)
      + if v.ip == ip && Dispatches(l, After(l, start, visits), v) then [v.later] else []
  {
    hide Step, Dispatches;
    assert (visits + [v])[..|visits|] == visits;
  }

  /** Visit `k`, if it is a dispatch for `ip`, finds room in the map. */
  predicate TrackedAt(l: Limits, start: int, visits: seq<Visit>, ip: string, k: nat)
    requires k < |visits|
  {
    var s := After(l, start, visits[..k]);
    visits[k].ip == ip && Dispatches(l, s, visits[k]) ==>
      HasRoom(l, Checked(l, s, ip, visits[k].now).0, ip, visits[k].later)
  }

  /** No dispatch for `ip` meets a map that is full and stays full. */
  predicate AlwaysTracked(l: Limits, start: int, visits: seq<Visit>, ip: string) {
    forall k :: 0 <= k < |visits| ==> TrackedAt(l, start, visits, ip, k)
  }

  lemma TrackedPrefix(l: Limits, start: int, visits: seq<Visit>, ip: string)
    requires |visits| > 0 && AlwaysTracked(l, start, visits, ip)
    ensures AlwaysTracked(l, start, visits[..|visits| - 1], ip) && TrackedAt(l, start, visits, ip, |visits| - 1)
  {
    hide After, Step;
    var n := |visits| - 1;
    forall k | 0 <= k < n
      ensures TrackedAt(l, start, visits[..n], ip, k)
    {
      assert visits[..n][..k] == visits[..k];
      assert TrackedAt(l, start, visits, ip, k);
    }
  }

  /** A monotone clock. */
  predicate Clocked(start: int, visits: seq<Visit>) {
    && (forall k :: 0 <= k < |visits| ==> start <= visits[k].now <= visits[k].later)
    && forall j, k :: 0 <= j < k < |visits| ==> visits[j].later <= visits[k].now
  }

  /** What is remembered of a history of dispatches: its last times, and everything
      forgotten is older than the window. */
  predicate Remembers(kept: seq<int>, all: seq<int>, lost: int) {
    && |kept| <= |all| && kept == all[|all| - |kept|..]
    && forall i :: 0 <= i < |all| - |kept| ==> all[i] < lost
  }

  /** No `r + 1` consecutive dispatches fit in one window. */
  predicate Spaced(all: seq<int>, r: int, window: int)
    requires r >= 1
  {
    forall i, j :: 0 <= i && i + r <= j < |all| ==> all[j] - all[i] > window
  }

  predicate Sorted(all: seq<int>) {
    forall i, j :: 0 <= i < j < |all| ==> all[i] <= all[j]
  }

  lemma {:induction false} DropBeforeFacts(times: seq<int>, cutoff: int)
    ensures var r := DropBefore(times, cutoff);
      && |r| <= |times| && r == times[|times| - |r|..]
      && (forall i :: 0 <= i < |times| - |r| ==> times[i] < cutoff)
      && (|r| > 0 ==> r[0] >= cutoff)
  {
    if |times| > 0 && times[0] < cutoff {
      DropBeforeFacts(times[1..], cutoff);
    }
  }

  lemma RemembersDrop(kept: seq<int>, all: seq<int>, lost: int, cutoff: int, lost': int)
    requires Remembers(kept, all, lost) && lost <= lost' && cutoff <= lost'
    ensures Remembers(DropBefore(kept, cutoff), all, lost')
  {
    hide DropBefore;
    DropBeforeFacts(kept, cutoff);
    var r := DropBefore(kept, cutoff);
    var d := |all| - |kept|;
    assert r == all[|all| - |r|..];
    forall i | 0 <= i < |all| - |r|
      ensures all[i] < lost'
    {
      if i >= d {
        assert kept[i - d] == all[i];
      }
    }
  }

  /** Cleaning, at most twice a window back, forgets nothing that still matters. */
  lemma CleanedRemembers(l: Limits, s: State, now: int, ip: string, all: seq<int>, lost: int)
    requires Remembers(Times(s, ip), all, lost) && lost <= now - l.window
    ensures Remembers(Times(Cleaned(l, s, now), ip), all, now - l.window)
  {
    hide DropBefore, Remembers;
    RemembersDrop(Times(s, ip), all, lost, now - l.window * 2, now - l.window);
    RemembersLater(Times(s, ip), all, lost, now - l.window);
    DropNothing(now - l.window * 2);
  }

  lemma RemembersLater(kept: seq<int>, all: seq<int>, lost: int, lost': int)
    requires Remembers(kept, all, lost) && lost <= lost'
    ensures Remembers(kept, all, lost')
  {
  }

  lemma DropNothing(cutoff: int)
    ensures DropBefore([], cutoff) == []
  {
  }

  /** The check, seen by one IP: it remembers what matters, and it lets a request pass
      exactly when fewer than `requests` dispatches lie inside the window. */
  lemma CheckedRemembers(l: Limits, s: State, v: Visit, ip: string, all: seq<int>, lost: int)
    requires l.requests >= 1 && ip != "" && Remembers(Times(s, ip), all, lost) && lost <= v.now - l.window
    ensures var (c, limited) := Checked(l, s, v.ip, v.now);
      && Remembers(Times(c, ip), all, v.now - l.window)
      && (v.ip == ip ==> (limited <==> |Times(c, ip)| >= l.requests))
  {
    hide DropBefore, Remembers, Cleaned;
    var c := Cleaned(l, s, v.now);
    RemembersLater(Times(s, ip), all, lost, v.now - l.window);
    CleanedRemembers(l, s, v.now, ip, all, lost);
    RemembersDrop(Times(c, ip), all, v.now - l.window, v.now - l.window, v.now - l.window);
  }

  /** What counting a dispatch does to one IP's deque: a sweep may trim it, and its own
      dispatch is appended. */
  lemma UpdatedTimes(l: Limits, s: State, v: Visit, ip: string)
    requires l.requests != -1 && v.ip != ""
    requires v.ip == ip ==> ip in Updated(l, s, v.ip, v.later).entries
    ensures var was := Times(s, ip); var more := if v.ip == ip then [v.later] else [];
      var now := Times(Updated(l, s, v.ip, v.later), ip);
      now == was + more || now == DropBefore(was, v.later - l.window * 2) + more
  {
    hide DropBefore;
    DropNothing(v.later - l.window * 2);
    assert [] + [v.later] == [v.later];
    assert Times(s, ip) + [] == Times(s, ip);
    var swept := Swept(s.entries, v.later - l.window * 2);
    assert Times(State(swept, 0), ip) == DropBefore(Times(s, ip), v.later - l.window * 2);
    assert Times(State(swept, 0), ip) + [] == Times(State(swept, 0), ip);
  }

  /** Counting a dispatch, seen by one IP. */
  lemma UpdatedRemembers(l: Limits, s: State, v: Visit, ip: string, all: seq<int>, lost: int)
    requires l.requests >= 1 && ip != "" && Remembers(Times(s, ip), all, lost) && lost <= v.later - l.window
    requires v.ip == ip ==> ip in Updated(l, s, v.ip, v.later).entries
    ensures var all' := if v.ip == ip then all + [v.later] else all;
      Remembers(Times(Updated(l, s, v.ip, v.later), ip), all', v.later - l.window)
  {
    hide DropBefore, Remembers, Updated, Times;
    if v.ip == "" {
      UpdatedNameless(l, s, v);
      RemembersLater(Times(s, ip), all, lost, v.later - l.window);
    } else {
      UpdatedTimes(l, s, v, ip);
      var was := Times(s, ip);
      var swept := DropBefore(was, v.later - l.window * 2);
      RemembersDrop(was, all, lost, v.later - l.window * 2, v.later - l.window);
      RemembersLater(was, all, lost, v.later - l.window);
      RemembersPush(was, all, v.later - l.window, v.later);
      RemembersPush(swept, all, v.later - l.window, v.later);
      assert was + [] == was && swept + [] == swept;
    }
  }

  lemma UpdatedNameless(l: Limits, s: State, v: Visit)
    requires v.ip == ""
    ensures Updated(l, s, v.ip, v.later) == s
  {
  }

  lemma RemembersPush(kept: seq<int>, all: seq<int>, lost: int, t: int)
    requires Remembers(kept, all, lost)
    ensures Remembers(kept + [t], all + [t], lost)
  {
  }

  lemma SortedPush(all: seq<int>, t: int)
    requires Sorted(all) && (|all| > 0 ==> all[|all| - 1] <= t)
    ensures Sorted(all + [t])
  {
  }

  lemma Forgotten(kept: seq<int>, all: seq<int>, lost: int, i: nat)
    requires Remembers(kept, all, lost) && i < |all| - |kept|
    ensures all[i] < lost
  {
  }

  lemma SpacedAt(all: seq<int>, r: int, window: int, i: nat, j: nat)
    requires r >= 1 && Spaced(all, r, window) && i + r <= j < |all|
    ensures all[j] - all[i] > window
  {
  }

  /** A dispatch that was let through keeps the spacing. */
  lemma SpacedPush(kept: seq<int>, all: seq<int>, r: int, window: nat, now: int, later: int)
    requires r >= 1 && Remembers(kept, all, now - window) && |kept| < r && now <= later
    requires Spaced(all, r, window) && Sorted(all) && (|all| > 0 ==> all[|all| - 1] <= later)
    ensures Spaced(all + [later], r, window) && Sorted(all + [later])
  {
    SortedPush(all, later);
    PushKeepsSpacing(kept, all, r, window, now, later);
  }

  lemma PushKeepsSpacing(kept: seq<int>, all: seq<int>, r: int, window: nat, now: int, later: int)
    requires r >= 1 && Remembers(kept, all, now - window) && |kept| < r && now <= later && Spaced(all, r, window)
    ensures Spaced(all + [later], r, window)
  {
    hide Remembers;
    var next := all + [later];
    forall i, j | 0 <= i && i + r <= j < |next|
      ensures next[j] - next[i] > window
    {
      if j == |all| {
        Forgotten(kept, all, now - window, i);
      } else {
        SpacedAt(all, r, window, i, j);
      }
    }
  }

  predicate BoundedSoFar(l: Limits, s: State, ip: string, all: seq<int>, now: int)
    requires l.requests >= 1
  {
    && Remembers(Times(s, ip), all, now - l.window)
    && Spaced(all, l.requests, l.window) && Sorted(all)
    && (|all| > 0 ==> all[|all| - 1] <= now)
  }

  /** One visit of anybody keeps the bound for `ip`. */
  lemma StepKeepsBound(l: Limits, s: State, v: Visit, ip: string, all: seq<int>, was: int)
    requires l.requests >= 1 && ip != "" && was <= v.now <= v.later && BoundedSoFar(l, s, ip, all, was)
    requires v.ip == ip && Dispatches(l, s, v) ==> ip in Step(l, s, v).entries
    ensures BoundedSoFar(l, Step(l, s, v), ip, all + (if v.ip == ip && Dispatches(l, s, v) then [v.later] else []), v.later)
  {
    hide Remembers, Spaced, Sorted, Checked, Updated;
    CheckedRemembers(l, s, v, ip, all, was - l.window);
    var c := Checked(l, s, v.ip, v.now).0;
    RemembersLater(Times(c, ip), all, v.now - l.window, v.later - l.window);
    assert all + [] == all;
    if Dispatches(l, s, v) {
      UpdatedRemembers(l, c, v, ip, all, v.now - l.window);
      if v.ip == ip {
        SpacedPush(Times(c, ip), all, l.requests, l.window, v.now, v.later);
      }
    }
  }

  lemma {:induction false} RunKeepsBound(l: Limits, start: int, visits: seq<Visit>, ip: string)
    requires l.requests >= 1 && ip != "" && Clocked(start, visits) && AlwaysTracked(l, start, visits, ip)
    ensures BoundedSoFar(l, After(l, start, visits), ip, DispatchTimes(l, start, visits, ip),
                         if |visits| == 0 then start else visits[|visits| - 1].later)
  {
    hide Checked, Updated, HasRoom, BoundedSoFar;
    if |visits| == 0 {
      NothingYet(l, start, ip);
    } else {
      var n := |visits| - 1;
      var init := visits[..n];
      TrackedPrefix(l, start, visits, ip);
      RunKeepsBound(l, start, init, ip);
      var before := After(l, start, init);
      UntrackedExactlyWhen(l, Checked(l, before, ip, visits[n].now).0, ip, visits[n].later);
      StepKeepsBound(l, After(l, start, init), visits[n], ip, DispatchTimes(l, start, init, ip),
                     if n == 0 then start else visits[n - 1].later);
    }
  }

  lemma NothingYet(l: Limits, start: int, ip: string)
    requires l.requests >= 1
    ensures BoundedSoFar(l, State(map[], start), ip, [], start)
  {
  }

  /** The rate bound: over every run in which the IP stays tracked, however the
      per-request trim, the time-gated sweep and the sweep of a full map interleave,
      dispatches that lie within one window of each other number at most R. */
  lemma AtMostRequestsPerWindow(l: Limits, start: int, visits: seq<Visit>, ip: string, i: nat, j: nat)
    requires l.requests >= 1 && ip != "" && Clocked(start, visits) && AlwaysTracked(l, start, visits, ip)
    requires i <= j < |DispatchTimes(l, start, visits, ip)|
    requires DispatchTimes(l, start, visits, ip)[j] - DispatchTimes(l, start, visits, ip)[i] <= l.window
    ensures j - i + 1 <= l.requests
  {
    hide After, DispatchTimes, AlwaysTracked, Remembers;
    RunKeepsBound(l, start, visits, ip);
  }

  /** How many of the times lie in the window that begins at `t`. */
  function CountIn(times: seq<int>, t: int, window: int): (n: nat)
    ensures n <= |times|
  {
    if |times| == 0 then 0
    else
      var last := times[|times| - 1];
      CountIn(times[..|times| - 1], t, window) + if t <= last <= t + window then 1 else 0
  }

  /** Times before the window do not count. */
  lemma {:induction false} CountBehind(times: seq<int>, t: int, window: int, m: nat)
    requires m <= |times| && forall k :: 0 <= k < m ==> times[k] < t
    ensures CountIn(times, t, window) <= |times| - m
  {
    if |times| > m {
      CountBehind(times[..|times| - 1], t, window, m);
    } else if |times| > 0 {
      CountBehind(times[..|times| - 1], t, window, m - 1);
    }
  }

  lemma SpacedPrefix(all: seq<int>, r: int, window: int)
    requires r >= 1 && |all| > 0 && Spaced(all, r, window) && Sorted(all)
    ensures Spaced(all[..|all| - 1], r, window) && Sorted(all[..|all| - 1])
  {
    var init := all[..|all| - 1];
    forall i: nat, j: nat | i + r <= j < |init|
      ensures init[j] - init[i] > window
    {
      SpacedAt(all, r, window, i, j);
    }
  }

  lemma {:induction false} SpacedCount(all: seq<int>, r: int, window: int, t: int)
    requires r >= 1 && Spaced(all, r, window) && Sorted(all)
    ensures CountIn(all, t, window) <= r
  {
    if |all| > 0 {
      var n := |all| - 1;
      SpacedPrefix(all, r, window);
      SpacedCount(all[..n], r, window, t);
      if t <= all[n] <= t + window && n >= r {
        SpacedAt(all, r, window, n - r, n);
        CountBehind(all, t, window, n - r + 1);
      }
    }
  }

  /** Every interval of the window's length contains at most R dispatches. */
  lemma AtMostRequestsInAnyWindow(l: Limits, start: int, visits: seq<Visit>, ip: string, t: int)
    requires l.requests >= 1 && ip != "" && Clocked(start, visits) && AlwaysTracked(l, start, visits, ip)
    ensures CountIn(DispatchTimes(l, start, visits, ip), t, l.window) <= l.requests
  {
    hide After, DispatchTimes, AlwaysTracked, Remembers, Spaced, Sorted;
    RunKeepsBound(l, start, visits, ip);
    SpacedCount(DispatchTimes(l, start, visits, ip), l.requests, l.window, t);
  }

  /** How many of the times are not before `t`. */
  function CountSince(times: seq<int>, t: int): (n: nat)
    ensures n <= |times|
  {
    if |times| == 0 then 0
    else CountSince(times[..|times| - 1], t) + if times[|times| - 1] >= t then 1 else 0
  }

  /** Old times in front, the rest not old: the rest is what counts. */
  lemma {:induction false} CountOfRest(times: seq<int>, t: int, m: nat)
    requires m <= |times| && (forall k :: 0 <= k < m ==> times[k] < t) && forall k :: m <= k < |times| ==> times[k] >= t
    ensures CountSince(times, t) == |times| - m
  {
    if |times| > m {
      CountOfRest(times[..|times| - 1], t, m);
    } else if |times| > 0 {
      CountOfRest(times[..|times| - 1], t, m - 1);
    }
  }

  /** What is left of a remembered, sorted history after the trim is counted exactly. */
  lemma TrimCounts(kept: seq<int>, all: seq<int>, lost: int, cutoff: int)
    requires Remembers(kept, all, lost) && lost <= cutoff && Sorted(all)
    ensures |DropBefore(kept, cutoff)| == CountSince(all, cutoff)
  {
    hide DropBefore, CountSince;
    var r := DropBefore(kept, cutoff);
    RemembersDrop(kept, all, lost, cutoff, cutoff);
    DropBeforeFacts(kept, cutoff);
    var m := |all| - |r|;
    forall k | m <= k < |all|
      ensures all[k] >= cutoff
    {
      assert r[0] == all[m];
    }
    CountOfRest(all, cutoff, m);
  }

  lemma CheckedTrims(l: Limits, s: State, ip: string, now: int)
    requires l.requests >= 1 && ip != ""
    ensures Checked(l, s, ip, now).1 <==> |DropBefore(Times(Cleaned(l, s, now), ip), now - l.window)| >= l.requests
  {
    hide DropBefore, Cleaned;
    DropNothing(now - l.window);
  }

  /** The refusal, over every run in which the IP stays tracked: a visit is refused if and
      only if at least R of the earlier dispatches of its IP lie not before its window. */
  lemma RefusedExactlyWhen(l: Limits, start: int, visits: seq<Visit>, v: Visit)
    requires l.requests >= 1 && v.ip != "" && Clocked(start, visits + [v])
    requires AlwaysTracked(l, start, visits, v.ip)
    ensures Checked(l, After(l, start, visits), v.ip, v.now).1
      <==> CountSince(DispatchTimes(l, start, visits, v.ip), v.now - l.window) >= l.requests
  {
    hide After, DispatchTimes, AlwaysTracked, Remembers, Sorted, Spaced, Cleaned, Checked, DropBefore, CountSince;
    var s, all := After(l, start, visits), DispatchTimes(l, start, visits, v.ip);
    ClockedFront(start, visits, v);
    RunKeepsBound(l, start, visits, v.ip);
    var last := if |visits| == 0 then start else visits[|visits| - 1].later;
    CleanedRemembers(l, s, v.now, v.ip, all, last - l.window);
    TrimCounts(Times(Cleaned(l, s, v.now), v.ip), all, v.now - l.window, v.now - l.window);
    CheckedTrims(l, s, v.ip, v.now);
  }

  lemma ClockedFront(start: int, visits: seq<Visit>, v: Visit)
    requires Clocked(start, visits + [v])
    ensures Clocked(start, visits) && (if |visits| == 0 then start else visits[|visits| - 1].later) <= v.now <= v.later
  {
    var all := visits + [v];
    assert all[|visits|] == v;
    assert forall k :: 0 <= k < |visits| ==> all[k] == visits[k];
  }

  // ------------------------------------------------------------- the sweep

  predicate SomeSince(times: seq<int>, t: int) {
    exists i :: 0 <= i < |times| && times[i] >= t
  }

  lemma {:induction false} DropsAllExactlyWhen(times: seq<int>, cutoff: int)
    ensures DropBefore(times, cutoff) != [] <==> SomeSince(times, cutoff)
  {
    if |times| > 0 && times[0] < cutoff {
      DropsAllExactlyWhen(times[1..], cutoff);
      assert forall i :: 0 < i < |times| ==> times[i] == times[1..][i - 1];
    }
  }

  /** The sweep runs once a second and forgets exactly the IPs without a dispatch in the
      last two windows. */
  lemma SweepForgetsExactly(l: Limits, s: State, now: int, ip: string)
    ensures var c := Cleaned(l, s, now);
      if now < s.lastCleanup + 1000 then c == s
      else c.lastCleanup == now
           && (ip in c.entries <==> ip in s.entries && SomeSince(s.entries[ip], now - 2 * l.window))
  {
    hide DropBefore, SomeSince;
    if ip in s.entries {
      DropsAllExactlyWhen(s.entries[ip], now - l.window * 2);
    }
  }

  // ---------------------------------------------------------- the map's cap

  lemma SweptIsSmaller(m: map<string, seq<int>>, cutoff: int)
    ensures Swept(m, cutoff).Keys <= m.Keys && |Swept(m, cutoff)| <= |m|
  {
    hide DropBefore;
    var w := Swept(m, cutoff);
    assert w.Keys <= m.Keys;
    SubsetSize(w.Keys, m.Keys);
    assert |w| == |w.Keys| && |m| == |m.Keys|;
  }

  lemma StepKeepsCap(l: Limits, s: State, v: Visit)
    requires |s.entries| <= MAX_RATE_LIMIT_ENTRIES
    ensures |Step(l, s, v).entries| <= MAX_RATE_LIMIT_ENTRIES
  {
    hide DropBefore, Swept;
    SweptIsSmaller(s.entries, v.now - l.window * 2);
    var c := Cleaned(l, s, v.now);
    if v.ip in c.entries {
      SizeAfterPut(c.entries, v.ip, DropBefore(c.entries[v.ip], v.now - l.window));
    }
    var d := Checked(l, s, v.ip, v.now).0;
    var swept := Swept(d.entries, v.later - l.window * 2);
    SweptIsSmaller(d.entries, v.later - l.window * 2);
    SizeAfterPut(swept, v.ip, [v.later]);
    SizeAfterPut(d.entries, v.ip, Times(d, v.ip) + [v.later]);
  }

  /** The map of tracked IPs never exceeds 100000 entries. */
  lemma {:induction false} NeverMoreThanTheCap(l: Limits, start: int, visits: seq<Visit>)
    ensures |After(l, start, visits).entries| <= MAX_RATE_LIMIT_ENTRIES
  {
    hide Step;
    if |visits| > 0 {
      NeverMoreThanTheCap(l, start, visits[..|visits| - 1]);
      StepKeepsCap(l, After(l, start, visits[..|visits| - 1]), visits[|visits| - 1]);
    }
  }

  /** When a dispatch goes uncounted: exactly for a new IP at a map that is full and
      stays full after dropping what is older than two windows. */
  lemma UntrackedExactlyWhen(l: Limits, s: State, ip: string, now: int)
    requires l.requests != -1 && ip != ""
    ensures ip in Updated(l, s, ip, now).entries <==> HasRoom(l, s, ip, now)
  {
  }

  /** An IP the map does not hold is never limited, however often it comes. */
  lemma UntrackedIsNeverLimited(l: Limits, s: State, ip: string, now: int)
    requires ip !in s.entries
    ensures !Checked(l, s, ip, now).1 && ip !in Checked(l, s, ip, now).0.entries
  {
  }

  // ------------------------------------------------------ newcomers to a full map

  /** Sweeping twice with one cutoff is sweeping once. */
  lemma SweptTwice(m: map<string, seq<int>>, cutoff: int)
    ensures Swept(Swept(m, cutoff), cutoff) == Swept(m, cutoff)
  {
    var w := Swept(m, cutoff);
    forall ip | ip in w
      ensures DropBefore(w[ip], cutoff) == w[ip]
    {
      DropBeforeFacts(m[ip], cutoff);
    }
  }

  /** A visit of an IP that the map does not hold is let through; whether the map has room
      for it decides what it leaves behind. */
  lemma NewcomerPasses(l: Limits, s: State, v: Visit)
    requires v.ip !in s.entries && v.ip != "" && l.requests != -1 && v.asks && v.now == v.later
    ensures Dispatches(l, s, v)
    ensures HasRoom(l, s, v.ip, v.now) ==> v.ip in Step(l, s, v).entries && Step(l, s, v).entries[v.ip] == [v.now]
    ensures !HasRoom(l, s, v.ip, v.now) ==>
      v.ip !in Step(l, s, v).entries && !HasRoom(l, Step(l, s, v), v.ip, v.now)
  {
    hide DropBefore, Swept;
    var cutoff := v.now - l.window * 2;
    SweptTwice(s.entries, cutoff);
    SweptIsSmaller(s.entries, cutoff);
    SweptIsSmaller(Swept(s.entries, cutoff), cutoff);
    assert [] + [v.later] == [v.now];
  }

  /** `n` visits of one IP at one instant. */
  function Burst(ip: string, now: int, n: nat): (b: seq<Visit>)
    ensures |b| == n && forall k :: 0 <= k < n ==> b[k] == Visit(ip, now, true, now)
  {
    seq(n, k => Visit(ip, now, true, now))
  }

  function Repeated(now: int, n: nat): (t: seq<int>)
    ensures |t| == n && forall k :: 0 <= k < n ==> t[k] == now
  {
    seq(n, k => now)
  }

  lemma BurstPush(l: Limits, start: int, past: seq<Visit>, ip: string, now: int, n: nat)
    ensures var s := After(l, start, past + Burst(ip, now, n)); var v := Visit(ip, now, true, now);
      && After(l, start, past + Burst(ip, now, n + 1)) == Step(l, s, v)
      && DispatchTimes(l, start, past + Burst(ip, now, n + 1), ip)
         == DispatchTimes(l, start, past + Burst(ip, now, n), ip) + if Dispatches(l, s, v) then [now] else []
  {
    hide Step, Dispatches;
    var visits := past + Burst(ip, now, n + 1);
    assert visits[..|visits| - 1] == past + Burst(ip, now, n);
    assert visits[|visits| - 1] == Visit(ip, now, true, now);
  }

  /** Without room a new IP gets every dispatch it asks for, at one instant. */
  lemma {:induction false} BurstIsUnbounded(l: Limits, start: int, past: seq<Visit>, ip: string, now: int, n: nat)
    requires l.requests != -1 && ip != ""
    requires ip !in After(l, start, past).entries && !HasRoom(l, After(l, start, past), ip, now)
    ensures var visits := past + Burst(ip, now, n);
      && DispatchTimes(l, start, visits, ip) == DispatchTimes(l, start, past, ip) + Repeated(now, n)
      && ip !in After(l, start, visits).entries && !HasRoom(l, After(l, start, visits), ip, now)
  {
    hide Step, Dispatches, HasRoom, After, DispatchTimes;
    if n == 0 {
      assert past + Burst(ip, now, 0) == past;
      assert DispatchTimes(l, start, past, ip) + Repeated(now, 0) == DispatchTimes(l, start, past, ip);
    } else {
      BurstIsUnbounded(l, start, past, ip, now, n - 1);
      BurstPush(l, start, past, ip, now, n - 1);
      NewcomerPasses(l, After(l, start, past + Burst(ip, now, n - 1)), Visit(ip, now, true, now));
      assert Repeated(now, n) == Repeated(now, n - 1) + [now];
    }
  }

  /** A known IP whose counted dispatches all lie at this instant. */
  lemma KnownVisit(l: Limits, s: State, ip: string, now: int, n: nat)
    requires l.requests >= 1 && ip != "" && ip in s.entries && s.entries[ip] == Repeated(now, n) && n >= 1
    ensures var v := Visit(ip, now, true, now);
      && (Dispatches(l, s, v) <==> n < l.requests)
      && ip in Step(l, s, v).entries
      && Step(l, s, v).entries[ip] == Repeated(now, if n < l.requests then n + 1 else n)
  {
    assert Repeated(now, n)[0] == now;
    assert DropBefore(Repeated(now, n), now - l.window * 2) == Repeated(now, n);
    assert DropBefore(Repeated(now, n), now - l.window) == Repeated(now, n);
    assert Repeated(now, n) + [now] == Repeated(now, n + 1);
  }

  /** With room it gets as many as the limit allows. */
  lemma {:induction false} BurstIsBounded(l: Limits, start: int, past: seq<Visit>, ip: string, now: int, n: nat)
    requires l.requests >= 1 && ip != ""
    requires ip !in After(l, start, past).entries && HasRoom(l, After(l, start, past), ip, now)
    ensures var visits := past + Burst(ip, now, n); var m := if n <= l.requests then n else l.requests;
      && DispatchTimes(l, start, visits, ip) == DispatchTimes(l, start, past, ip) + Repeated(now, m)
      && (n > 0 ==> ip in After(l, start, visits).entries && After(l, start, visits).entries[ip] == Repeated(now, m))
  {
    hide Step, Dispatches, HasRoom, After, DispatchTimes;
    if n == 0 {
      assert past + Burst(ip, now, 0) == past;
      assert DispatchTimes(l, start, past, ip) + Repeated(now, 0) == DispatchTimes(l, start, past, ip);
    } else {
      BurstIsBounded(l, start, past, ip, now, n - 1);
      BurstPush(l, start, past, ip, now, n - 1);
      var m := if n - 1 <= l.requests then n - 1 else l.requests;
      assert Repeated(now, m + 1) == Repeated(now, m) + [now];
      if n == 1 {
        assert past + Burst(ip, now, 0) == past;
        NewcomerPasses(l, After(l, start, past), Visit(ip, now, true, now));
        assert Repeated(now, 1) == [now];
      } else {
        KnownVisit(l, After(l, start, past + Burst(ip, now, n - 1)), ip, now, m);
      }
    }
  }

  /** Exactly when the bound holds for an IP that the map does not hold: however many
      visits it makes at one instant, it gets no more than R dispatches, if and only if the
      map has room for it. */
  lemma NewcomerBoundedExactlyWhen(l: Limits, start: int, past: seq<Visit>, ip: string, now: int)
    requires l.requests >= 1 && ip != "" && ip !in After(l, start, past).entries
    ensures (forall n: nat :: Gained(l, start, past, ip, now, n) <= l.requests)
      <==> HasRoom(l, After(l, start, past), ip, now)
  {
    hide After, DispatchTimes, HasRoom;
    if HasRoom(l, After(l, start, past), ip, now) {
      forall n: nat
        ensures Gained(l, start, past, ip, now, n) <= l.requests
      {
        BurstIsBounded(l, start, past, ip, now, n);
      }
    } else {
      BurstIsUnbounded(l, start, past, ip, now, l.requests + 1);
      assert Gained(l, start, past, ip, now, l.requests + 1) == l.requests + 1;
    }
  }

  /** Dispatches that `n` visits at one instant add. */
  function Gained(l: Limits, start: int, past: seq<Visit>, ip: string, now: int, n: nat): int {
    |DispatchTimes(l, start, past + Burst(ip, now, n), ip)| - |DispatchTimes(l, start, past, ip)|
  }

  /** Distinct names. */
  function Name(k: nat): (ip: string)
    ensures |ip| == k + 1 && forall i :: 0 <= i <= k ==> ip[i] == 'x'
  {
    seq(k + 1, i => 'x')
  }

  /** One visit each of `n` IPs at one instant. */
  function Crowd(now: int, n: nat): (c: seq<Visit>)
    ensures |c| == n && forall k :: 0 <= k < n ==> c[k] == Visit(Name(k), now, true, now)
  {
    seq(n, k requires 0 <= k < n => Visit(Name(k), now, true, now))
  }

  /** A crowd is tracked IP by IP. */
  lemma {:induction false} CrowdIsTracked(l: Limits, start: int, now: int, n: nat)
    requires l.requests >= 1 && start <= now && n <= MAX_RATE_LIMIT_ENTRIES
    ensures var s := After(l, start, Crowd(now, n));
      && |s.entries| == n
      && (forall ip :: ip in s.entries ==> s.entries[ip] == [now] && 0 < |ip| <= n && ip[0] == 'x')
  {
    hide Step;
    if n > 0 {
      CrowdIsTracked(l, start, now, n - 1);
      var before := After(l, start, Crowd(now, n - 1));
      assert Crowd(now, n)[..n - 1] == Crowd(now, n - 1);
      OneOfTheCrowd(l, before, Crowd(now, n)[n - 1]);
      SizeAfterPut(before.entries, Name(n - 1), [now]);
    }
  }

  lemma FreshStay(m: map<string, seq<int>>, now: int, cutoff: int)
    requires cutoff <= now && forall ip :: ip in m ==> m[ip] == [now]
    ensures Swept(m, cutoff) == m
  {
  }

  lemma OneOfTheCrowd(l: Limits, s: State, v: Visit)
    requires l.requests >= 1 && v.ip != "" && v.ip !in s.entries && v.asks && v.now == v.later
    requires |s.entries| < MAX_RATE_LIMIT_ENTRIES
    requires forall ip :: ip in s.entries ==> s.entries[ip] == [v.now]
    ensures Step(l, s, v).entries == s.entries[v.ip := [v.now]]
  {
    hide DropBefore, Swept;
    FreshStay(s.entries, v.now, v.now - l.window * 2);
    assert [] + [v.later] == [v.now];
  }

  /** Behind a crowd of 100000 IPs the map has no room for another one. */
  lemma CrowdFillsTheMap(l: Limits, start: int)
    requires l.requests >= 1
    ensures var s := After(l, start, Crowd(start, MAX_RATE_LIMIT_ENTRIES));
      "y" !in s.entries && !HasRoom(l, s, "y", start)
  {
    hide DropBefore, After;
    CrowdIsTracked(l, start, start, MAX_RATE_LIMIT_ENTRIES);
    var s := After(l, start, Crowd(start, MAX_RATE_LIMIT_ENTRIES));
    FreshStay(s.entries, start, start - l.window * 2);
  }
}
