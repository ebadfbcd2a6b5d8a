/** The relay's fixed-window, host-keyed request counter. */
module RateLimiter {
  import opened Wrappers

  /** The window a key is in: when it opened and how many requests it has seen. */
  datatype Bucket = Bucket(start: int, count: nat)

  type Buckets = map<string, Bucket>

  /** A request that names its client host; an unresolvable client has none. */
  datatype Request = Request(key: Option<string>, now: int)

  // ----- one check, as a function of the table -----

  function Pruned(buckets: Buckets, now: int, window: int): Buckets {
    map k | k in buckets && now - buckets[k].start < window :: buckets[k]
  }

  function Counted(buckets: Buckets, key: string, now: int, window: int): Buckets {
    if key !in buckets || now - buckets[key].start >= window
    then buckets[key := Bucket(now, 1)]
    else buckets[key := Bucket(buckets[key].start, buckets[key].count + 1)]
  }

  /** The table after one check, and the answer. `prune` selects the limiter that drops stale windows. */
  function Check(buckets: Buckets, r: Request, max: nat, window: int, prune: bool): (Buckets, bool) {
    match r.key
    case None => (buckets, true)
    case Some(key) =>
      var kept := if prune then Pruned(buckets, r.now, window) else buckets;
      var after := Counted(kept, key, r.now, window);
      (after, after[key].count <= max)
  }

  class Limiter {
    const max: nat
    const window: int
    var buckets: Buckets

    constructor (max: nat, window: int)
      ensures this.max == max && this.window == window && buckets == map[]
    {
      this.max, this.window := max, window;
      buckets := map[];
    }

    method Allow(key: Option<string>, now: int) returns (allowed: bool)
      modifies this
      ensures (buckets, allowed) == Check(old(buckets), Request(key, now), max, window, true)
    {
      if key.None? {
        return true;
      }
      var k := key.value;
      var stale := set s | s in buckets && now - buckets[s].start >= window;
      ghost var before := buckets;
      while stale != {}
        invariant stale <= buckets.Keys
        invariant buckets.Keys <= before.Keys
        invariant forall s :: s in buckets ==> buckets[s] == before[s]
        invariant forall s :: s in before ==> (s in buckets && s !in stale <==> now - before[s].start < window)
        decreases stale
      {
        var s :| s in stale;
        buckets := buckets - {s};
        stale := stale - {s};
      }
      assert buckets == Pruned(before, now, window);
      if k !in buckets || now - buckets[k].start >= window {
        buckets := buckets[k := Bucket(now, 1)];
        return max >= 1;
      }
      buckets := buckets[k := Bucket(buckets[k].start, buckets[k].count + 1)];
      return buckets[k].count <= max;
    }
  }

  // ----- whole runs -----

  ghost predicate ClockNeverRunsBack(run: seq<Request>) {
    forall i, j :: 0 <= i < j < |run| ==> run[i].now <= run[j].now
  }

  function TableAfter(run: seq<Request>, max: nat, window: int, prune: bool): Buckets {
    if run == [] then map[]
    else Check(TableAfter(run[..|run| - 1], max, window, prune), run[|run| - 1], max, window, prune).0
  }

  /** The answer to the last request of a run. */
  function Answer(run: seq<Request>, max: nat, window: int, prune: bool): bool
    requires run != []
  {
    Check(TableAfter(run[..|run| - 1], max, window, prune), run[|run| - 1], max, window, prune).1
  }

  /** When one key's requests arrived. */
  function Times(run: seq<Request>, key: string): (times: seq<int>)
    ensures |times| <= |run|
  {
    if run == [] then []
    else
      var before := Times(run[..|run| - 1], key);
      if run[|run| - 1].key == Some(key) then before + [run[|run| - 1].now] else before
  }

  // The rule itself, stated on one key's arrival times alone: no table, no pruning, no other keys.

  /** Opening time of the window the last arrival falls in. */
  function WindowOf(times: seq<int>, window: int): int
    requires times != []
  {
    var last := times[|times| - 1];
    if |times| == 1 then last
    else
      var open := WindowOf(times[..|times| - 1], window);
      if last - open >= window then last else open
  }

  /** Which request of its window the last arrival is, counting from 1. */
  function Rank(times: seq<int>, window: int): (rank: nat)
    requires times != []
    ensures rank >= 1
  {
    if |times| == 1 || times[|times| - 1] - WindowOf(times[..|times| - 1], window) >= window then 1
    else Rank(times[..|times| - 1], window) + 1
  }

  ghost predicate Sorted(times: seq<int>) {
    forall i, j :: 0 <= i < j < |times| ==> times[i] <= times[j]
  }

  // ----- the table holds exactly what the rule says -----

  lemma {:induction false} UnprunedTable(run: seq<Request>, max: nat, window: int, key: string)
    ensures var t := TableAfter(run, max, window, false);
            var times := Times(run, key);
            if times == [] then key !in t
            else key in t && t[key] == Bucket(WindowOf(times, window), Rank(times, window))
  {
    if run != [] {
      var before := run[..|run| - 1];
      UnprunedTable(before, max, window, key);
      var oldTimes := Times(before, key);
      if run[|run| - 1].key == Some(key) && oldTimes != [] {
        var times := Times(run, key);
        assert times[..|times| - 1] == oldTimes;
      }
    }
  }

  /** The pruned table is the unpruned one cut down to windows that may still be live. */
  ghost predicate Abridges(pruned: Buckets, full: Buckets, now: int, window: int) {
    && pruned.Keys <= full.Keys
    && (forall k :: k in pruned ==> pruned[k] == full[k])
    && (forall k :: k in full && k !in pruned ==> now - full[k].start >= window)
  }

  lemma CheckAbridges(pruned: Buckets, full: Buckets, was: int, r: Request, max: nat, window: int)
    requires Abridges(pruned, full, was, window)
    requires was <= r.now
    ensures Abridges(Check(pruned, r, max, window, true).0, Check(full, r, max, window, false).0, r.now, window)
    ensures Check(pruned, r, max, window, true).1 == Check(full, r, max, window, false).1
  {
    if r.key.Some? {
      var key := r.key.value;
      var kept := Pruned(pruned, r.now, window);
      assert key in kept <==> key in full && r.now - full[key].start < window;
    }
  }

  lemma {:induction false} RunAbridges(run: seq<Request>, max: nat, window: int, now: int)
    requires ClockNeverRunsBack(run)
    requires run != [] ==> run[|run| - 1].now <= now
    ensures Abridges(TableAfter(run, max, window, true), TableAfter(run, max, window, false), now, window)
  {
    if run != [] {
      var last := run[|run| - 1];
      RunAbridges(run[..|run| - 1], max, window, last.now);
      CheckAbridges(TableAfter(run[..|run| - 1], max, window, true), TableAfter(run[..|run| - 1], max, window, false),
                    last.now, last, max, window);
    }
  }

  /** Dropping stale windows never changes an answer, on any run whose clock does not run back. */
  lemma PruningIsInvisible(run: seq<Request>, max: nat, window: int)
    requires run != [] && ClockNeverRunsBack(run)
    ensures Answer(run, max, window, true) == Answer(run, max, window, false)
  {
    var last := run[|run| - 1];
    RunAbridges(run[..|run| - 1], max, window, last.now);
    CheckAbridges(TableAfter(run[..|run| - 1], max, window, true), TableAfter(run[..|run| - 1], max, window, false),
                  last.now, last, max, window);
  }

  /**
   * Exactly the first `max` requests of each of a key's windows are let through, whatever other keys do in between;
   * a request that names no host is always let through.
   */
  lemma {:induction false} FirstMaxOfEachWindow(run: seq<Request>, max: nat, window: int)
    requires run != [] && ClockNeverRunsBack(run)
    ensures var last := run[|run| - 1];
            match last.key
            case None => Answer(run, max, window, true)
            case Some(key) =>
              && Times(run, key) != []
              && Times(run, key)[|Times(run, key)| - 1] == last.now
              && (Answer(run, max, window, true) <==> Rank(Times(run, key), window) <= max)
  {
    PruningIsInvisible(run, max, window);
    if run[|run| - 1].key.Some? {
      UnprunedTable(run, max, window, run[|run| - 1].key.value);
    }
  }

  /** Right after a check that names a host, the table holds live windows only. */
  lemma {:induction false} OnlyLiveWindowsKept(run: seq<Request>, max: nat, window: int)
    requires run != [] && ClockNeverRunsBack(run) && window > 0
    requires run[|run| - 1].key.Some?
    ensures forall k :: k in TableAfter(run, max, window, true) ==>
              run[|run| - 1].now - TableAfter(run, max, window, true)[k].start < window
  {
    var last := run[|run| - 1];
    var before := TableAfter(run[..|run| - 1], max, window, true);
    var kept := Pruned(before, last.now, window);
    assert TableAfter(run, max, window, true) == Counted(kept, last.key.value, last.now, window);
  }

  // ----- how much gets through in an interval -----

  lemma {:induction false} TimesSorted(run: seq<Request>, key: string)
    requires ClockNeverRunsBack(run)
    ensures Sorted(Times(run, key))
    ensures Times(run, key) != [] ==> run != [] && Times(run, key)[|Times(run, key)| - 1] <= run[|run| - 1].now
  {
    if run != [] {
      TimesSorted(run[..|run| - 1], key);
      if run[..|run| - 1] != [] {
        assert run[..|run| - 1][|run| - 2].now <= run[|run| - 1].now;
      }
    }
  }

  function OpenAt(times: seq<int>, window: int, i: nat): int
    requires i < |times|
  {
    WindowOf(times[..i + 1], window)
  }

  function RankAt(times: seq<int>, window: int, i: nat): (rank: nat)
    requires i < |times|
    ensures rank >= 1
  {
    Rank(times[..i + 1], window)
  }

  /** An arrival joins the window before it, or opens its own a full length or more later. */
  lemma NextArrival(times: seq<int>, window: int, i: nat)
    requires i + 1 < |times|
    ensures if times[i + 1] - OpenAt(times, window, i) >= window
            then OpenAt(times, window, i + 1) == times[i + 1] && RankAt(times, window, i + 1) == 1
            else OpenAt(times, window, i + 1) == OpenAt(times, window, i)
                 && RankAt(times, window, i + 1) == RankAt(times, window, i) + 1
  {
    assert times[..i + 2][..i + 1] == times[..i + 1];
  }

  /** An arrival lies in its window, and only the opening request of a window has rank 1. */
  lemma {:induction false} WindowHolds(times: seq<int>, window: int, i: nat)
    requires i < |times| && Sorted(times) && window > 0
    ensures OpenAt(times, window, i) <= times[i] < OpenAt(times, window, i) + window
    ensures RankAt(times, window, i) == 1 ==> OpenAt(times, window, i) == times[i]
  {
    if i > 0 {
      WindowHolds(times, window, i - 1);
      NextArrival(times, window, i - 1);
      assert times[i - 1] <= times[i];
    }
  }

  /** Later arrivals are in the same window with a higher rank, or in one that opened at least a length later. */
  lemma {:induction false} WindowsApart(times: seq<int>, window: int, i: nat, j: nat)
    requires Sorted(times) && window > 0 && i < j < |times|
    ensures var s, t := OpenAt(times, window, i), OpenAt(times, window, j);
            || (s == t && RankAt(times, window, i) < RankAt(times, window, j))
            || (s + window <= t && times[i] <= t)
  {
    NextArrival(times, window, j - 1);
    assert times[i] <= times[j];
    if i + 1 < j {
      WindowsApart(times, window, i, j - 1);
    }
  }

  /** The arrivals inside [from, from + window) that are let through. */
  ghost function LetThrough(times: seq<int>, max: nat, window: int, from: int): set<nat> {
    set i: nat | i < |times| && from <= times[i] < from + window && RankAt(times, window, i) <= max
  }

  ghost function Slot(times: seq<int>, max: nat, window: int, from: int, first: nat, i: nat): int
    requires first < |times| && i < |times|
  {
    var rank := RankAt(times, window, i) as int;
    var open := OpenAt(times, window, first);
    if from <= open then rank - 1
    else if OpenAt(times, window, i) == open then rank - 2
    else max - 1 + rank - 1
  }

  /** The slot of a let-through arrival is below the bound. */
  lemma SlotInRange(times: seq<int>, max: nat, window: int, from: int, first: nat, i: nat)
    requires Sorted(times) && window > 0
    requires first in LetThrough(times, max, window, from) && i in LetThrough(times, max, window, from)
    requires forall k :: k in LetThrough(times, max, window, from) ==> first <= k
    ensures 0 <= Slot(times, max, window, from, first, i) < (if max == 0 then 0 else 2 * max - 1)
  {
    WindowHolds(times, window, first);
    WindowHolds(times, window, i);
    if first < i {
      WindowsApart(times, window, first, i);
    }
  }

  /** Two let-through arrivals never share a slot. */
  lemma SlotInjective(times: seq<int>, max: nat, window: int, from: int, first: nat, i: nat, j: nat)
    requires Sorted(times) && window > 0 && i < j
    requires first in LetThrough(times, max, window, from)
    requires i in LetThrough(times, max, window, from) && j in LetThrough(times, max, window, from)
    requires forall k :: k in LetThrough(times, max, window, from) ==> first <= k
    ensures Slot(times, max, window, from, first, i) != Slot(times, max, window, from, first, j)
  {
    var open := OpenAt(times, window, first);
    WindowsApart(times, window, i, j);
    WindowHolds(times, window, j);
    if OpenAt(times, window, i) != OpenAt(times, window, j) {
      OpensLater(times, window, first, i);
      assert open < from && OpenAt(times, window, i) == open;
    }
  }

  lemma OpensLater(times: seq<int>, window: int, first: nat, i: nat)
    requires Sorted(times) && window > 0 && first <= i < |times|
    ensures OpenAt(times, window, first) <= OpenAt(times, window, i)
    ensures OpenAt(times, window, first) == OpenAt(times, window, i)
            || times[first] <= OpenAt(times, window, i)
  {
    if first < i {
      WindowsApart(times, window, first, i);
    }
  }

  /**
   * Any half-open interval of one window length lets at most 2 * max - 1 requests of a key through (none when max is
   * 0): it meets at most two windows, and the first of two has spent its opening request before the interval begins.
   */
  lemma IntervalBound(times: seq<int>, max: nat, window: int, from: int)
    requires Sorted(times) && window > 0
    ensures |LetThrough(times, max, window, from)| <= if max == 0 then 0 else 2 * max - 1
  {
    var through := LetThrough(times, max, window, from);
    if through != {} {
      var first := Least(through);
      forall i | i in through
        ensures 0 <= Slot(times, max, window, from, first, i) < (if max == 0 then 0 else 2 * max - 1)
      {
        SlotInRange(times, max, window, from, first, i);
      }
      var slots: map<nat, nat> := map i | i in through :: Slot(times, max, window, from, first, i);
      forall i, j | i in slots && j in slots && i != j
        ensures slots[i] != slots[j]
      {
        if i < j {
          SlotInjective(times, max, window, from, first, i, j);
        } else {
          SlotInjective(times, max, window, from, first, j, i);
        }
      }
      InjectionBound(slots, 2 * max - 1);
      assert slots.Keys == through;
      assert |slots| == |slots.Keys|;
    }
  }

  /** The requests of a run, made for one host inside [from, from + window), that the pruning limiter answers yes to. */
  ghost function AllowedIn(run: seq<Request>, key: string, max: nat, window: int, from: int): set<nat> {
    set i: nat | i < |run| && run[i].key == Some(key) && from <= run[i].now < from + window
                 && Answer(run[..i + 1], max, window, true)
  }

  lemma {:induction false} TimesOfPrefix(run: seq<Request>, key: string, i: nat)
    requires i <= |run|
    ensures Times(run[..i], key) <= Times(run, key)
    ensures i < |run| && run[i].key == Some(key) ==> |Times(run[..i], key)| < |Times(run[..i + 1], key)|
  {
    if i < |run| {
      TimesOfPrefix(run[..|run| - 1], key, i);
      assert run[..|run| - 1][..i] == run[..i];
      assert run[..i + 1][..i] == run[..i];
    } else {
      assert run[..i] == run;
    }
  }

  /** An allowed request of a run is a let-through arrival of its key. */
  lemma {:induction false} AllowedIsLetThrough(run: seq<Request>, key: string, max: nat, window: int, from: int, i: nat)
    requires ClockNeverRunsBack(run) && i in AllowedIn(run, key, max, window, from)
    ensures |Times(run[..i], key)| in LetThrough(Times(run, key), max, window, from)
  {
    var at := |Times(run[..i], key)|;
    TimesOfPrefix(run, key, i + 1);
    FirstMaxOfEachWindow(run[..i + 1], max, window);
    assert run[..i + 1][..i] == run[..i];
    assert Times(run[..i + 1], key) == Times(run[..i], key) + [run[i].now];
    assert Times(run[..i + 1], key) == Times(run, key)[..at + 1];
  }

  lemma {:induction false} PlacesGrow(run: seq<Request>, key: string, i: nat, j: nat)
    requires i < j < |run| && run[i].key == Some(key)
    ensures |Times(run[..i], key)| < |Times(run[..j], key)|
  {
    TimesOfPrefix(run, key, i);
    TimesOfPrefix(run[..j], key, i + 1);
    assert run[..j][..i + 1] == run[..i + 1];
  }

  /** The same bound for what the limiter really answers, with other hosts' requests and pruning in between. */
  lemma RunIntervalBound(run: seq<Request>, key: string, max: nat, window: int, from: int)
    requires ClockNeverRunsBack(run) && window > 0
    ensures |AllowedIn(run, key, max, window, from)| <= if max == 0 then 0 else 2 * max - 1
  {
    var through := LetThrough(Times(run, key), max, window, from);
    var place := map i: nat | i in AllowedIn(run, key, max, window, from) :: |Times(run[..i], key)|;
    assert |through| <= if max == 0 then 0 else 2 * max - 1 by {
      TimesSorted(run, key);
      IntervalBound(Times(run, key), max, window, from);
    }
    forall i | i in place
      ensures place[i] in through
    {
      AllowedIsLetThrough(run, key, max, window, from, i);
    }
    forall i, j | i in place && j in place && i != j
      ensures place[i] != place[j]
    {
      PlacesGrow(run, key, if i < j then i else j, if i < j then j else i);
    }
    InjectionInto(place, through);
    assert place.Keys == AllowedIn(run, key, max, window, from);
  }

  lemma {:induction false} Least(s: set<nat>) returns (least: nat)
    requires s != {}
    ensures least in s && forall k :: k in s ==> least <= k
    decreases s
  {
    var x :| x in s;
    if s == {x} {
      least := x;
    } else {
      var rest := Least(s - {x});
      assert forall k :: k in s ==> k == x || k in s - {x};
      least := if x < rest then x else rest;
    }
  }

  /** One request at 0, `max` - 1 at the end of its window, `max` at the start of the next. */
  function Burst(max: nat, window: int): seq<int> {
    seq(2 * max, i requires 0 <= i => if i == 0 then 0 else if i < max then window - 1 else window)
  }

  lemma {:induction false} BurstRanks(max: nat, window: int, i: nat)
    requires window >= 2 && i < 2 * max
    ensures OpenAt(Burst(max, window), window, i) == if i < max then 0 else window
    ensures RankAt(Burst(max, window), window, i) == if i < max then i + 1 else i - max + 1
  {
    if i > 0 {
      BurstRanks(max, window, i - 1);
      NextArrival(Burst(max, window), window, i - 1);
    }
  }

  /** The bound is met, for every `max` and every window of two ticks or more. */
  lemma IntervalBoundIsMet(max: nat, window: int)
    requires max >= 1 && window >= 2
    ensures Sorted(Burst(max, window))
    ensures |LetThrough(Burst(max, window), max, window, 1)| == 2 * max - 1
  {
    var through := LetThrough(Burst(max, window), max, window, 1);
    forall i: nat | i < 2 * max
      ensures i in through <==> i > 0
    {
      BurstRanks(max, window, i);
    }
    CountUpTo(through, 2 * max);
  }

  lemma {:induction false} CountUpTo(s: set<nat>, n: nat)
    requires n >= 1 && forall i :: i in s <==> 0 < i < n
    ensures |s| == n - 1
    decreases n
  {
    if n == 1 {
      assert s == {};
    } else {
      CountUpTo(s - {n - 1}, n - 1);
    }
  }
}
