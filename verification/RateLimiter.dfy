/** The in-memory rate limiter: a bounded queue of accept times per key, with a
    background sweep that drops idle keys. Times are whole seconds, given to
    every operation as the clock reading it takes under the mutex. */
module RateLimiter {

  const SECOND := 1_000_000_000  // nanoseconds

  type Store = map<string, seq<int>>

  datatype Answer = Answer(store: Store, ok: bool)

  // ----- The operations on values -----

  /** What a request does to the store. An empty queue, which the source could not
      index, never occurs (see Limiter.Valid). */
  function RequestOn(store: Store, key: string, limit: nat, duration: int, now: int): (a: Answer)
  {
    if key !in store then Answer(store[key := [now]], true)
    else
      var queue := store[key];
      if |queue| < limit then Answer(store[key := queue + [now]], true)
      else if queue == [] || now - queue[0] >= duration
      then Answer(store[key := (if queue == [] then [] else queue[1..]) + [now]], true)
      else Answer(store, false)
  }

  predicate Stale(queue: seq<int>, expiration: int, now: int) {
    |queue| == 0 || now - queue[|queue| - 1] > expiration
  }

  function SweepOn(store: Store, expiration: int, now: int): (swept: Store) {
    map k | k in store && !Stale(store[k], expiration, now) :: store[k]
  }

  // ----- The limiter itself -----

  /** A duration in nanoseconds as whole seconds, rounded towards zero. */
  function Seconds(lifetime: int): (s: int) {
    if lifetime >= 0 then lifetime / SECOND else -(-lifetime / SECOND)
  }

  class Limiter {
    var store: Store
    const expiration: int  // seconds
    const sweeping: bool   // whether the background goroutine was started

    /** No queue in the store is ever empty, so the limiter never indexes an empty one. */
    ghost predicate Valid()
      reads this
    {
      forall k :: k in store ==> store[k] != []
    }

    /** Init: keys live for `lifetime` nanoseconds; without a positive one nothing sweeps. */
    constructor (lifetime: int)
      ensures Valid() && store == map[] && expiration == Seconds(lifetime) && (sweeping <==> lifetime > 0)
    {
      store := map[];
      expiration := Seconds(lifetime);
      sweeping := lifetime > 0;
    }

    method Request(key: string, limit: nat, duration: int, now: int) returns (ok: bool)
      requires Valid()
      modifies this
      ensures Valid()
      ensures Answer(store, ok) == RequestOn(old(store), key, limit, duration, now)
    {
      if key in store {
        var queue := store[key];
        if |queue| < limit {
          store := store[key := queue + [now]];
          return true;
        } else if now - queue[0] >= duration {
          store := store[key := queue[1..] + [now]];
          return true;
        } else {
          return false;
        }
      }
      store := store[key := []];
      store := store[key := store[key] + [now]];
      assert [] + [now] == [now];
      return true;
    }

    /** One round of the background goroutine. */
    method ClearExpiredItems(now: int)
      requires Valid()
      modifies this
      ensures Valid()
      ensures store == SweepOn(old(store), expiration, now)
    {
      var todo := store.Keys;
      while todo != {}
        invariant todo <= old(store).Keys
        invariant forall k :: k in todo ==> k in store
        invariant forall k :: k in store ==> k in old(store) && store[k] == old(store)[k]
        invariant forall k :: k in old(store) && k !in todo ==>
                    (k in store <==> !Stale(old(store)[k], expiration, now))
        decreases todo
      {
        var key :| key in todo;
        var queue := store[key];
        var size := |queue|;
        if size == 0 || now - queue[size - 1] > expiration {
          store := store - {key};
        }
        todo := todo - {key};
      }
    }
  }

  // ----- The ideal sliding-window log -----

  /** How many of the accept times lie less than `duration` seconds back. */
  function Recent(log: seq<int>, duration: int, now: int): (n: nat)
    ensures n <= |log|
  {
    if log == [] then 0
    else Recent(log[..|log| - 1], duration, now) + (if now - log[|log| - 1] < duration then 1 else 0)
  }

  function LogOf(logs: Store, key: string): (log: seq<int>) {
    if key in logs then logs[key] else []
  }

  function Capacity(limit: nat): (c: nat)
    ensures c >= 1
  {
    if limit == 0 then 1 else limit
  }

  /** Accept iff fewer than `limit` requests were accepted in the last `duration`
      seconds, remembering every accept forever. A limit of 0 admits one request,
      as the code does. */
  function IdealRequest(logs: Store, key: string, limit: nat, duration: int, now: int): (a: Answer) {
    var log := LogOf(logs, key);
    if Recent(log, duration, now) < Capacity(limit)
    then Answer(logs[key := log + [now]], true)
    else Answer(logs, false)
  }

  // ----- Runs -----

  datatype Rule = Rule(limit: nat, duration: int)
  datatype Event = Request(key: string, now: int) | Sweep(now: int)

  ghost predicate Clocked(events: seq<Event>) {
    forall i, j :: 0 <= i < j < |events| ==> events[i].now <= events[j].now
  }

  datatype Outcome = Outcome(store: Store, answers: seq<bool>)

  ghost function Run(rules: string -> Rule, expiration: int, events: seq<Event>): Outcome {
    if events == [] then Outcome(map[], [])
    else
      var last := events[|events| - 1];
      var before := Run(rules, expiration, events[..|events| - 1]);
      match last
      case Request(key, now) =>
        var a := RequestOn(before.store, key, rules(key).limit, rules(key).duration, now);
        Outcome(a.store, before.answers + [a.ok])
      case Sweep(now) => Outcome(SweepOn(before.store, expiration, now), before.answers)
  }

  ghost function IdealRun(rules: string -> Rule, events: seq<Event>): Outcome {
    if events == [] then Outcome(map[], [])
    else
      var last := events[|events| - 1];
      var before := IdealRun(rules, events[..|events| - 1]);
      match last
      case Request(key, now) =>
        var a := IdealRequest(before.store, key, rules(key).limit, rules(key).duration, now);
        Outcome(a.store, before.answers + [a.ok])
      case Sweep(_) => before
  }

  // ----- The refinement -----

  ghost predicate Sorted(log: seq<int>) {
    forall i, j :: 0 <= i < j < |log| ==> log[i] <= log[j]
  }

  ghost predicate AtMost(log: seq<int>, now: int) {
    forall i :: 0 <= i < |log| ==> log[i] <= now
  }

  lemma {:induction false} NoneRecent(log: seq<int>, duration: int, now: int)
    requires forall i :: 0 <= i < |log| ==> now - log[i] >= duration
    ensures Recent(log, duration, now) == 0
  {
    if log != [] {
      NoneRecent(log[..|log| - 1], duration, now);
    }
  }

  /** In a sorted log the recent entries are the last ones. */
  lemma {:induction false} RecentIsSuffix(log: seq<int>, duration: int, now: int, cap: nat)
    requires Sorted(log) && cap >= 1
    ensures Recent(log, duration, now) < cap <==> |log| < cap || now - log[|log| - cap] >= duration
  {
    if |log| >= 1 {
      var rest := log[..|log| - 1];
      if cap == 1 {
        if now - log[|log| - 1] >= duration { NoneRecent(log, duration, now); }
      } else {
        RecentIsSuffix(rest, duration, now, cap - 1);
        if now - log[|log| - 1] >= duration { NoneRecent(log, duration, now); }
      }
    }
  }

  /** The queue is a suffix of the full log, and whatever it lacks can no longer matter. */
  ghost predicate Tracks(queue: seq<int>, log: seq<int>, rule: Rule, now: int) {
    && |queue| <= |log| && |queue| <= Capacity(rule.limit)
    && queue == log[|log| - |queue|..]
    && (|queue| < Capacity(rule.limit) ==>
          forall i :: 0 <= i < |log| - |queue| ==> now - log[i] >= rule.duration)
  }

  ghost predicate KeyOk(store: Store, logs: Store, key: string, rule: Rule, now: int) {
    && Sorted(LogOf(logs, key)) && AtMost(LogOf(logs, key), now)
    && Tracks(LogOf(store, key), LogOf(logs, key), rule, now)
    && (key in store ==> store[key] != [])
  }

  lemma TracksAppend(queue: seq<int>, log: seq<int>, rule: Rule, now: int)
    requires Tracks(queue, log, rule, now)
    ensures |queue| < Capacity(rule.limit) ==> Tracks(queue + [now], log + [now], rule, now)
    ensures |queue| == Capacity(rule.limit) ==> Tracks(queue[1..] + [now], log + [now], rule, now)
  {
  }

  /** The queue alone decides as the whole log does. */
  lemma TracksDecides(queue: seq<int>, log: seq<int>, rule: Rule, now: int)
    requires Tracks(queue, log, rule, now) && Sorted(log)
    ensures Recent(log, rule.duration, now) < Capacity(rule.limit) <==>
            |queue| < Capacity(rule.limit) || now - queue[0] >= rule.duration
  {
    RecentIsSuffix(log, rule.duration, now, Capacity(rule.limit));
  }

  lemma SortedAppend(log: seq<int>, now: int)
    requires Sorted(log) && AtMost(log, now)
    ensures Sorted(log + [now]) && AtMost(log + [now], now)
  {
  }

  lemma RequestAgrees(store: Store, logs: Store, key: string, rule: Rule, now: int)
    requires KeyOk(store, logs, key, rule, now)
    ensures RequestOn(store, key, rule.limit, rule.duration, now).ok
            == IdealRequest(logs, key, rule.limit, rule.duration, now).ok
  {
    TracksDecides(LogOf(store, key), LogOf(logs, key), rule, now);
  }

  /** What an accepted request leaves in the queue. */
  lemma RequestQueue(store: Store, key: string, rule: Rule, now: int)
    requires key in store ==> store[key] != [] && |store[key]| <= Capacity(rule.limit)
    ensures var a, queue := RequestOn(store, key, rule.limit, rule.duration, now), LogOf(store, key);
            && (a.ok && |queue| < Capacity(rule.limit) ==> LogOf(a.store, key) == queue + [now])
            && (a.ok && |queue| == Capacity(rule.limit) ==> LogOf(a.store, key) == queue[1..] + [now])
            && (!a.ok ==> a.store == store)
  {
  }

  lemma RequestRefines(store: Store, logs: Store, key: string, rule: Rule, now: int)
    requires KeyOk(store, logs, key, rule, now)
    ensures var a, b := RequestOn(store, key, rule.limit, rule.duration, now),
                        IdealRequest(logs, key, rule.limit, rule.duration, now);
            a.ok == b.ok && KeyOk(a.store, b.store, key, rule, now)
  {
    var a, b := RequestOn(store, key, rule.limit, rule.duration, now),
                IdealRequest(logs, key, rule.limit, rule.duration, now);
    RequestAgrees(store, logs, key, rule, now);
    RequestQueue(store, key, rule, now);
    if a.ok {
      TracksAppend(LogOf(store, key), LogOf(logs, key), rule, now);
      SortedAppend(LogOf(logs, key), now);
      assert LogOf(b.store, key) == LogOf(logs, key) + [now];
    }
  }

  lemma SweepRefines(store: Store, logs: Store, key: string, rule: Rule, expiration: int, now: int)
    requires KeyOk(store, logs, key, rule, now) && rule.duration <= expiration + 1
    ensures KeyOk(SweepOn(store, expiration, now), logs, key, rule, now)
  {
    var log := LogOf(logs, key);
    if key in store && Stale(store[key], expiration, now) {
      var queue := store[key];
      assert queue[|queue| - 1] == log[|log| - 1];
      forall i | 0 <= i < |log|
        ensures now - log[i] >= rule.duration
      {
      }
    }
  }

  lemma LaterStillOk(store: Store, logs: Store, key: string, rule: Rule, now: int, later: int)
    requires KeyOk(store, logs, key, rule, now) && now <= later
    ensures KeyOk(store, logs, key, rule, later)
  {
  }

  ghost function LastTime(events: seq<Event>): int {
    if events == [] then 0 else events[|events| - 1].now
  }

  ghost predicate Covers(rules: string -> Rule, expiration: int) {
    forall key :: rules(key).duration <= expiration + 1
  }

  ghost predicate Unswept(events: seq<Event>) {
    forall i :: 0 <= i < |events| ==> !events[i].Sweep?
  }

  /** No sweep of the run can drop an entry that still counts. */
  ghost predicate Harmless(rules: string -> Rule, expiration: int, events: seq<Event>) {
    Covers(rules, expiration) || Unswept(events)
  }

  ghost predicate AllOk(store: Store, logs: Store, rules: string -> Rule, now: int) {
    forall key :: KeyOk(store, logs, key, rules(key), now)
  }

  lemma RequestKeepsAll(rules: string -> Rule, store: Store, logs: Store, key: string, now: int)
    requires AllOk(store, logs, rules, now)
    ensures var a, b := RequestOn(store, key, rules(key).limit, rules(key).duration, now),
                        IdealRequest(logs, key, rules(key).limit, rules(key).duration, now);
            a.ok == b.ok && AllOk(a.store, b.store, rules, now)
  {
    assert KeyOk(store, logs, key, rules(key), now);
    RequestRefines(store, logs, key, rules(key), now);
    var a, b := RequestOn(store, key, rules(key).limit, rules(key).duration, now),
                IdealRequest(logs, key, rules(key).limit, rules(key).duration, now);
    forall other
      ensures KeyOk(a.store, b.store, other, rules(other), now)
    {
      if other != key {
        assert KeyOk(store, logs, other, rules(other), now);
        assert LogOf(a.store, other) == LogOf(store, other) && LogOf(b.store, other) == LogOf(logs, other);
      }
    }
  }

  lemma SweepKeepsAll(rules: string -> Rule, expiration: int, store: Store, logs: Store, now: int)
    requires Covers(rules, expiration) && AllOk(store, logs, rules, now)
    ensures AllOk(SweepOn(store, expiration, now), logs, rules, now)
  {
    forall key
      ensures KeyOk(SweepOn(store, expiration, now), logs, key, rules(key), now)
    {
      assert KeyOk(store, logs, key, rules(key), now);
      SweepRefines(store, logs, key, rules(key), expiration, now);
    }
  }

  lemma {:induction false} RunRefines(rules: string -> Rule, expiration: int, events: seq<Event>)
    requires Clocked(events) && Harmless(rules, expiration, events)
    ensures Run(rules, expiration, events).answers == IdealRun(rules, events).answers
    ensures AllOk(Run(rules, expiration, events).store, IdealRun(rules, events).store, rules, LastTime(events))
  {
    if events != [] {
      var before := events[..|events| - 1];
      RunRefines(rules, expiration, before);
      var last := events[|events| - 1];
      var r, i := Run(rules, expiration, before), IdealRun(rules, before);
      assert AllOk(r.store, i.store, rules, last.now) by {
        forall key
          ensures KeyOk(r.store, i.store, key, rules(key), last.now)
        {
          if before != [] {
            assert KeyOk(r.store, i.store, key, rules(key), LastTime(before));
            LaterStillOk(r.store, i.store, key, rules(key), LastTime(before), last.now);
          }
        }
      }
      match last
      case Request(key, now) => RequestKeepsAll(rules, r.store, i.store, key, now);
      case Sweep(now) => SweepKeepsAll(rules, expiration, r.store, i.store, now);
    }
  }

  // ----- Exactly when the sweep cannot be noticed -----

  /** A run of a limiter with that lifetime. */
  ghost predicate Possible(lifetime: int, events: seq<Event>) {
    Clocked(events) && (lifetime <= 0 ==> Unswept(events))
  }

  ghost predicate Indistinguishable(rules: string -> Rule, lifetime: int) {
    forall events :: Possible(lifetime, events) ==>
      Run(rules, Seconds(lifetime), events).answers == IdealRun(rules, events).answers
  }

  ghost function Burst(key: string, n: nat): seq<Event> {
    seq(n, (_: int) => Request(key, 0))
  }

  ghost function Zeros(n: nat): seq<int> {
    seq(n, (_: int) => 0)
  }

  lemma {:induction false} BurstRun(rules: string -> Rule, expiration: int, key: string, n: nat)
    requires n <= Capacity(rules(key).limit) && rules(key).duration > 0
    ensures LogOf(Run(rules, expiration, Burst(key, n)).store, key) == Zeros(n)
    ensures Run(rules, expiration, Burst(key, n)).store.Keys <= {key}
    ensures LogOf(IdealRun(rules, Burst(key, n)).store, key) == Zeros(n)
  {
    if n > 0 {
      BurstRun(rules, expiration, key, n - 1);
      assert Burst(key, n)[..n - 1] == Burst(key, n - 1);
      assert Zeros(n) == Zeros(n - 1) + [0];
      var before := IdealRun(rules, Burst(key, n - 1));
      assert Recent(LogOf(before.store, key), rules(key).duration, 0) <= n - 1;
      assert n - 1 > 0 ==> key in Run(rules, expiration, Burst(key, n - 1)).store;
    }
  }

  lemma {:induction false} AllRecent(n: nat, duration: int, now: int)
    requires now < duration
    ensures Recent(Zeros(n), duration, now) == n
  {
    if n > 0 {
      AllRecent(n - 1, duration, now);
      assert Zeros(n)[..n - 1] == Zeros(n - 1);
    }
  }

  /** With a longer duration the sweep forgets a full window: fill it, sweep, ask again. */
  lemma SweepForgets(rules: string -> Rule, expiration: nat, key: string)
    requires rules(key).duration > expiration + 1
    ensures var events := Burst(key, Capacity(rules(key).limit)) + [Sweep(expiration + 1), Request(key, expiration + 1)];
            && Clocked(events)
            && Run(rules, expiration, events).answers != IdealRun(rules, events).answers
  {
    var cap := Capacity(rules(key).limit);
    var now := expiration + 1;
    var burst := Burst(key, cap);
    var swept := burst + [Sweep(now)];
    var events := burst + [Sweep(now), Request(key, now)];
    assert events[..|events| - 1] == swept && swept[..|swept| - 1] == burst;
    BurstRun(rules, expiration, key, cap);
    AllRecent(cap, rules(key).duration, now);
    var r, i := Run(rules, expiration, events), IdealRun(rules, events);
    var store := Run(rules, expiration, burst).store;
    assert key !in SweepOn(store, expiration, now) by {
      assert LogOf(store, key) == Zeros(cap);
    }
    assert Run(rules, expiration, swept).store == SweepOn(store, expiration, now);
    assert IdealRun(rules, swept) == IdealRun(rules, burst);
    assert r.answers[|r.answers| - 1];
    assert !i.answers[|i.answers| - 1];
  }

  /** The limiter answers every run of requests and sweeps exactly as the ideal log does, if
      and only if nothing sweeps or no duration exceeds the expiration by more than a second. */
  lemma SweepUnobservableIff(rules: string -> Rule, lifetime: int)
    ensures Indistinguishable(rules, lifetime) <==>
              lifetime <= 0 || forall key :: rules(key).duration <= lifetime / 1_000_000_000 + 1
  {
    var expiration := Seconds(lifetime);
    if lifetime <= 0 || Covers(rules, expiration) {
      forall events | Possible(lifetime, events)
        ensures Run(rules, expiration, events).answers == IdealRun(rules, events).answers
      {
        RunRefines(rules, expiration, events);
      }
    } else {
      var key :| rules(key).duration > expiration + 1;
      SweepForgets(rules, expiration, key);
      var events := Burst(key, Capacity(rules(key).limit)) + [Sweep(expiration + 1), Request(key, expiration + 1)];
      assert Possible(lifetime, events);
    }
  }

  // ----- No window is ever overfull -----

  /** The times at which the limiter accepted a request for `key`. */
  ghost function Accepted(rules: string -> Rule, expiration: int, events: seq<Event>, key: string): seq<int> {
    if events == [] then []
    else
      var before := Accepted(rules, expiration, events[..|events| - 1], key);
      var answers := Run(rules, expiration, events).answers;
      match events[|events| - 1]
      case Request(k, now) => if k == key && answers[|answers| - 1] then before + [now] else before
      case Sweep(_) => before
  }

  lemma {:induction false} AcceptedIsLog(rules: string -> Rule, expiration: int, events: seq<Event>, key: string)
    requires Clocked(events) && Harmless(rules, expiration, events)
    ensures Accepted(rules, expiration, events, key) == LogOf(IdealRun(rules, events).store, key)
  {
    if events != [] {
      AcceptedIsLog(rules, expiration, events[..|events| - 1], key);
      RunRefines(rules, expiration, events);
    }
  }

  ghost predicate Spread(log: seq<int>, rule: Rule) {
    forall i :: 0 <= i < |log| - Capacity(rule.limit) ==>
      log[i + Capacity(rule.limit)] - log[i] >= rule.duration
  }

  ghost predicate Spaced(log: seq<int>, rule: Rule, now: int) {
    Spread(log, rule) && Sorted(log) && AtMost(log, now)
  }

  lemma SpreadStep(log: seq<int>, rule: Rule, now: int)
    requires Spaced(log, rule, now)
    requires Recent(log, rule.duration, now) < Capacity(rule.limit)
    ensures Spaced(log + [now], rule, now)
  {
    RecentIsSuffix(log, rule.duration, now, Capacity(rule.limit));
  }

  lemma {:induction false} IdealSpread(rules: string -> Rule, events: seq<Event>, key: string)
    requires Clocked(events)
    ensures Spaced(LogOf(IdealRun(rules, events).store, key), rules(key), LastTime(events))
  {
    if events != [] {
      var before := events[..|events| - 1];
      IdealSpread(rules, before, key);
      var log := LogOf(IdealRun(rules, before).store, key);
      var now := LastTime(events);
      assert Spaced(log, rules(key), now) by {
        if before != [] { assert LastTime(before) <= now; } else { assert log == []; }
      }
      if Recent(log, rules(key).duration, now) < Capacity(rules(key).limit) {
        SpreadStep(log, rules(key), now);
      }
    }
  }

  ghost function CountIn(log: seq<int>, lo: int, hi: int): nat {
    if log == [] then 0
    else CountIn(log[..|log| - 1], lo, hi) + (if lo <= log[|log| - 1] < hi then 1 else 0)
  }

  /** If everything up to index `k` is below the window, at most the rest counts. */
  lemma {:induction false} FewFrom(log: seq<int>, lo: int, hi: int, k: int)
    requires -1 <= k < |log| || k == -1
    requires forall i :: 0 <= i <= k ==> log[i] < lo
    ensures CountIn(log, lo, hi) <= |log| - 1 - k
  {
    if log != [] {
      FewFrom(log[..|log| - 1], lo, hi, if k == |log| - 1 then k - 1 else k);
    }
  }

  /** In a spread log, if the last entry is in the window then the one a full
      capacity before it is not. */
  lemma {:induction false} SpreadCount(log: seq<int>, rule: Rule, lo: int)
    requires Spread(log, rule) && Sorted(log)
    ensures CountIn(log, lo, lo + rule.duration) <= Capacity(rule.limit)
    decreases |log|
  {
    var cap := Capacity(rule.limit);
    if |log| > cap {
      var n := |log| - 1;
      assert Spread(log[..n], rule);
      SpreadCount(log[..n], rule, lo);
      if lo <= log[n] < lo + rule.duration {
        assert log[n - cap + cap] - log[n - cap] >= rule.duration;
        FewFrom(log[..n], lo, lo + rule.duration, n - cap);
      }
    } else {
      FewFrom(log, lo, lo + rule.duration, -1);
    }
  }

  lemma {:induction false} AcceptedSpaced(rules: string -> Rule, expiration: int, events: seq<Event>, key: string)
    requires Clocked(events) && Harmless(rules, expiration, events)
    ensures Spaced(Accepted(rules, expiration, events, key), rules(key), LastTime(events))
  {
    AcceptedIsLog(rules, expiration, events, key);
    IdealSpread(rules, events, key);
  }

  /** No window of `duration` seconds ever holds more accepted requests than the limit. */
  lemma {:induction false} NoWindowOverfull(rules: string -> Rule, expiration: int, events: seq<Event>, key: string, lo: int)
    requires Clocked(events) && Harmless(rules, expiration, events)
    ensures CountIn(Accepted(rules, expiration, events, key), lo, lo + rules(key).duration)
         <= if rules(key).limit == 0 then 1 else rules(key).limit
  {
    AcceptedSpaced(rules, expiration, events, key);
    SpreadCount(Accepted(rules, expiration, events, key), rules(key), lo);
  }

  lemma {:induction false} RecentCounts(log: seq<int>, duration: int, now: int)
    requires AtMost(log, now)
    ensures Recent(log, duration, now) == CountIn(log, now - duration + 1, now + 1)
  {
    if log != [] { RecentCounts(log[..|log| - 1], duration, now); }
  }

  lemma IdealAnswer(rules: string -> Rule, events: seq<Event>, key: string, now: int)
    ensures var answers := IdealRun(rules, events + [Request(key, now)]).answers;
            && |answers| > 0
            && (answers[|answers| - 1] <==>
                  Recent(LogOf(IdealRun(rules, events).store, key), rules(key).duration, now) < Capacity(rules(key).limit))
  {
    var longer := events + [Request(key, now)];
    assert longer[..|longer| - 1] == events && longer[|longer| - 1] == Request(key, now);
    hide Recent, Capacity;
  }

  lemma ClockedBefore(events: seq<Event>, e: Event)
    requires Clocked(events + [e])
    ensures Clocked(events) && (events != [] ==> LastTime(events) <= e.now)
  {
    var longer := events + [e];
    assert forall i :: 0 <= i < |events| ==> longer[i] == events[i];
    assert longer[|events|] == e;
  }

  lemma HarmlessLonger(rules: string -> Rule, expiration: int, events: seq<Event>, key: string, now: int)
    requires Harmless(rules, expiration, events)
    ensures Harmless(rules, expiration, events + [Request(key, now)])
  {
    hide Covers;
  }

  lemma LogAtMost(rules: string -> Rule, events: seq<Event>, key: string, now: int)
    requires Clocked(events) && (events != [] ==> LastTime(events) <= now)
    ensures AtMost(LogOf(IdealRun(rules, events).store, key), now)
  {
    IdealSpread(rules, events, key);
  }

  /** A request is accepted if and only if fewer requests than the limit, or none for a limit
      of 0, were accepted in the last `duration` seconds. */
  lemma AcceptedIff(rules: string -> Rule, expiration: int, events: seq<Event>, key: string, now: int)
    requires Clocked(events + [Request(key, now)]) && Harmless(rules, expiration, events)
    ensures var answers := Run(rules, expiration, events + [Request(key, now)]).answers;
            && |answers| > 0
            && (answers[|answers| - 1] <==>
                  CountIn(Accepted(rules, expiration, events, key), now - rules(key).duration + 1, now + 1)
                  < if rules(key).limit == 0 then 1 else rules(key).limit)
  {
    hide Run, IdealRun, Accepted, CountIn, Recent, Clocked, Harmless, LogOf, AtMost, AllOk;
    HarmlessLonger(rules, expiration, events, key, now);
    ClockedBefore(events, Request(key, now));
    RunRefines(rules, expiration, events + [Request(key, now)]);
    AcceptedIsLog(rules, expiration, events, key);
    IdealAnswer(rules, events, key, now);
    LogAtMost(rules, events, key, now);
    RecentCounts(LogOf(IdealRun(rules, events).store, key), rules(key).duration, now);
  }
}
