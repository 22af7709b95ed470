/** The batched scan of the upstream update task: repeatedly fetch the next batch of
    enabled channels above the last id, in id order, and check each one. */
module KeysetScan {
  import opened Counting
  import opened Wrappers

  const BATCH_SIZE := 100

  /** What checking one channel came to. */
  datatype Check = Skipped | Failed | Found(adds: nat, removes: nat, autoAdded: nat)

  // ----- Sets in ascending order -----

  ghost predicate IsMin(m: int, s: set<int>) {
    m in s && forall x :: x in s ==> m <= x
  }

  lemma Member<T>(s: set<T>) returns (x: T)
    requires s != {}
    ensures x in s
  {
    x :| x in s;
  }

  lemma {:induction false} MinExists(s: set<int>)
    requires s != {}
    ensures exists m :: IsMin(m, s)
  {
    var x := Member(s);
    if s == {x} {
      assert IsMin(x, s);
    } else {
      var rest := s - {x};
      assert s == rest + {x};
      MinExists(rest);
      var m :| IsMin(m, rest);
      assert IsMin(if x < m then x else m, s);
    }
  }

  ghost function Min(s: set<int>): (m: int)
    requires s != {}
    ensures IsMin(m, s)
  {
    MinExists(s);
    var m :| IsMin(m, s);
    m
  }

  /** The elements of a set, smallest first: what ORDER BY id gives. */
  ghost function Ascending(s: set<int>): (r: seq<int>)
    ensures |r| == |s|
  {
    if s == {} then [] else [Min(s)] + Ascending(s - {Min(s)})
  }

  ghost function Above(s: set<int>, last: int): set<int> {
    set x | x in s && x > last
  }

  /** What comes after a position in ascending order is what lies above its element. */
  lemma {:induction false} AscendingSplit(s: set<int>, k: nat)
    requires 0 < k <= |s|
    ensures Ascending(s)[k..] == Ascending(Above(s, Ascending(s)[k - 1]))
    ensures Ascending(s)[k - 1] in s
  {
    var m := Min(s);
    var rest := s - {m};
    if k == 1 {
      assert Above(s, m) == rest;
    } else {
      AscendingSplit(rest, k - 1);
      var last := Ascending(rest)[k - 2];
      assert Ascending(s)[k - 1] == last && Ascending(s)[k..] == Ascending(rest)[k - 1..];
      assert Above(s, last) == Above(rest, last);
    }
  }

  lemma {:induction false} AscendingSound(s: set<int>)
    ensures forall x :: x in Ascending(s) <==> x in s
    ensures forall i, j :: 0 <= i < j < |s| ==> Ascending(s)[i] < Ascending(s)[j]
  {
    if s != {} {
      var m := Min(s);
      var rest := s - {m};
      AscendingSound(rest);
      var r, tail := Ascending(s), Ascending(rest);
      assert r == [m] + tail;
      forall i, j | 0 <= i < j < |s|
        ensures r[i] < r[j]
      {
        assert r[j] == tail[j - 1] && tail[j - 1] in tail;
        if i > 0 { assert r[i] == tail[i - 1]; }
      }
    }
  }

  // ----- The database query -----

  /** Enabled channels, above the last id once there is one, in id order, one batch. */
  ghost function Query(enabled: set<int>, lastId: int): (ids: seq<int>) {
    var rows := Ascending(if lastId > 0 then Above(enabled, lastId) else enabled);
    if |rows| <= BATCH_SIZE then rows else rows[..BATCH_SIZE]
  }

  // ----- The counters -----

  datatype Totals = Totals(checked: nat, failed: seq<int>, changed: nat, adds: nat, removes: nat, autoAdded: nat)

  const ZERO := Totals(0, [], 0, 0, 0, 0)

  function Tally(t: Totals, id: int, check: Check): (r: Totals) {
    match check
    case Skipped => t
    case Failed => t.(checked := t.checked + 1, failed := t.failed + [id])
    case Found(adds, removes, auto) =>
      t.(checked := t.checked + 1, changed := t.changed + (if adds + auto > 0 || removes > 0 then 1 else 0),
         adds := t.adds + adds + auto, removes := t.removes + removes, autoAdded := t.autoAdded + auto)
  }

  ghost function TallyAll(t: Totals, ids: seq<int>, check: int -> Check): Totals {
    if ids == [] then t else Tally(TallyAll(t, ids[..|ids| - 1], check), ids[|ids| - 1], check(ids[|ids| - 1]))
  }

  lemma {:induction false} TallyConcat(t: Totals, a: seq<int>, b: seq<int>, check: int -> Check)
    ensures TallyAll(TallyAll(t, a, check), b, check) == TallyAll(t, a + b, check)
  {
    if b == [] {
      assert a + b == a;
    } else {
      var n := |b| - 1;
      assert (a + b)[..|a + b| - 1] == a + b[..n];
      TallyConcat(t, a, b[..n], check);
    }
  }

  /** What a channel contributes to the reported additions. */
  ghost function AddsOf(check: int -> Check): int -> int {
    (id: int) => match check(id) case Found(adds, _, auto) => adds + auto case _ => 0
  }

  ghost function RemovesOf(check: int -> Check): int -> int {
    (id: int) => match check(id) case Found(_, removes, _) => removes case _ => 0
  }

  ghost function AutoOf(check: int -> Check): int -> int {
    (id: int) => match check(id) case Found(_, _, auto) => auto case _ => 0
  }

  ghost function ChangedOf(check: int -> Check): int -> int {
    (id: int) => if AddsOf(check)(id) > 0 || RemovesOf(check)(id) > 0 then 1 else 0
  }

  ghost function CheckedOf(check: int -> Check): int -> int {
    (id: int) => if check(id).Skipped? then 0 else 1
  }

  lemma SumLast(ids: seq<int>, f: int -> int)
    requires ids != []
    ensures Sum(ids, f) == Sum(ids[..|ids| - 1], f) + f(ids[|ids| - 1])
  {
    assert ids == ids[..|ids| - 1] + [ids[|ids| - 1]];
    SumAppend(ids[..|ids| - 1], ids[|ids| - 1], f);
  }

  lemma {:induction false} FailedAreListed(ids: seq<int>, check: int -> Check)
    ensures forall id :: id in TallyAll(ZERO, ids, check).failed <==> id in ids && check(id).Failed?
  {
    if ids != [] {
      var n := |ids| - 1;
      FailedAreListed(ids[..n], check);
      assert ids == ids[..n] + [ids[n]];
    }
  }

  /** The totals are sums over the channels visited, and the failed list holds exactly the
      ids whose check failed. */
  lemma {:induction false} TotalsAreSums(ids: seq<int>, check: int -> Check)
    ensures var t := TallyAll(ZERO, ids, check);
            && t.adds == Sum(ids, AddsOf(check)) && t.removes == Sum(ids, RemovesOf(check))
            && t.checked == Sum(ids, CheckedOf(check)) && t.autoAdded == Sum(ids, AutoOf(check))
            && t.changed == Sum(ids, ChangedOf(check))
            && (forall id :: id in t.failed <==> id in ids && check(id).Failed?)
  {
    FailedAreListed(ids, check);
    if ids != [] {
      hide Sum;
      TotalsAreSums(ids[..|ids| - 1], check);
      SumLast(ids, AddsOf(check));
      SumLast(ids, RemovesOf(check));
      SumLast(ids, CheckedOf(check));
      SumLast(ids, AutoOf(check));
      SumLast(ids, ChangedOf(check));
    }
  }

  /** One batch: every channel of it is checked in order. */
  method CheckBatch(t: Totals, ids: seq<int>, check: int -> Check) returns (r: Totals)
    ensures r == TallyAll(t, ids, check)
  {
    r := t;
    for i := 0 to |ids|
      invariant r == TallyAll(t, ids[..i], check)
    {
      assert ids[..i + 1][..i] == ids[..i];
      r := Tally(r, ids[i], check(ids[i]));
    }
    assert ids[..|ids|] == ids;
  }

  /** How far a scan has come: `visited` lists, in order, the enabled ids up to `lastId`. */
  ghost predicate Progress(enabled: set<int>, lastId: int, visited: seq<int>) {
    lastId >= 0 && visited + Ascending(Above(enabled, lastId)) == Ascending(enabled)
  }

  ghost predicate Positive(ids: set<int>) {
    forall id :: id in ids ==> id > 0
  }

  lemma QueryRest(enabled: set<int>, lastId: int)
    requires Positive(enabled) && lastId >= 0
    ensures var rows := Ascending(Above(enabled, lastId));
            Query(enabled, lastId) == if |rows| <= BATCH_SIZE then rows else rows[..BATCH_SIZE]
  {
    if lastId == 0 {
      assert Above(enabled, 0) == enabled;
    }
  }

  /** A batch is the next stretch of the ascending order; a short one is the last. */
  lemma ScanStep(enabled: set<int>, lastId: int, visited: seq<int>, channels: seq<int>)
    requires Positive(enabled) && Progress(enabled, lastId, visited)
    requires channels == Query(enabled, lastId)
    ensures channels == [] ==> visited == Ascending(enabled)
    ensures channels != [] ==>
              var last := channels[|channels| - 1];
              && Progress(enabled, last, visited + channels)
              && |Above(enabled, last)| < |Above(enabled, lastId)|
              && (|channels| < BATCH_SIZE ==> visited + channels == Ascending(enabled))
  {
    hide Ascending, Query, Positive;
    var rest, k := Above(enabled, lastId), |channels|;
    QueryRest(enabled, lastId);
    if k > 0 {
      AscendingSplit(rest, k);
      var last := channels[k - 1];
      assert last == Ascending(rest)[k - 1];
      assert Above(enabled, last) == Above(rest, last);
      hide Above;
      var tail := Ascending(rest)[k..];
      assert channels + tail == Ascending(rest);
      assert visited + channels + tail == visited + (channels + tail);
    }
  }

  /** The scan over a fixed set of enabled channels with positive ids: it ends, and visits
      every one of them exactly once in id order. `fetch` is the query; when it fails the
      scan stops with what it has visited so far. */
  method RunTaskOnce(ghost enabled: set<int>, fetch: int -> Option<seq<int>>, check: int -> Check)
    returns (visited: seq<int>, totals: Totals, complete: bool)
    requires Positive(enabled)
    requires forall last :: fetch(last).Some? ==> fetch(last).value == Query(enabled, last)
    ensures visited <= Ascending(enabled)
    ensures complete ==> visited == Ascending(enabled)
    ensures (forall last :: fetch(last).Some?) ==> complete
    ensures totals == TallyAll(ZERO, visited, check)
  {
    assert TallyAll(ZERO, [], check) == ZERO;
    assert Above(enabled, 0) == enabled;
    hide Ascending, TallyAll, Query, Above, Positive;
    visited, totals, complete := [], ZERO, true;
    var lastId := 0;
    while true
      invariant Progress(enabled, lastId, visited)
      invariant totals == TallyAll(ZERO, visited, check)
      decreases |Above(enabled, lastId)|
    {
      var channels := fetch(lastId);
      if channels.None? {
        complete := false;
        break;
      }
      ScanStep(enabled, lastId, visited, channels.value);
      if |channels.value| == 0 {
        break;
      }
      lastId := channels.value[|channels.value| - 1];
      totals := CheckBatch(totals, channels.value, check);
      TallyConcat(ZERO, visited, channels.value, check);
      visited := visited + channels.value;
      if |channels.value| < BATCH_SIZE {
        break;
      }
    }
  }
}
