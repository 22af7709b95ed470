/** What an operator sees after each action on a multi-key channel: which rows of the status
    view change, to what, and when an action is refused. */
module MultiKeyViews {
  import opened Text
  import opened Wrappers
  import opened MultiKey
  import opened KeyText
  import opened MultiKeyLaws

  /** A disabled row for key `i`, with the time and reason the channel holds for it. */
  function DisabledRow(c: Channel, key: string, i: int, status: int): (r: Row) {
    Row(key, status, if i in c.info.time then c.info.time[i] else 0, if i in c.info.reason then c.info.reason[i] else "")
  }

  lemma ViewRow(c: Channel, parse: Parser, i: nat)
    requires i < |KeysOf(c.key, parse)|
    ensures var rows := ViewOf(c, parse);
            && |rows| == |KeysOf(c.key, parse)| && rows[i].key == KeysOf(c.key, parse)[i]
            && (i !in c.info.status ==> rows[i] == Row(rows[i].key, 1, 0, ""))
            && (i in c.info.status && c.info.status[i] != 1 ==> rows[i] == DisabledRow(c, rows[i].key, i, c.info.status[i]))
  {
    hide KeysOf;
  }

  /** A saved change of the maps shows as the view of the same keys under the new maps. */
  lemma SavedShows(c: Channel, info: Info, parse: Parser)
    requires Inv(c, parse) && Tidy(info, |KeysOf(c.key, parse)|)
    ensures ViewOf(Persist(c, c.key, info, parse), parse) == View(KeysOf(c.key, parse), info)
  {
    hide KeysOf, Persist, View, EmptyArray;
    PersistKeeps(c, c.key, info, KeysOf(c.key, parse), parse);
  }

  /** The maps say the same about key `j`. */
  predicate SameAt(info: Info, info': Info, j: int) {
    && (j in info.status <==> j in info'.status) && (j in info.status ==> info.status[j] == info'.status[j])
    && (j in info.time <==> j in info'.time) && (j in info.time ==> info.time[j] == info'.time[j])
    && (j in info.reason <==> j in info'.reason) && (j in info.reason ==> info.reason[j] == info'.reason[j])
  }

  lemma ViewUpdate(keys: seq<string>, info: Info, info': Info, i: nat)
    requires i < |keys| && forall j :: 0 <= j < |keys| && j != i ==> SameAt(info, info', j)
    ensures View(keys, info') == View(keys, info)[i := RowAt(keys[i], info', i)]
  {
    var rows, rows' := View(keys, info), View(keys, info');
    forall j | 0 <= j < |keys| ensures rows'[j] == rows[i := RowAt(keys[i], info', i)][j] {
      if j != i { assert SameAt(info, info', j); }
    }
  }

  lemma AppliedDisable(c: Channel, parse: Parser, i: nat)
    requires i < c.info.size
    ensures Apply(c, DisableKey(Some(i)), parse)
         == Effect(Persist(c, c.key, c.info.(status := c.info.status[i := MANUALLY_DISABLED]), parse), Reply(true, 0))
  {
    hide KeysOf, Persist, Carried;
  }

  /** disable_key: that row is manually disabled, every other row stays. */
  lemma DisableKeyView(c: Channel, parse: Parser, i: nat)
    requires Inv(c, parse) && i < |ViewOf(c, parse)|
    ensures var e, rows := Apply(c, DisableKey(Some(i)), parse), ViewOf(c, parse);
            e.reply.ok && ViewOf(e.channel, parse) == rows[i := DisabledRow(c, rows[i].key, i, 2)]
  {
    hide KeysOf, Persist, Apply, EmptyArray, View;
    var info := c.info.(status := c.info.status[i := MANUALLY_DISABLED]);
    AppliedDisable(c, parse, i);
    SavedShows(c, info, parse);
    ViewUpdate(KeysOf(c.key, parse), c.info, info, i);
  }

  lemma AppliedEnable(c: Channel, parse: Parser, i: nat, info: Info)
    requires i < c.info.size
    requires info == c.info.(status := c.info.status - {i as int}, time := c.info.time - {i as int}, reason := c.info.reason - {i as int})
    ensures Apply(c, EnableKey(Some(i)), parse) == Effect(Persist(c, c.key, info, parse), Reply(true, 0))
  {
    hide KeysOf, Persist, Carried;
  }

  /** enable_key: that row is enabled without time or reason, every other row stays. */
  lemma EnableKeyView(c: Channel, parse: Parser, i: nat)
    requires Inv(c, parse) && i < |ViewOf(c, parse)|
    ensures var e, rows := Apply(c, EnableKey(Some(i)), parse), ViewOf(c, parse);
            e.reply.ok && ViewOf(e.channel, parse) == rows[i := Row(rows[i].key, 1, 0, "")]
  {
    hide KeysOf, Persist, Apply, EmptyArray, View;
    var gone := {i as int};
    var info := c.info.(status := c.info.status - gone, time := c.info.time - gone, reason := c.info.reason - gone);
    AppliedEnable(c, parse, i, info);
    SavedShows(c, info, parse);
    ViewUpdate(KeysOf(c.key, parse), c.info, info, i);
  }

  /** enable_all_keys: every row is enabled without time or reason. */
  lemma EnableAllView(c: Channel, parse: Parser)
    requires Inv(c, parse)
    ensures var e, rows := Apply(c, EnableAll, parse), ViewOf(c, parse);
            && e.reply.ok && |ViewOf(e.channel, parse)| == |rows|
            && forall j :: 0 <= j < |rows| ==> ViewOf(e.channel, parse)[j] == Row(rows[j].key, 1, 0, "")
  {
    var info := c.info.(status := map[], time := map[], reason := map[]);
    assert Apply(c, EnableAll, parse).channel == Persist(c, c.key, info, parse);
    SavedShows(c, info, parse);
    hide KeysOf, Persist, Apply, EmptyArray;
  }

  lemma {:induction false} EnabledBelowIff(info: Info, n: nat)
    ensures EnabledBelow(info, n) > 0 <==> exists j :: 0 <= j < n && StatusAt(info, j) == ENABLED
  {
    if n > 0 { EnabledBelowIff(info, n - 1); }
  }

  lemma AppliedDisableAll(c: Channel, parse: Parser)
    requires c.info.size >= 0
    ensures var e, n := Apply(c, DisableAll, parse), c.info.size;
            if EnabledBelow(c.info, n) == 0 then e == Effect(c, Reply(false, 0))
            else e == Effect(Persist(c, c.key, c.info.(status := AllDisabled(c.info, n)), parse), Reply(true, EnabledBelow(c.info, n)))
  {
    hide KeysOf, Persist, Carried, AllDisabled;
  }

  /** What disable_all_keys leaves of a row. */
  function AllDisabledRow(c: Channel, rows: seq<Row>, j: nat): (r: Row)
    requires j < |rows|
  {
    if rows[j].status == 1 then DisabledRow(c, rows[j].key, j, 2) else rows[j]
  }

  lemma ShownStatus(key: string, info: Info, j: int)
    ensures RowAt(key, info, j).status == StatusAt(info, j) && RowAt(key, info, j).key == key
  {
  }

  lemma RowDisabled(c: Channel, rows: seq<Row>, key: string, n: nat, j: nat)
    requires j < |rows| && j < n && rows[j] == RowAt(key, c.info, j)
    ensures RowAt(key, c.info.(status := AllDisabled(c.info, n)), j) == AllDisabledRow(c, rows, j)
  {
  }

  lemma EnabledOnly(c: Channel, rows: seq<Row>, j: nat)
    requires j < |rows| && rows[j].status != ENABLED
    ensures AllDisabledRow(c, rows, j) == rows[j]
  {
  }

  /** disable_all_keys: exactly the enabled rows become manually disabled; without an enabled
      row it is refused. */
  lemma DisableAllView(c: Channel, parse: Parser)
    requires Inv(c, parse)
    ensures var e, rows := Apply(c, DisableAll, parse), ViewOf(c, parse);
            && (e.reply.ok <==> exists j :: 0 <= j < |rows| && rows[j].status == 1)
            && |ViewOf(e.channel, parse)| == |rows|
            && forall j :: 0 <= j < |rows| ==> ViewOf(e.channel, parse)[j] == AllDisabledRow(c, rows, j)
  {
    hide KeysOf, Persist, Apply, EmptyArray, AllDisabled, EnabledBelow, AllDisabledRow, RowAt;
    var keys, n := KeysOf(c.key, parse), c.info.size;
    var rows := View(keys, c.info);
    AppliedDisableAll(c, parse);
    EnabledBelowIff(c.info, n);
    forall j | 0 <= j < |rows| ensures rows[j].status == StatusAt(c.info, j) { ShownStatus(keys[j], c.info, j); }
    if EnabledBelow(c.info, n) > 0 {
      SavedShows(c, c.info.(status := AllDisabled(c.info, n)), parse);
      forall j | 0 <= j < |rows|
        ensures RowAt(keys[j], c.info.(status := AllDisabled(c.info, n)), j) == AllDisabledRow(c, rows, j)
      {
        RowDisabled(c, rows, keys[j], n, j);
      }
    } else {
      forall j | 0 <= j < |rows| ensures rows[j] == AllDisabledRow(c, rows, j) { EnabledOnly(c, rows, j); }
    }
  }

  /** The key an automatic update is about: the first one equal to the key in use, or the
      first key when none is. */
  ghost predicate InUse(rows: seq<Row>, usingKey: string, i: nat) {
    && i < |rows| && (forall j :: 0 <= j < i ==> rows[j].key != usingKey)
    && (rows[i].key == usingKey || (i == 0 && forall j :: 0 <= j < |rows| ==> rows[j].key != usingKey))
  }

  lemma {:induction false} IndexInUse(keys: seq<string>, key: string, i: nat)
    requires i < |keys| && forall j :: 0 <= j < i ==> keys[j] != key
    requires keys[i] == key || (i == 0 && key !in keys)
    ensures IndexOf(keys, key) == i
  {
    if i > 0 {
      assert keys[i] in keys && keys[1..][i - 1] == keys[i];
      IndexInUse(keys[1..], key, i - 1);
    }
  }

  /** The maps after an automatic update of key `i`. */
  function Updated(info: Info, i: nat, status: int, reason: string, now: int): (r: Info) {
    if status == ENABLED then info.(status := info.status - {i as int})
    else info.(status := info.status[i := status], time := info.time[i := now], reason := info.reason[i := reason])
  }

  lemma AppliedAuto(c: Channel, parse: Parser, usingKey: string, status: int, reason: string, now: int)
    requires KeysOf(c.key, parse) != []
    ensures Apply(c, AutoUpdate(usingKey, status, reason, now), parse).channel
         == c.(info := Updated(c.info, IndexOf(KeysOf(c.key, parse), usingKey), status, reason, now))
  {
    hide KeysOf, Persist, Carried, IndexOf;
  }

  /** An automatic update changes exactly the row of the key in use. */
  lemma AutoUpdateView(c: Channel, parse: Parser, usingKey: string, status: int, reason: string, now: int, i: nat)
    requires InUse(ViewOf(c, parse), usingKey, i)
    ensures var e, rows := Apply(c, AutoUpdate(usingKey, status, reason, now), parse), ViewOf(c, parse);
            ViewOf(e.channel, parse) ==
              rows[i := if status == 1 then Row(rows[i].key, 1, 0, "") else Row(rows[i].key, status, now, reason)]
  {
    hide KeysOf, Apply, IndexOf;
    var keys, rows := KeysOf(c.key, parse), ViewOf(c, parse);
    assert forall j :: 0 <= j < |keys| ==> rows[j].key == keys[j];
    hide View;
    IndexInUse(keys, usingKey, i);
    AppliedAuto(c, parse, usingKey, status, reason, now);
    ViewUpdate(keys, c.info, Updated(c.info, i, status, reason, now), i);
  }

  // ----- What later actions will show -----

  lemma EnabledMaps(c: Channel, parse: Parser, i: nat)
    requires Inv(c, parse) && i < |ViewOf(c, parse)|
    ensures var info := Apply(c, EnableKey(Some(i)), parse).channel.info;
            i !in info.time && i !in info.reason
  {
    hide KeysOf, KeyCount, Carried, EmptyArray;
  }

  /** Enabling a key forgets its time and reason: disabled again, it shows none. */
  lemma EnableForgets(c: Channel, parse: Parser, i: nat)
    requires Inv(c, parse) && i < |ViewOf(c, parse)|
    ensures var rows, enabled := ViewOf(c, parse), Apply(c, EnableKey(Some(i)), parse).channel;
            ViewOf(Apply(enabled, DisableKey(Some(i)), parse).channel, parse) == rows[i := Row(rows[i].key, 2, 0, "")]
  {
    hide KeysOf, Persist, Apply, EmptyArray, View, Inv;
    var enabled := Apply(c, EnableKey(Some(i)), parse).channel;
    EnableKeyView(c, parse, i);
    StatusActionInv(c, EnableKey(Some(i)), parse);
    DisableKeyView(enabled, parse, i);
    EnabledMaps(c, parse, i);
  }

  /** Enabling all keys forgets every time and reason. */
  lemma EnableAllForgets(c: Channel, parse: Parser)
    ensures var info := Apply(c, EnableAll, parse).channel.info;
            info.status == map[] && info.time == map[] && info.reason == map[]
  {
    hide KeysOf, KeyCount, Carried;
  }

  /** Where key `j` is once key `i` is gone. */
  function Shifted(j: int, i: int): (k: int) {
    if j < i then j else j - 1
  }

  lemma {:induction false} DeleteKeyCount(keys: seq<string>, info: Info, n: nat, i: nat)
    requires n <= |keys|
    ensures |Carried(keys, info, n, DropIndex(i), true).keys| == if i < n then n - 1 else n
  {
    if n > 0 { DeleteKeyCount(keys, info, n - 1, i); }
  }

  /** delete_key carries the time and reason of every other key, enabled or not, to where the
      key is now. */
  lemma {:induction false} DeleteKeyCarries(keys: seq<string>, info: Info, n: nat, i: nat, j: nat)
    requires j < n <= |keys| && j != i
    ensures var r, k := Carried(keys, info, n, DropIndex(i), true).info, Shifted(j, i);
            && (k in r.time <==> j in info.time) && (j in info.time ==> r.time[k] == info.time[j])
            && (k in r.reason <==> j in info.reason) && (j in info.reason ==> r.reason[k] == info.reason[j])
  {
    DeleteKeyCount(keys, info, n - 1, i);
    CarriedUnfold(keys, info, n, DropIndex(i), true);
    hide Carried;
    if j < n - 1 { DeleteKeyCarries(keys, info, n - 1, i, j); }
  }

  /** delete_disabled_keys carries no time or reason of an enabled key. */
  lemma {:induction false} DeleteDisabledCarries(keys: seq<string>, info: Info, n: nat)
    requires n <= |keys|
    ensures var r := Carried(keys, info, n, DropAutoDisabled(info), false);
            r.info.time.Keys <= r.info.status.Keys && r.info.reason.Keys <= r.info.status.Keys
  {
    if n > 0 { DeleteDisabledCarries(keys, info, n - 1); }
  }

  // ----- Replies -----

  predicate ValidIndex(index: Option<int>, n: int) {
    index.Some? && 0 <= index.value < n
  }

  lemma StatusReplies(c: Channel, parse: Parser, index: Option<int>)
    ensures Apply(c, DisableKey(index), parse).reply.ok <==> ValidIndex(index, c.info.size)
    ensures Apply(c, EnableKey(index), parse).reply.ok <==> ValidIndex(index, c.info.size)
    ensures !ValidIndex(index, c.info.size) ==>
              Apply(c, DisableKey(index), parse).channel == c && Apply(c, EnableKey(index), parse).channel == c
  {
    hide KeysOf, Persist, Carried;
  }

  lemma DeleteKeyReply(c: Channel, parse: Parser, index: Option<int>)
    ensures var e, keys := Apply(c, DeleteKey(index), parse), KeysOf(c.key, parse);
            && (e.reply.ok <==> ValidIndex(index, c.info.size) && Without(keys, index.value) != [])
            && (!e.reply.ok ==> e.channel == c)
  {
    hide KeysOf, Persist, Carried, Without, View;
    if index.Some? { RemovedView(KeysOf(c.key, parse), c.info, index.value); }
  }

  lemma DeleteDisabledReply(c: Channel, parse: Parser)
    ensures var e, auto := Apply(c, DeleteDisabled, parse), CountStatus(ViewOf(c, parse), 3);
            && (e.reply.ok <==> auto > 0) && e.reply.count == auto
            && (!e.reply.ok ==> e.channel == c)
  {
    hide KeysOf, Persist, Carried, CountStatus, View, NotAutoDisabled;
    RemovedDisabledView(KeysOf(c.key, parse), c.info);
  }

  /** disable_key, enable_key and delete_key are refused exactly without a valid index, and
      delete_key also for the last key; delete_disabled_keys exactly when no key is
      automatically disabled, and it reports how many were. A refusal changes nothing. */
  lemma RepliesIff(c: Channel, parse: Parser, index: Option<int>)
    requires Inv(c, parse)
    ensures var n := |ViewOf(c, parse)|;
            && (Apply(c, DisableKey(index), parse).reply.ok <==> ValidIndex(index, n))
            && (Apply(c, EnableKey(index), parse).reply.ok <==> ValidIndex(index, n))
            && (Apply(c, DeleteKey(index), parse).reply.ok <==> ValidIndex(index, n) && n > 1)
            && (!Apply(c, DeleteKey(index), parse).reply.ok ==> Apply(c, DeleteKey(index), parse).channel == c)
            && (!ValidIndex(index, n) ==>
                  Apply(c, DisableKey(index), parse).channel == c && Apply(c, EnableKey(index), parse).channel == c)
    ensures var e, auto := Apply(c, DeleteDisabled, parse), CountStatus(ViewOf(c, parse), 3);
            && (e.reply.ok <==> auto > 0) && e.reply.count == auto
            && (!e.reply.ok ==> e.channel == c)
  {
    hide KeysOf, Apply, CountStatus, EmptyArray, Tidy;
    StatusReplies(c, parse, index);
    DeleteKeyReply(c, parse, index);
    DeleteDisabledReply(c, parse);
  }
}
