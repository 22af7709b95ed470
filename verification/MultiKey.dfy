/** Multi-key channels: one text of keys and three maps from key index to status,
    disable time and reason. Deleting keys renumbers the maps; what an operator sees
    in the key-status view must only lose the deleted rows. */
module MultiKey {
  import opened Text
  import opened Wrappers

  const ENABLED := 1
  const MANUALLY_DISABLED := 2
  const AUTO_DISABLED := 3

  /** Parsing the key text as a JSON array of raw keys; the JSON grammar stays a parameter. */
  type Parser = string -> Option<seq<string>>

  datatype Info = Info(size: int, status: map<int, int>, time: map<int, int>, reason: map<int, string>)

  /** A row of the key-status view; its index is its position. */
  datatype Row = Row(key: string, status: int, time: int, reason: string)

  /** The stored channel row, as far as keys are concerned. */
  datatype Channel = Channel(key: string, info: Info)

  // ----- Keys and text -----

  predicate LooksLikeArray(text: string) {
    var t := TrimSpace(text);
    t != "" && t[0] == '['
  }

  /** Channel.GetKeys */
  function KeysOf(text: string, parse: Parser): (keys: seq<string>) {
    if text == "" then []
    else if LooksLikeArray(text) && parse(TrimSpace(text)).Some? then parse(TrimSpace(text)).value
    else Split(TrimChar(text, '\n'), '\n')
  }

  /** The key count Channel.Update recomputes: an empty array falls through to splitting. */
  function KeyCount(text: string, parse: Parser): (n: nat) {
    if text == "" then 0
    else if LooksLikeArray(text) && parse(TrimSpace(text)).Some? && parse(TrimSpace(text)).value != []
    then |parse(TrimSpace(text)).value|
    else |Split(TrimChar(text, '\n'), '\n')|
  }

  /** The recomputed size is the number of keys, except for the text of an empty array,
      which counts as one key but has none. */
  lemma KeyCountMatchesIff(text: string, parse: Parser)
    ensures KeyCount(text, parse) == |KeysOf(text, parse)|
            <==> !(LooksLikeArray(text) && parse(TrimSpace(text)) == Some([]))
  {
    if LooksLikeArray(text) {
      assert text != "";
    }
  }

  function Below(status: map<int, int>, n: int): (r: map<int, int>)
    ensures forall i :: i in r <==> i in status && i < n
    ensures forall i :: i in r ==> r[i] == status[i]
  {
    map i | i in status && i < n :: status[i]
  }

  /** Channel.Update on the stored row: an empty key text means "keep the stored one", the
      size is recomputed, and statuses beyond it are dropped. */
  function Persist(stored: Channel, key: string, info: Info, parse: Parser): (c: Channel) {
    var text := if key == "" then stored.key else key;
    var n := KeyCount(text, parse);
    Channel(text, info.(size := n, status := Below(info.status, n)))
  }

  // ----- The view -----

  function StatusAt(info: Info, i: int): (s: int) {
    if i in info.status then info.status[i] else ENABLED
  }

  function RowAt(key: string, info: Info, i: int): (r: Row) {
    var s := StatusAt(info, i);
    if s == ENABLED then Row(key, s, 0, "")
    else Row(key, s, if i in info.time then info.time[i] else 0, if i in info.reason then info.reason[i] else "")
  }

  function View(keys: seq<string>, info: Info): (rows: seq<Row>)
    ensures |rows| == |keys|
    ensures forall i :: 0 <= i < |keys| ==> rows[i] == RowAt(keys[i], info, i)
  {
    seq(|keys|, i requires 0 <= i < |keys| => RowAt(keys[i], info, i))
  }

  function CountStatus(rows: seq<Row>, s: int): (n: nat)
    ensures n <= |rows|
  {
    if rows == [] then 0 else CountStatus(rows[..|rows| - 1], s) + (if rows[|rows| - 1].status == s then 1 else 0)
  }

  /** get_key_status before filtering and paging: the view and the three counts. */
  method GetKeyStatus(keys: seq<string>, info: Info)
    returns (rows: seq<Row>, enabled: nat, manual: nat, auto: nat)
    ensures rows == View(keys, info)
    ensures enabled == CountStatus(rows, ENABLED)
    ensures manual == CountStatus(rows, MANUALLY_DISABLED)
    ensures auto == CountStatus(rows, AUTO_DISABLED)
  {
    rows, enabled, manual, auto := [], 0, 0, 0;
    for i := 0 to |keys|
      invariant rows == View(keys, info)[..i]
      invariant enabled == CountStatus(rows, ENABLED)
      invariant manual == CountStatus(rows, MANUALLY_DISABLED)
      invariant auto == CountStatus(rows, AUTO_DISABLED)
    {
      var status := ENABLED;
      var disabledTime := 0;
      var reason := "";
      if i in info.status {
        status := info.status[i];
      }
      if status == ENABLED {
        enabled := enabled + 1;
      } else if status == MANUALLY_DISABLED {
        manual := manual + 1;
      } else if status == AUTO_DISABLED {
        auto := auto + 1;
      }
      if status != ENABLED {
        if i in info.time {
          disabledTime := info.time[i];
        }
        if i in info.reason {
          reason := info.reason[i];
        }
      }
      ghost var before := rows;
      rows := rows + [Row(keys[i], status, disabledTime, reason)];
      assert rows[..|rows| - 1] == before;
    }
  }

  // ----- Deleting and renumbering -----

  /** The maps only speak about existing keys, and never say "enabled". */
  predicate Tidy(info: Info, n: int) {
    && (forall i :: i in info.status ==> 0 <= i < n && info.status[i] != ENABLED)
    && (forall i :: i in info.time ==> 0 <= i < n)
    && (forall i :: i in info.reason ==> 0 <= i < n)
  }

  function EmptyInfo(): (info: Info) {
    Info(0, map[], map[], map[])
  }

  /** Carrying key `i` over to index `j`; `always` keeps time and reason of enabled keys. */
  function CarryOver(to: Info, j: int, info: Info, i: int, always: bool): (r: Info) {
    var disabled := StatusAt(info, i) != ENABLED;
    to.(status := if disabled then to.status[j := StatusAt(info, i)] else to.status,
        time := if (always || disabled) && i in info.time then to.time[j := info.time[i]] else to.time,
        reason := if (always || disabled) && i in info.reason then to.reason[j := info.reason[i]] else to.reason)
  }

  /** A carried-over key shows the same row under its new index. */
  lemma CarryOverExtends(keys: seq<string>, to: Info, key: string, info: Info, i: int, always: bool)
    requires Tidy(to, |keys|)
    ensures var next := CarryOver(to, |keys|, info, i, always);
            && Tidy(next, |keys| + 1)
            && View(keys + [key], next) == View(keys, to) + [RowAt(key, info, i)]
  {
    var next := CarryOver(to, |keys|, info, i, always);
    var longer := View(keys + [key], next);
    forall j | 0 <= j < |keys|
      ensures longer[j] == View(keys, to)[j]
    {
      assert StatusAt(next, j) == StatusAt(to, j);
    }
  }

  /** The keys and maps left after dropping the indices below `n` that `drop` picks. */
  datatype Rest = Rest(keys: seq<string>, info: Info)

  function Carried(keys: seq<string>, info: Info, n: nat, drop: int -> bool, always: bool): (r: Rest)
    requires n <= |keys|
    ensures |r.keys| <= n
    ensures Tidy(r.info, |r.keys|)
  {
    if n == 0 then Rest([], EmptyInfo())
    else
      var before := Carried(keys, info, n - 1, drop, always);
      if drop(n - 1) then before
      else
        CarryOverExtends(before.keys, before.info, keys[n - 1], info, n - 1, always);
        Rest(before.keys + [keys[n - 1]], CarryOver(before.info, |before.keys|, info, n - 1, always))
  }

  /** The elements at indices that are not dropped, in order. */
  function Keep<T>(s: seq<T>, drop: int -> bool): (r: seq<T>) {
    if s == [] then []
    else
      var before := Keep(s[..|s| - 1], drop);
      if drop(|s| - 1) then before else before + [s[|s| - 1]]
  }

  lemma KeepLast<T>(s: seq<T>, n: nat, drop: int -> bool)
    requires 0 < n <= |s|
    ensures Keep(s[..n], drop) == if drop(n - 1) then Keep(s[..n - 1], drop) else Keep(s[..n - 1], drop) + [s[n - 1]]
  {
    assert s[..n][..n - 1] == s[..n - 1];
  }

  lemma CarriedUnfold(keys: seq<string>, info: Info, n: nat, drop: int -> bool, always: bool)
    requires 0 < n <= |keys|
    ensures var before := Carried(keys, info, n - 1, drop, always);
            Carried(keys, info, n, drop, always)
            == if drop(n - 1) then before
               else Rest(before.keys + [keys[n - 1]], CarryOver(before.info, |before.keys|, info, n - 1, always))
  {
    hide CarryOver, Tidy, View;
  }

  lemma CarriedStep(keys: seq<string>, info: Info, n: nat, drop: int -> bool, always: bool)
    requires 0 < n <= |keys|
    ensures var r, before := Carried(keys, info, n, drop, always), Carried(keys, info, n - 1, drop, always);
            if drop(n - 1) then r == before
            else && View(r.keys, r.info) == View(before.keys, before.info) + [View(keys, info)[n - 1]]
                 && r.keys == before.keys + [keys[n - 1]]
  {
    hide Carried, View, CarryOver, Tidy, RowAt;
    var before := Carried(keys, info, n - 1, drop, always);
    CarriedUnfold(keys, info, n, drop, always);
    CarryOverExtends(before.keys, before.info, keys[n - 1], info, n - 1, always);
  }

  /** Renumbering is invisible: the view of what is left is the old view without the
      dropped rows, for every contents of the three maps. */
  lemma {:induction false} CarriedView(keys: seq<string>, info: Info, n: nat, drop: int -> bool, always: bool)
    requires n <= |keys|
    ensures var r := Carried(keys, info, n, drop, always);
            && View(r.keys, r.info) == Keep(View(keys, info)[..n], drop)
            && r.keys == Keep(keys[..n], drop)
  {
    if n > 0 {
      hide Carried, View, Keep;
      CarriedView(keys, info, n - 1, drop, always);
      CarriedStep(keys, info, n, drop, always);
      KeepLast(View(keys, info), n, drop);
      KeepLast(keys, n, drop);
    }
  }

  function DropIndex(i: int): (drop: int -> bool) {
    (j: int) => j == i
  }

  function DropAutoDisabled(info: Info): (drop: int -> bool) {
    (j: int) => StatusAt(info, j) == AUTO_DISABLED
  }

  function Without<T>(s: seq<T>, i: int): (r: seq<T>) {
    if 0 <= i < |s| then s[..i] + s[i + 1..] else s
  }

  function NotAutoDisabled(rows: seq<Row>): (r: seq<Row>) {
    if rows == [] then []
    else if rows[|rows| - 1].status == AUTO_DISABLED then NotAutoDisabled(rows[..|rows| - 1])
    else NotAutoDisabled(rows[..|rows| - 1]) + [rows[|rows| - 1]]
  }

  lemma {:induction false} KeepAllButOne<T>(s: seq<T>, i: int)
    ensures Keep(s, DropIndex(i)) == Without(s, i)
  {
    if s != [] {
      var n := |s| - 1;
      KeepAllButOne(s[..n], i);
      assert s == s[..n] + [s[n]];
      if i == n {
        assert Without(s[..n], i) == s[..n] && Without(s, i) == s[..n];
      } else if 0 <= i < n {
        assert Without(s, i) == Without(s[..n], i) + [s[n]];
      }
    }
  }

  lemma {:induction false} KeepNotAutoDisabled(keys: seq<string>, info: Info, n: nat)
    requires n <= |keys|
    ensures var rows := View(keys, info)[..n];
            && Keep(rows, DropAutoDisabled(info)) == NotAutoDisabled(rows)
            && |Keep(rows, DropAutoDisabled(info))| == n - CountStatus(rows, AUTO_DISABLED)
  {
    if n > 0 {
      KeepNotAutoDisabled(keys, info, n - 1);
      var rows := View(keys, info);
      assert rows[..n][..n - 1] == rows[..n - 1];
    }
  }

  lemma RemovedView(keys: seq<string>, info: Info, keyIndex: int)
    ensures var r := Carried(keys, info, |keys|, DropIndex(keyIndex), true);
            r.keys == Without(keys, keyIndex) && View(r.keys, r.info) == Without(View(keys, info), keyIndex)
  {
    hide Carried, Keep, Without;
    CarriedView(keys, info, |keys|, DropIndex(keyIndex), true);
    assert keys[..|keys|] == keys && View(keys, info)[..|keys|] == View(keys, info);
    KeepAllButOne(keys, keyIndex);
    KeepAllButOne(View(keys, info), keyIndex);
  }

  /** The loop of delete_key: the view without the deleted row, renumbered. */
  method RemoveKey(keys: seq<string>, info: Info, keyIndex: int) returns (remaining: seq<string>, next: Info)
    ensures Rest(remaining, next) == Carried(keys, info, |keys|, DropIndex(keyIndex), true)
    ensures remaining == Without(keys, keyIndex)
    ensures View(remaining, next) == Without(View(keys, info), keyIndex)
  {
    remaining, next := [], EmptyInfo();
    for i := 0 to |keys|
      invariant Rest(remaining, next) == Carried(keys, info, i, DropIndex(keyIndex), true)
    {
      if i == keyIndex {
        continue;
      }
      var newIndex := |remaining|;
      remaining := remaining + [keys[i]];
      next := CarryOver(next, newIndex, info, i, true);
    }
    RemovedView(keys, info, keyIndex);
  }

  lemma RemovedDisabledView(keys: seq<string>, info: Info)
    ensures var r := Carried(keys, info, |keys|, DropAutoDisabled(info), false);
            && View(r.keys, r.info) == NotAutoDisabled(View(keys, info))
            && |r.keys| == |keys| - CountStatus(View(keys, info), AUTO_DISABLED)
  {
    hide Carried, Keep, NotAutoDisabled, CountStatus;
    CarriedView(keys, info, |keys|, DropAutoDisabled(info), false);
    assert View(keys, info)[..|keys|] == View(keys, info);
    KeepNotAutoDisabled(keys, info, |keys|);
  }

  /** The loop of delete_disabled_keys: the view without the automatically disabled rows. */
  method RemoveDisabled(keys: seq<string>, info: Info)
    returns (remaining: seq<string>, next: Info, deleted: nat)
    ensures Rest(remaining, next) == Carried(keys, info, |keys|, DropAutoDisabled(info), false)
    ensures View(remaining, next) == NotAutoDisabled(View(keys, info))
    ensures deleted == CountStatus(View(keys, info), AUTO_DISABLED)
  {
    remaining, next, deleted := [], EmptyInfo(), 0;
    for i := 0 to |keys|
      invariant Rest(remaining, next) == Carried(keys, info, i, DropAutoDisabled(info), false)
      invariant deleted == i - |remaining|
    {
      var status := StatusAt(info, i);
      if status == AUTO_DISABLED {
        deleted := deleted + 1;
      } else {
        var newIndex := |remaining|;
        remaining := remaining + [keys[i]];
        next := CarryOver(next, newIndex, info, i, false);
      }
    }
    RemovedDisabledView(keys, info);
  }

  // ----- The actions -----

  datatype Action =
    | DisableKey(index: Option<int>)
    | EnableKey(index: Option<int>)
    | EnableAll
    | DisableAll
    | DeleteKey(index: Option<int>)
    | DeleteDisabled
    | AutoUpdate(usingKey: string, status: int, reason: string, now: int)

  /** What an action answers: whether it succeeded, and the number it reports. */
  datatype Reply = Reply(ok: bool, count: int)
  datatype Effect = Effect(channel: Channel, reply: Reply)

  predicate InRange(c: Channel, index: Option<int>) {
    index.Some? && 0 <= index.value < c.info.size
  }

  function EnabledBelow(info: Info, n: nat): (count: nat) {
    if n == 0 then 0 else EnabledBelow(info, n - 1) + (if StatusAt(info, n - 1) == ENABLED then 1 else 0)
  }

  /** The statuses after disabling every enabled key below `n`. */
  function AllDisabled(info: Info, n: nat): (status: map<int, int>)
    ensures forall i :: i in status <==> i in info.status || 0 <= i < n
    ensures forall i :: i in status ==>
              status[i] == if 0 <= i < n && StatusAt(info, i) == ENABLED then MANUALLY_DISABLED else StatusAt(info, i)
  {
    if n == 0 then info.status
    else
      var before := AllDisabled(info, n - 1);
      if StatusAt(info, n - 1) == ENABLED then before[n - 1 := MANUALLY_DISABLED] else before
  }

  /** The first key equal to the one in use, or the first key when none is. */
  function IndexOf(keys: seq<string>, key: string): (i: nat)
    requires keys != []
    ensures i < |keys| && (key in keys ==> keys[i] == key && key !in keys[..i])
  {
    if keys[0] == key || |keys| == 1 || key !in keys then 0
    else 1 + IndexOf(keys[1..], key)
  }

  function Apply(c: Channel, a: Action, parse: Parser): (e: Effect) {
    var info, keys := c.info, KeysOf(c.key, parse);
    var refused := Effect(c, Reply(false, 0));
    match a
    case DisableKey(index) =>
      if !InRange(c, index) then refused
      else Effect(Persist(c, c.key, info.(status := info.status[index.value := MANUALLY_DISABLED]), parse), Reply(true, 0))
    case EnableKey(index) =>
      if !InRange(c, index) then refused
      else
        var gone := {index.value};
        Effect(Persist(c, c.key, info.(status := info.status - gone, time := info.time - gone, reason := info.reason - gone), parse),
               Reply(true, 0))
    case EnableAll =>
      Effect(Persist(c, c.key, info.(status := map[], time := map[], reason := map[]), parse), Reply(true, |info.status|))
    case DisableAll =>
      var n := if info.size < 0 then 0 else info.size;
      var count := EnabledBelow(info, n);
      if count == 0 then refused
      else Effect(Persist(c, c.key, info.(status := AllDisabled(info, n)), parse), Reply(true, count))
    case DeleteKey(index) =>
      if !InRange(c, index) then refused
      else
        var r := Carried(keys, info, |keys|, DropIndex(index.value), true);
        if r.keys == [] then refused
        else Effect(Persist(c, Join(r.keys, '\n'), r.info.(size := |r.keys|), parse), Reply(true, 0))
    case DeleteDisabled =>
      var r := Carried(keys, info, |keys|, DropAutoDisabled(info), false);
      var deleted := |keys| - |r.keys|;
      if deleted == 0 then refused
      else Effect(Persist(c, Join(r.keys, '\n'), r.info.(size := |r.keys|), parse), Reply(true, deleted))
    case AutoUpdate(usingKey, status, reason, now) =>
      if keys == [] then refused
      else
        var i := IndexOf(keys, usingKey);
        if status == ENABLED then Effect(c.(info := info.(status := info.status - {i})), Reply(true, 0))
        else Effect(c.(info := info.(status := info.status[i := status], time := info.time[i := now], reason := info.reason[i := reason])),
                    Reply(true, 0))
  }

  // ----- The channel object -----

  /** The clean-up loop of Channel.Update, over any key type. */
  method DropBeyond<K(==), V>(list: map<K, V>, beyond: K -> bool) returns (kept: map<K, V>)
    ensures forall i :: i in kept <==> i in list && !beyond(i)
    ensures forall i :: i in kept ==> kept[i] == list[i]
  {
    kept := list;
    var todo := list.Keys;
    while todo != {}
      invariant todo <= list.Keys
      invariant forall i :: i in todo ==> i in kept
      invariant forall i :: i in kept ==> i in list && kept[i] == list[i]
      invariant forall i :: i in list && i !in todo ==> (i in kept <==> !beyond(i))
      decreases todo
    {
      var i :| i in todo;
      if beyond(i) {
        kept := kept - {i};
      }
      todo := todo - {i};
    }
  }

  class MultiKeyChannel {
    var key: string
    var info: Info
    const parse: Parser

    ghost function Model(): (c: Channel)
      reads this
    {
      Channel(key, info)
    }

    constructor (key: string, info: Info, parse: Parser)
      ensures Model() == Channel(key, info) && this.parse == parse
    {
      this.key, this.info, this.parse := key, info, parse;
    }

    /** Channel.Update: `newKey` and `newInfo` are the in-memory copy, the fields the row. */
    method Update(newKey: string, newInfo: Info)
      modifies this
      ensures Model() == Persist(old(Model()), newKey, newInfo, parse)
    {
      var keyStr := newKey;
      if keyStr == "" {
        keyStr := key;
      }
      var n := KeyCount(keyStr, parse);
      var status := DropBeyond(newInfo.status, i => i >= n);
      assert status == Below(newInfo.status, n);
      if newKey != "" {
        key := newKey;
      }
      info := newInfo.(size := n, status := status);
    }

    method Disable(index: Option<int>) returns (reply: Reply)
      modifies this
      ensures Effect(Model(), reply) == Apply(old(Model()), DisableKey(index), parse)
    {
      if index.None? || index.value < 0 || index.value >= info.size {
        return Reply(false, 0);
      }
      Update(key, info.(status := info.status[index.value := MANUALLY_DISABLED]));
      return Reply(true, 0);
    }

    method Enable(index: Option<int>) returns (reply: Reply)
      modifies this
      ensures Effect(Model(), reply) == Apply(old(Model()), EnableKey(index), parse)
    {
      if index.None? || index.value < 0 || index.value >= info.size {
        return Reply(false, 0);
      }
      var i := index.value;
      Update(key, info.(status := info.status - {i}, time := info.time - {i}, reason := info.reason - {i}));
      return Reply(true, 0);
    }

    method EnableAllKeys() returns (reply: Reply)
      modifies this
      ensures Effect(Model(), reply) == Apply(old(Model()), EnableAll, parse)
    {
      var enabledCount := |info.status|;
      Update(key, info.(status := map[], time := map[], reason := map[]));
      return Reply(true, enabledCount);
    }

    method DisableAllKeys() returns (reply: Reply)
      modifies this
      ensures Effect(Model(), reply) == Apply(old(Model()), DisableAll, parse)
    {
      var status, disabledCount := info.status, 0;
      var n := if info.size < 0 then 0 else info.size;
      for i := 0 to n
        invariant disabledCount == EnabledBelow(info, i)
        invariant status == AllDisabled(info, i)
        invariant info == old(info) && key == old(key)
      {
        var s := if i in status then status[i] else ENABLED;
        assert s == StatusAt(info, i);
        if s == ENABLED {
          status := status[i := MANUALLY_DISABLED];
          disabledCount := disabledCount + 1;
        }
      }
      if disabledCount == 0 {
        return Reply(false, 0);
      }
      Update(key, info.(status := status));
      return Reply(true, disabledCount);
    }

    method Delete(index: Option<int>) returns (reply: Reply)
      modifies this
      ensures Effect(Model(), reply) == Apply(old(Model()), DeleteKey(index), parse)
    {
      hide Carried, KeysOf, Persist, Without, Join;
      if index.None? || index.value < 0 || index.value >= info.size {
        return Reply(false, 0);
      }
      var keys := KeysOf(key, parse);
      var remaining, next := RemoveKey(keys, info, index.value);
      if remaining == [] {
        return Reply(false, 0);
      }
      Update(Join(remaining, '\n'), next.(size := |remaining|));
      return Reply(true, 0);
    }

    method DeleteDisabledKeys() returns (reply: Reply)
      modifies this
      ensures Effect(Model(), reply) == Apply(old(Model()), DeleteDisabled, parse)
    {
      hide Carried, KeysOf, Persist, NotAutoDisabled, CountStatus, Join;
      var keys := KeysOf(key, parse);
      RemovedDisabledView(keys, info);
      var remaining, next, deletedCount := RemoveDisabled(keys, info);
      if deletedCount == 0 {
        return Reply(false, 0);
      }
      Update(Join(remaining, '\n'), next.(size := |remaining|));
      return Reply(true, deletedCount);
    }
  }
}
