/** What holds of multi-key channels over every run of actions, down to the stored
    key text. */
module MultiKeyLaws {
  import opened Text
  import opened Wrappers
  import opened MultiKey
  import opened KeyText

  // ----- The invariant of a channel -----

  /** The size is the number of keys, and the maps are tidy. */
  ghost predicate Inv(c: Channel, parse: Parser) {
    && c.info.size == |KeysOf(c.key, parse)|
    && Tidy(c.info, c.info.size)
    && !EmptyArray(c.key, parse)
  }

  function ViewOf(c: Channel, parse: Parser): (rows: seq<Row>) {
    View(KeysOf(c.key, parse), c.info)
  }

  lemma ViewIgnoresSize(keys: seq<string>, info: Info, n: int)
    ensures View(keys, info.(size := n)) == View(keys, info)
  {
    var other := info.(size := n);
    assert forall i :: 0 <= i < |keys| ==> RowAt(keys[i], other, i) == RowAt(keys[i], info, i);
  }

  /** Saving tidy maps under a text that keeps its keys changes nothing else. */
  lemma PersistKeeps(stored: Channel, key: string, info: Info, keys: seq<string>, parse: Parser)
    requires var text := if key == "" then stored.key else key;
             KeysOf(text, parse) == keys && !EmptyArray(text, parse)
    requires Tidy(info, |keys|)
    ensures var c := Persist(stored, key, info, parse);
            && Inv(c, parse) && KeysOf(c.key, parse) == keys
            && c.info == info.(size := |keys|) && ViewOf(c, parse) == View(keys, info)
  {
    hide KeysOf, KeyCount, LooksLikeArray, TrimSpace, View;
    var text := if key == "" then stored.key else key;
    KeyCountMatchesIff(text, parse);
    assert Below(info.status, |keys|) == info.status;
    ViewIgnoresSize(keys, info, |keys|);
  }

  // ----- Deletion is a renumbered filter -----

  /** The keys of some rows. */
  function KeysIn(rows: seq<Row>): (keys: seq<string>) {
    seq(|rows|, i requires 0 <= i < |rows| => rows[i].key)
  }

  lemma KeysInView(keys: seq<string>, info: Info)
    ensures KeysIn(View(keys, info)) == keys
  {
  }

  /** The row after saving what a deletion left. */
  function AfterDeletion(c: Channel, r: Rest, parse: Parser): (c': Channel) {
    Persist(c, Join(r.keys, '\n'), r.info.(size := |r.keys|), parse)
  }

  lemma SurvivorsShow(c: Channel, r: Rest, parse: Parser)
    requires r.keys != [] && Tidy(r.info, |r.keys|) && KeysOf(TextAfter(c.key, r.keys), parse) == r.keys
    ensures ViewOf(AfterDeletion(c, r, parse), parse) == View(r.keys, r.info)
  {
    hide Persist, KeysOf, View, EmptyArray;
    var info := r.info.(size := |r.keys|);
    SomeKeys(TextAfter(c.key, r.keys), parse);
    PersistKeeps(c, Join(r.keys, '\n'), info, r.keys, parse);
    ViewIgnoresSize(r.keys, r.info, |r.keys|);
  }

  /** What is left shows unchanged exactly when its keys survive as text. */
  lemma DeletionStoredIff(c: Channel, r: Rest, parse: Parser)
    requires r.keys != [] && Tidy(r.info, |r.keys|)
    ensures ViewOf(AfterDeletion(c, r, parse), parse) == View(r.keys, r.info) <==>
              Survives(r.keys, parse) || r.keys == KeysOf(c.key, parse) == [""]
  {
    var c' := AfterDeletion(c, r, parse);
    assert c'.key == TextAfter(c.key, r.keys);
    hide Persist, Join, KeysOf, View, TextAfter, Survives;
    TextAfterIff(c.key, r.keys, parse);
    KeysInView(r.keys, r.info);
    KeysInView(KeysOf(c'.key, parse), c'.info);
    if KeysOf(c'.key, parse) == r.keys {
      SurvivorsShow(c, r, parse);
    }
  }

  /** A successful delete_key removes exactly that row from the view if and only if the
      other keys survive as text (or a single blank key is all there is and stays). */
  lemma DeleteKeyViewIff(c: Channel, parse: Parser, i: int)
    requires Apply(c, DeleteKey(Some(i)), parse).reply.ok
    ensures var left := Without(KeysOf(c.key, parse), i);
            ViewOf(Apply(c, DeleteKey(Some(i)), parse).channel, parse) == Without(ViewOf(c, parse), i) <==>
              Survives(left, parse) || left == KeysOf(c.key, parse) == [""]
  {
    hide Carried, Persist, Join, KeysOf, View, Without, Survives;
    var keys := KeysOf(c.key, parse);
    var r := Carried(keys, c.info, |keys|, DropIndex(i), true);
    RemovedView(keys, c.info, i);
    DeletionStoredIff(c, r, parse);
  }

  lemma {:induction false} CountAll(rows: seq<Row>)
    requires forall i :: 0 <= i < |rows| ==> rows[i].status == ENABLED
    ensures CountStatus(rows, ENABLED) == |rows|
  {
    if rows != [] {
      CountAll(rows[..|rows| - 1]);
    }
  }

  lemma AllGone(c: Channel, parse: Parser)
    requires var keys := KeysOf(c.key, parse);
             keys != [] && Carried(keys, c.info, |keys|, DropAutoDisabled(c.info), false).keys == []
    ensures var after := ViewOf(Apply(c, DeleteDisabled, parse).channel, parse);
            |after| == |KeysOf(c.key, parse)| && CountStatus(after, ENABLED) == |after|
  {
    hide Carried, KeysOf, View, CountStatus, EmptyArray, Persist;
    var keys := KeysOf(c.key, parse);
    SomeKeys(c.key, parse);
    var r := Carried(keys, c.info, |keys|, DropAutoDisabled(c.info), false);
    var blank := r.info.(size := 0);
    assert Join(r.keys, '\n') == "";
    PersistKeeps(c, "", blank, keys, parse);
    assert Apply(c, DeleteDisabled, parse).channel == Persist(c, "", blank, parse);
    CountAll(View(keys, blank));
  }

  /** A successful delete_disabled_keys removes exactly the automatically disabled rows from
      the view if and only if the keys of the other rows survive as text. When there is no
      other row, the stored text is kept, the statuses are cleared, and every automatically
      disabled key comes back enabled. */
  lemma DeleteDisabledViewIff(c: Channel, parse: Parser)
    requires Apply(c, DeleteDisabled, parse).reply.ok
    ensures var before := ViewOf(c, parse);
            var after := ViewOf(Apply(c, DeleteDisabled, parse).channel, parse);
            && (after == NotAutoDisabled(before) <==> Survives(KeysIn(NotAutoDisabled(before)), parse))
            && (CountStatus(before, AUTO_DISABLED) == |before| ==>
                  |after| == |before| && CountStatus(after, ENABLED) == |after|)
  {
    hide Carried, Persist, Join, KeysOf, View, NotAutoDisabled, CountStatus, ReadsAsArray;
    var keys := KeysOf(c.key, parse);
    var r := Carried(keys, c.info, |keys|, DropAutoDisabled(c.info), false);
    RemovedDisabledView(keys, c.info);
    KeysInView(r.keys, r.info);
    if r.keys == [] {
      AllGone(c, parse);
    } else {
      DeletionStoredIff(c, r, parse);
    }
  }

  // ----- Runs of actions -----

  /** Changing statuses only: tidy maps stay tidy and the keys stay. */
  lemma StatusActionInv(c: Channel, a: Action, parse: Parser)
    requires Inv(c, parse) && !a.DeleteKey? && !a.DeleteDisabled? && !a.AutoUpdate?
    ensures var c' := Apply(c, a, parse).channel;
            Inv(c', parse) && c'.key == c.key
  {
    hide KeysOf, View, EmptyArray, KeyCount;
    var keys, info := KeysOf(c.key, parse), c.info;
    match a
    case DisableKey(index) =>
      if InRange(c, index) {
        PersistKeeps(c, c.key, info.(status := info.status[index.value := MANUALLY_DISABLED]), keys, parse);
      }
    case EnableKey(index) =>
      if InRange(c, index) {
        var gone := {index.value};
        PersistKeeps(c, c.key, info.(status := info.status - gone, time := info.time - gone, reason := info.reason - gone), keys, parse);
      }
    case EnableAll =>
      PersistKeeps(c, c.key, info.(status := map[], time := map[], reason := map[]), keys, parse);
    case DisableAll =>
      if EnabledBelow(info, |keys|) > 0 {
        PersistKeeps(c, c.key, info.(status := AllDisabled(info, |keys|)), keys, parse);
      }
  }

  lemma AutoUpdateInv(c: Channel, a: Action, parse: Parser)
    requires Inv(c, parse) && a.AutoUpdate?
    ensures var c' := Apply(c, a, parse).channel;
            Inv(c', parse) && c'.key == c.key
  {
    hide KeysOf, EmptyArray;
    var keys := KeysOf(c.key, parse);
    if keys != [] {
      var i := IndexOf(keys, a.usingKey);
      assert 0 <= i < |keys|;
    }
  }

  /** What a deleting action leaves, before it is saved. */
  function LeftOver(c: Channel, a: Action, parse: Parser): (r: Rest)
    ensures Tidy(r.info, |r.keys|)
  {
    var keys := KeysOf(c.key, parse);
    if a.DeleteKey? && a.index.Some? then Carried(keys, c.info, |keys|, DropIndex(a.index.value), true)
    else Carried(keys, c.info, |keys|, DropAutoDisabled(c.info), false)
  }

  predicate IndicesBelow(info: Info, n: int) {
    (forall i :: i in info.time ==> i < n) && (forall i :: i in info.reason ==> i < n)
  }

  lemma SavedInvIff(c: Channel, r: Rest, parse: Parser)
    requires Tidy(r.info, |r.keys|)
    ensures var text := TextAfter(c.key, r.keys);
            Inv(AfterDeletion(c, r, parse), parse) <==> !EmptyArray(text, parse) && IndicesBelow(r.info, KeyCount(text, parse))
  {
    hide Join, KeysOf, KeyCount, LooksLikeArray, TrimSpace;
    KeyCountMatchesIff(TextAfter(c.key, r.keys), parse);
  }

  /** A deletion keeps the invariant exactly when the times and reasons carried over stay
      below the number of keys counted in the new text, and that is no empty array. */
  lemma DeletionInvIff(c: Channel, a: Action, parse: Parser)
    requires (a.DeleteKey? || a.DeleteDisabled?) && Apply(c, a, parse).reply.ok
    ensures var r := LeftOver(c, a, parse);
            var text := TextAfter(c.key, r.keys);
            Inv(Apply(c, a, parse).channel, parse) <==> !EmptyArray(text, parse) && IndicesBelow(r.info, KeyCount(text, parse))
  {
    hide Carried, Join, Persist, KeysOf, KeyCount, EmptyArray, Tidy;
    SavedInvIff(c, LeftOver(c, a, parse), parse);
  }

  /** A successful deletion leaves some of the keys, in order, but not all. */
  lemma LeftIsSub(c: Channel, a: Action, parse: Parser)
    requires Inv(c, parse) && (a.DeleteKey? || a.DeleteDisabled?) && Apply(c, a, parse).reply.ok
    ensures Sub(LeftOver(c, a, parse).keys, KeysOf(c.key, parse))
    ensures |LeftOver(c, a, parse).keys| < |KeysOf(c.key, parse)|
  {
    hide Carried, Join, Persist, KeysOf, EmptyArray, Tidy, Sub;
    var keys := KeysOf(c.key, parse);
    assert keys[..|keys|] == keys;
    if a.DeleteKey? {
      CarriedView(keys, c.info, |keys|, DropIndex(a.index.value), true);
      KeepIsSub(keys, DropIndex(a.index.value));
      RemovedView(keys, c.info, a.index.value);
    } else {
      CarriedView(keys, c.info, |keys|, DropAutoDisabled(c.info), false);
      KeepIsSub(keys, DropAutoDisabled(c.info));
    }
  }

  lemma TextAfterNothing(text: string)
    ensures TextAfter(text, []) == text
  {
  }

  lemma NothingLeft(c: Channel, a: Action, parse: Parser)
    requires LeftOver(c, a, parse).keys == []
    ensures IndicesBelow(LeftOver(c, a, parse).info, 0)
  {
    hide Carried, KeysOf;
  }

  lemma DeletedText(c: Channel, a: Action, parse: Parser)
    requires a.DeleteKey? || a.DeleteDisabled?
    ensures var e := Apply(c, a, parse);
            if e.reply.ok then e.channel.key == TextAfter(c.key, LeftOver(c, a, parse).keys) else e.channel == c
  {
    hide Carried, KeysOf, KeyCount, Join, Tidy;
  }

  lemma DeleteActionInv(c: Channel, a: Action, parse: Parser)
    requires Inv(c, parse) && LastsForever(c.key, parse) && (a.DeleteKey? || a.DeleteDisabled?)
    ensures var c' := Apply(c, a, parse).channel;
            Inv(c', parse) && LastsForever(c'.key, parse)
  {
    DeletedText(c, a, parse);
    if Apply(c, a, parse).reply.ok {
      hide KeysOf, EmptyArray, Sub, LastsForever, Apply, TextAfter, KeyCount, LeftOver;
      var r := LeftOver(c, a, parse);
      DeletionInvIff(c, a, parse);
      LeftIsSub(c, a, parse);
      if r.keys == [] {
        TextAfterNothing(c.key);
        NothingLeft(c, a, parse);
      } else {
        LastsStep(c.key, parse, r.keys);
      }
    }
  }

  /** Every action on a channel whose text lasts keeps the invariant, and the text lasting. */
  lemma ActionKeepsInv(c: Channel, a: Action, parse: Parser)
    requires Inv(c, parse) && LastsForever(c.key, parse)
    ensures var c' := Apply(c, a, parse).channel;
            Inv(c', parse) && LastsForever(c'.key, parse)
  {
    hide KeysOf, Apply, Inv, LastsForever;
    if a.DeleteKey? || a.DeleteDisabled? {
      DeleteActionInv(c, a, parse);
    } else if a.AutoUpdate? {
      AutoUpdateInv(c, a, parse);
    } else {
      StatusActionInv(c, a, parse);
    }
  }

  ghost function RunActions(c: Channel, actions: seq<Action>, parse: Parser): Channel {
    if actions == [] then c
    else Apply(RunActions(c, actions[..|actions| - 1], parse), actions[|actions| - 1], parse).channel
  }

  /** Over every run of actions on a text that lasts the size stays the number of keys, the
      maps stay in range and never say "enabled". */
  lemma {:induction false} RunKeepsInv(c: Channel, actions: seq<Action>, parse: Parser)
    requires Inv(c, parse) && LastsForever(c.key, parse)
    ensures var c' := RunActions(c, actions, parse);
            Inv(c', parse) && LastsForever(c'.key, parse)
  {
    hide Apply, Inv, LastsForever;
    if actions != [] {
      var n := |actions| - 1;
      RunKeepsInv(c, actions[..n], parse);
      ActionKeepsInv(RunActions(c, actions[..n], parse), actions[n], parse);
    }
  }

  // ----- Lasting is the weakest condition -----

  /** A condition on key texts under which every action keeps the invariant and itself. */
  ghost predicate Preserved(p: string -> bool, parse: Parser) {
    forall c, a :: Inv(c, parse) && p(c.key) ==> Inv(Apply(c, a, parse).channel, parse) && p(Apply(c, a, parse).channel.key)
  }

  /** A channel whose keys are all disabled with a time, `gone` ones automatically. */
  function Marked(text: string, parse: Parser, gone: int -> bool): (c: Channel) {
    var n := |KeysOf(text, parse)|;
    var status := map i | 0 <= i < n :: if gone(i) then AUTO_DISABLED else MANUALLY_DISABLED;
    Channel(text, Info(n, status, map i | i in status :: 0, map[]))
  }

  lemma {:induction false} TimesCarried(keys: seq<string>, info: Info, n: nat, drop: int -> bool)
    requires n <= |keys| && forall i :: 0 <= i < n ==> i in info.time && StatusAt(info, i) != ENABLED
    ensures forall j :: 0 <= j < |Carried(keys, info, n, drop, false).keys| ==> j in Carried(keys, info, n, drop, false).info.time
  {
    if n > 0 { TimesCarried(keys, info, n - 1, drop); }
  }

  /** On a marked channel delete_disabled_keys leaves just the keys not gone, each with its
      time. */
  lemma MarkedLeaves(text: string, parse: Parser, gone: int -> bool)
    ensures var c, keys := Marked(text, parse, gone), KeysOf(text, parse);
            var r := LeftOver(c, DeleteDisabled, parse);
            r.keys == Keep(keys, gone) && forall j :: 0 <= j < |r.keys| ==> j in r.info.time
  {
    hide KeysOf, Carried, Keep;
    var c, keys := Marked(text, parse, gone), KeysOf(text, parse);
    CarriedView(keys, c.info, |keys|, DropAutoDisabled(c.info), false);
    assert keys[..|keys|] == keys;
    KeepSame(keys, DropAutoDisabled(c.info), gone);
    TimesCarried(keys, c.info, |keys|, DropAutoDisabled(c.info));
  }

  lemma SavedText(c: Channel, r: Rest, parse: Parser)
    ensures AfterDeletion(c, r, parse).key == TextAfter(c.key, r.keys)
  {
    hide Join, KeyCount;
  }

  lemma MarkedDeletion(text: string, parse: Parser, s: seq<string>, gone: int -> bool)
    requires !EmptyArray(text, parse) && Left(s, text, parse) && Keep(KeysOf(text, parse), gone) == s
    ensures var c := Marked(text, parse, gone);
            var c' := Apply(c, DeleteDisabled, parse).channel;
            && Inv(c, parse) && c'.key == TextAfter(text, s)
            && (Inv(c', parse) ==> Counts(text, s, parse))
  {
    var c := Marked(text, parse, gone);
    MarkedLeaves(text, parse, gone);
    hide Carried, Join, KeysOf, KeyCount, EmptyArray, Keep, Sub, TextAfter;
    var r := LeftOver(c, DeleteDisabled, parse);
    assert Inv(c, parse);
    assert Apply(c, DeleteDisabled, parse).reply.ok;
    DeletionInvIff(c, DeleteDisabled, parse);
    assert |s| - 1 in r.info.time;
    SavedText(c, r, parse);
  }

  /** No weaker condition on the key text will do: any condition under which every action
      keeps the invariant and the condition implies that the text lasts. */
  lemma {:induction false} LastingIsWeakest(p: string -> bool, text: string, parse: Parser, n: nat)
    requires Preserved(p, parse) && p(text) && !EmptyArray(text, parse)
    ensures Lasts(text, parse, n)
    decreases n
  {
    hide KeysOf, KeyCount, Apply, TextAfter, EmptyArray, Sub, Keep;
    if n > 0 {
      forall s | Left(s, text, parse)
        ensures Counts(text, s, parse) && Lasts(TextAfter(text, s), parse, n - 1)
      {
        var gone := SubIsKeep(s, KeysOf(text, parse));
        MarkedDeletion(text, parse, s, gone);
        LastingIsWeakest(p, TextAfter(text, s), parse, n - 1);
      }
    }
  }

  // ----- A blank line breaks it -----

  lemma TrimNewline(s: string)
    requires s != "" && !IsSpace(s[0]) && !IsSpace(s[|s| - 1])
    ensures TrimSpace("\n" + s) == s && TrimChar("\n" + s, '\n') == s
  {
    assert ("\n" + s)[1..] == s;
    NothingToTrim(s);
    TrimCharNoOpIff(s, '\n');
  }

  lemma BlankLineTexts(parse: Parser)
    ensures KeysOf("a\n\nb", parse) == ["a", "", "b"] && KeysOf("\nb", parse) == ["b"] && KeyCount("\nb", parse) == 1
    ensures Join(["", "b"], '\n') == "\nb"
  {
    hide TrimSpace, TrimChar, Split;
    var keys := ["a", "", "b"];
    assert Join(keys[1..], '\n') == "\nb" by { assert keys[1..] == ["", "b"] && keys[1..][1..] == ["b"]; }
    assert Join(keys, '\n') == "a\n\nb";
    StoredListSurvivesIff(keys, '\n');
    NothingToTrim("a\n\nb");
    TrimNewline("b");
    assert "\n" + "b" == "\nb";
    SplitWhole("b", '\n');
  }

  /** Three keys, the middle one blank, the last one disabled: deleting the first succeeds,
      but the blank one goes with it, the disabled one comes back enabled, and its old time
      lies out of range. */
  lemma BlankLineBreaks(parse: Parser) returns (c: Channel)
    ensures Inv(c, parse) && KeysOf(c.key, parse) == ["a", "", "b"]
    ensures ViewOf(c, parse)[2] == Row("b", MANUALLY_DISABLED, 7, "")
    ensures var e := Apply(c, DeleteKey(Some(0)), parse);
            e.reply.ok && ViewOf(e.channel, parse) == [Row("b", ENABLED, 0, "")] && !Inv(e.channel, parse)
  {
    hide KeysOf, KeyCount, Join, EmptyArray;
    BlankLineTexts(parse);
    c := Channel("a\n\nb", Info(3, map[2 := MANUALLY_DISABLED], map[2 := 7], map[]));
    SomeKeys(c.key, parse);
    var keys := ["a", "", "b"];
    var r := Carried(keys, c.info, 3, DropIndex(0), true);
    assert Carried(keys, c.info, 0, DropIndex(0), true) == Rest([], EmptyInfo());
    assert Carried(keys, c.info, 1, DropIndex(0), true) == Rest([], EmptyInfo());
    assert Carried(keys, c.info, 2, DropIndex(0), true) == Rest([""], EmptyInfo());
    assert r.keys == ["", "b"] && r.info.time == map[1 := 7];
    var e := Apply(c, DeleteKey(Some(0)), parse);
    assert e.channel.key == "\nb" && e.channel.info.size == 1 && 0 !in e.channel.info.status;
    assert 1 in e.channel.info.time;
  }

  // ----- The reported counts -----

  lemma {:induction false} StatusesBelow(keys: seq<string>, info: Info, n: nat)
    requires n <= |keys| && Tidy(info, |keys|)
    ensures var rows := View(keys, info);
            && |set i | i in info.status && i < n| == n - CountStatus(rows[..n], ENABLED)
            && EnabledBelow(info, n) == CountStatus(rows[..n], ENABLED)
  {
    var rows := View(keys, info);
    var below := set i | i in info.status && i < n;
    if n == 0 {
      assert below == {};
    } else {
      StatusesBelow(keys, info, n - 1);
      assert rows[..n][..n - 1] == rows[..n - 1];
      var fewer := set i | i in info.status && i < n - 1;
      if n - 1 in info.status {
        assert below == fewer + {n - 1};
      } else {
        assert below == fewer;
      }
    }
  }

  /** Enable-all reports the number of disabled keys in the view, disable-all the number of
      enabled ones, and the map is full exactly when no key is enabled, which is when an
      automatic disable takes the whole channel down. */
  lemma CountsAreExact(c: Channel, parse: Parser)
    requires Inv(c, parse)
    ensures var rows := ViewOf(c, parse);
            && Apply(c, EnableAll, parse).reply.count == |rows| - CountStatus(rows, ENABLED)
            && Apply(c, DisableAll, parse).reply.count == CountStatus(rows, ENABLED)
            && (|c.info.status| >= c.info.size <==> CountStatus(rows, ENABLED) == 0)
  {
    var keys := KeysOf(c.key, parse);
    hide KeysOf, CountStatus;
    StatusesBelow(keys, c.info, |keys|);
    var rows := View(keys, c.info);
    assert rows[..|keys|] == rows;
    assert (set i | i in c.info.status && i < |keys|) == c.info.status.Keys;
  }
}
