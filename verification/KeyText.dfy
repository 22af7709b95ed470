/** The text a multi-key channel stores its keys in: which key lists come back from it,
    and which texts go on counting their keys right however keys are deleted. */
module KeyText {
  import opened Text
  import opened Wrappers
  import opened MultiKey

  // ----- Which key lists come back -----

  predicate ReadsAsArray(text: string, parse: Parser) {
    LooksLikeArray(text) && parse(TrimSpace(text)).Some?
  }

  ghost predicate EmptyArray(text: string, parse: Parser) {
    LooksLikeArray(text) && parse(TrimSpace(text)) == Some([])
  }

  /** The keys come back from their joined text: read as an array it has these very keys;
      read as lines, no key spans lines and neither end is blank. */
  ghost predicate Survives(keys: seq<string>, parse: Parser) {
    && keys != []
    && var text := Join(keys, '\n');
       if ReadsAsArray(text, parse) then parse(TrimSpace(text)).value == keys
       else Free(keys, '\n') && keys[0] != "" && keys[|keys| - 1] != ""
  }

  lemma NothingIsNoArray()
    ensures !LooksLikeArray("")
  {
  }

  lemma KeyTextSurvivesIff(keys: seq<string>, parse: Parser)
    ensures KeysOf(Join(keys, '\n'), parse) == keys <==> keys == [] || Survives(keys, parse)
  {
    hide Join, Split, TrimChar, TrimSpace, LooksLikeArray;
    JoinEmptyIff(keys, '\n');
    NothingIsNoArray();
    if keys != [] { StoredListSurvivesIff(keys, '\n'); }
  }

  lemma SomeKeys(text: string, parse: Parser)
    requires KeysOf(text, parse) != []
    ensures !EmptyArray(text, parse)
  {
  }

  /** The text on the row after saving the keys `s`: nothing is written for no text. */
  function TextAfter(text: string, s: seq<string>): (t: string) {
    if Join(s, '\n') == "" then text else Join(s, '\n')
  }

  lemma BlankKeyIsLost(parse: Parser)
    ensures !Survives([""], parse)
  {
    hide TrimSpace, LooksLikeArray;
    assert Join([""], '\n') == "";
    NothingIsNoArray();
  }

  /** What is read after a deletion is what was left exactly when that survives as text, or
      when nothing was deleted from a single blank key. */
  lemma TextAfterIff(text: string, s: seq<string>, parse: Parser)
    requires s != []
    ensures KeysOf(TextAfter(text, s), parse) == s <==> Survives(s, parse) || s == KeysOf(text, parse) == [""]
  {
    hide KeysOf, Join, LooksLikeArray, TrimSpace;
    JoinEmptyIff(s, '\n');
    KeyTextSurvivesIff(s, parse);
    if s == [""] { BlankKeyIsLost(parse); }
  }

  // ----- Sub-lists -----

  /** `s` is `keys` with some elements left out. */
  ghost predicate Sub(s: seq<string>, keys: seq<string>)
    decreases |keys|
  {
    if s == [] then true
    else if keys == [] then false
    else
      var init, last := keys[..|keys| - 1], keys[|keys| - 1];
      Sub(s, init) || (s[|s| - 1] == last && Sub(s[..|s| - 1], init))
  }

  lemma {:induction false} SubRefl(keys: seq<string>)
    ensures Sub(keys, keys)
  {
    if keys != [] { SubRefl(keys[..|keys| - 1]); }
  }

  lemma {:induction false} SubTransitive(r: seq<string>, s: seq<string>, keys: seq<string>)
    requires Sub(r, s) && Sub(s, keys)
    ensures Sub(r, keys)
    decreases |keys|, |s|
  {
    if r != [] {
      var init := keys[..|keys| - 1];
      if Sub(s, init) {
        SubTransitive(r, s, init);
      } else if Sub(r, s[..|s| - 1]) {
        SubTransitive(r, s[..|s| - 1], init);
      } else {
        SubTransitive(r[..|r| - 1], s[..|s| - 1], init);
      }
    }
  }

  lemma {:induction false} SubMembers(s: seq<string>, keys: seq<string>)
    requires Sub(s, keys)
    ensures |s| <= |keys| && forall k :: k in s ==> k in keys
    decreases |keys|
  {
    if s != [] {
      var init := keys[..|keys| - 1];
      if Sub(s, init) {
        SubMembers(s, init);
      } else {
        SubMembers(s[..|s| - 1], init);
        assert s == s[..|s| - 1] + [s[|s| - 1]];
      }
    }
  }

  lemma {:induction false} SubOne(keys: seq<string>, i: nat)
    requires i < |keys|
    ensures Sub([keys[i]], keys)
  {
    if i < |keys| - 1 {
      SubOne(keys[..|keys| - 1], i);
    } else {
      assert [keys[i]][..0] == [] && Sub([], keys[..i]);
    }
  }

  lemma {:induction false} SubPair(keys: seq<string>, i: nat, j: nat)
    requires i < j < |keys|
    ensures Sub([keys[i], keys[j]], keys)
  {
    var pair, n := [keys[i], keys[j]], |keys| - 1;
    if j < n {
      SubPair(keys[..n], i, j);
    } else {
      assert pair[..1] == [keys[i]];
      SubOne(keys[..n], i);
    }
  }

  lemma {:induction false} KeepIsSub(keys: seq<string>, drop: int -> bool)
    ensures Sub(Keep(keys, drop), keys)
  {
    if keys != [] {
      KeepIsSub(keys[..|keys| - 1], drop);
      var before, last := Keep(keys[..|keys| - 1], drop), keys[|keys| - 1];
      assert (before + [last])[..|before|] == before;
    }
  }

  lemma {:induction false} KeepSame<T>(s: seq<T>, drop: int -> bool, drop': int -> bool)
    requires forall i :: 0 <= i < |s| ==> (drop(i) <==> drop'(i))
    ensures Keep(s, drop) == Keep(s, drop')
  {
    if s != [] { KeepSame(s[..|s| - 1], drop, drop'); }
  }

  lemma {:induction false} SubIsKeep(s: seq<string>, keys: seq<string>) returns (drop: int -> bool)
    requires Sub(s, keys)
    ensures Keep(keys, drop) == s
    decreases |keys|
  {
    if keys == [] {
      drop := (i: int) => true;
    } else {
      var n := |keys| - 1;
      var gone := s == [] || Sub(s, keys[..n]);
      var before := SubIsKeep(if gone then s else s[..|s| - 1], keys[..n]);
      hide Sub, Keep;
      drop := (i: int) => if i == n then gone else before(i);
      KeepSame(keys[..n], drop, before);
      KeepLast(keys, n + 1, drop);
      assert keys[..n + 1] == keys;
    }
  }

  // ----- Which texts go on counting their keys right -----

  /** Saving the keys `s` counts at least as many keys as there are. */
  ghost predicate Counts(text: string, s: seq<string>, parse: Parser) {
    var after := TextAfter(text, s);
    !EmptyArray(after, parse) && |s| <= KeyCount(after, parse)
  }

  /** What a deletion may leave: some of the keys, but not all. */
  ghost predicate Left(s: seq<string>, text: string, parse: Parser) {
    var keys := KeysOf(text, parse);
    Sub(s, keys) && 0 < |s| < |keys|
  }

  /** What `n` deletions, of any keys each, may leave of the text counts its keys right. */
  ghost predicate Lasts(text: string, parse: Parser, n: nat)
    decreases n
  {
    n == 0 || forall s :: Left(s, text, parse) ==> Counts(text, s, parse) && Lasts(TextAfter(text, s), parse, n - 1)
  }

  ghost predicate LastsForever(text: string, parse: Parser) {
    forall n: nat :: Lasts(text, parse, n)
  }

  lemma LastsStep(text: string, parse: Parser, s: seq<string>)
    requires LastsForever(text, parse) && Left(s, text, parse)
    ensures Counts(text, s, parse) && LastsForever(TextAfter(text, s), parse)
  {
    hide Left, Counts, TextAfter;
    assert Lasts(text, parse, 1);
    forall n: nat ensures Lasts(TextAfter(text, s), parse, n) {
      assert Lasts(text, parse, n + 1);
    }
  }

  /** No selection of the keys reads as an array. */
  ghost predicate NeverArray(keys: seq<string>, parse: Parser) {
    forall s :: Sub(s, keys) ==> !ReadsAsArray(Join(s, '\n'), parse)
  }

  lemma SurvivingCounts(text: string, s: seq<string>, parse: Parser)
    requires Survives(s, parse)
    ensures KeysOf(TextAfter(text, s), parse) == s && Counts(text, s, parse)
  {
    hide Join, KeysOf, KeyCount, LooksLikeArray, TrimSpace;
    TextAfterIff(text, s, parse);
    SomeKeys(TextAfter(text, s), parse);
    KeyCountMatchesIff(TextAfter(text, s), parse);
  }

  lemma SubSurvives(keys: seq<string>, s: seq<string>, parse: Parser)
    requires NeverArray(keys, parse) && Free(keys, '\n') && "" !in keys && Sub(s, keys) && s != []
    ensures Survives(s, parse) && NeverArray(s, parse) && Free(s, '\n') && "" !in s
  {
    hide Join, ReadsAsArray;
    SubMembers(s, keys);
    forall i | 0 <= i < |s| ensures '\n' !in s[i] { assert s[i] in s; }
    forall r | Sub(r, s) ensures !ReadsAsArray(Join(r, '\n'), parse) { SubTransitive(r, s, keys); }
  }

  lemma {:induction false} NoBlankLasts(text: string, parse: Parser, n: nat)
    requires var keys := KeysOf(text, parse);
             NeverArray(keys, parse) && Free(keys, '\n') && "" !in keys
    ensures Lasts(text, parse, n)
    decreases n
  {
    hide KeysOf, NeverArray, Survives, TextAfter, Counts, Sub;
    if n > 0 {
      forall s | Left(s, text, parse)
        ensures Counts(text, s, parse) && Lasts(TextAfter(text, s), parse, n - 1)
      {
        SubSurvives(KeysOf(text, parse), s, parse);
        SurvivingCounts(text, s, parse);
        NoBlankLasts(TextAfter(text, s), parse, n - 1);
      }
    }
  }

  lemma TrimmedPair(a: string, b: string)
    requires '\n' !in a && '\n' !in b && (a == "" || b == "")
    ensures '\n' !in TrimChar(a + ['\n'] + b, '\n')
  {
    var s := a + ['\n'] + b;
    var drop := (c: char) => c == '\n';
    if a == "" {
      assert s[1..] == b;
      assert b == "" || !drop(b[0]);
    } else {
      assert s[0] in a && s[..|s| - 1] == a;
      assert a[|a| - 1] in a;
    }
  }

  /** A pair with a blank key is read as a single line. */
  lemma BlankPairCount(text: string, a: string, b: string, parse: Parser)
    requires '\n' !in a && '\n' !in b && (a == "" || b == "")
    requires !ReadsAsArray(Join([a, b], '\n'), parse)
    ensures !Counts(text, [a, b], parse)
  {
    var joined := Join([a, b], '\n');
    assert joined == a + ['\n'] + b by { assert [a, b][1..] == [b]; }
    TrimmedPair(a, b);
    SplitWhole(TrimChar(joined, '\n'), '\n');
    hide TrimChar, Split, LooksLikeArray, TrimSpace, Join;
  }

  lemma OneKeyLasts(text: string, parse: Parser, n: nat)
    requires |KeysOf(text, parse)| <= 1
    ensures Lasts(text, parse, n)
  {
    hide KeysOf, Sub;
  }

  lemma CountMatches(text: string, parse: Parser)
    requires !EmptyArray(text, parse)
    ensures KeyCount(text, parse) == |KeysOf(text, parse)|
  {
    hide KeyCount, KeysOf, LooksLikeArray, TrimSpace;
    KeyCountMatchesIff(text, parse);
  }

  lemma TwoKeysStep(text: string, parse: Parser, s: seq<string>)
    requires var keys := KeysOf(text, parse);
             NeverArray(keys, parse) && Free(keys, '\n') && |keys| == 2
    requires Left(s, text, parse)
    ensures Counts(text, s, parse)
    ensures if s == [""] then TextAfter(text, s) == text else |KeysOf(TextAfter(text, s), parse)| <= 1
  {
    hide KeysOf, KeyCount, ReadsAsArray, EmptyArray, Sub, Join;
    var keys := KeysOf(text, parse);
    SubMembers(s, keys);
    assert s == [s[0]] && s[0] in s;
    JoinEmptyIff(s, '\n');
    if s == [""] {
      SomeKeys(text, parse);
      CountMatches(text, parse);
    } else {
      SurvivingCounts(text, s, parse);
    }
  }

  lemma {:induction false} TwoKeysLast(text: string, parse: Parser, n: nat)
    requires var keys := KeysOf(text, parse);
             NeverArray(keys, parse) && Free(keys, '\n') && |keys| == 2
    ensures Lasts(text, parse, n)
    decreases n
  {
    hide KeysOf, KeyCount, Join, ReadsAsArray, EmptyArray, Sub, Counts, NeverArray;
    if n > 0 {
      forall s | Left(s, text, parse)
        ensures Counts(text, s, parse) && Lasts(TextAfter(text, s), parse, n - 1)
      {
        TwoKeysStep(text, parse, s);
        if s == [""] { TwoKeysLast(text, parse, n - 1); } else { OneKeyLasts(TextAfter(text, s), parse, n - 1); }
      }
    }
  }

  /** Lines that never read as an array go on being counted right, whatever is deleted, if
      and only if none of them is blank, or there are at most two. */
  lemma LastsForeverIff(text: string, parse: Parser)
    requires NeverArray(KeysOf(text, parse), parse) && Free(KeysOf(text, parse), '\n')
    ensures LastsForever(text, parse) <==> |KeysOf(text, parse)| <= 2 || "" !in KeysOf(text, parse)
  {
    hide KeysOf, Join, ReadsAsArray, Counts, Sub;
    var keys := KeysOf(text, parse);
    if |keys| <= 2 || "" !in keys {
      forall n: nat ensures Lasts(text, parse, n) {
        if "" !in keys { NoBlankLasts(text, parse, n); }
        else if |keys| == 2 { TwoKeysLast(text, parse, n); }
        else { OneKeyLasts(text, parse, n); }
      }
    } else {
      var i :| 0 <= i < |keys| && keys[i] == "";
      var a, b := if i == 0 then 0 else i - 1, if i == 0 then 1 else i;
      var pair := [keys[a], keys[b]];
      SubPair(keys, a, b);
      BlankPairCount(text, keys[a], keys[b], parse);
      assert Left(pair, text, parse);
      assert !Lasts(text, parse, 1);
    }
  }

  // ----- Keys anyone would write -----

  /** A key on one line with something on it that does not open an array. */
  predicate Plain(key: string) {
    '\n' !in key && TrimLeft(key, IsSpace) != "" && TrimLeft(key, IsSpace)[0] != '['
  }

  predicate AllPlain(keys: seq<string>) {
    forall i :: 0 <= i < |keys| ==> Plain(keys[i])
  }

  lemma JoinStartsWithFirst(keys: seq<string>) returns (rest: string)
    requires keys != []
    ensures Join(keys, '\n') == keys[0] + rest
  {
    if |keys| == 1 {
      rest := "";
    } else {
      rest := ['\n'] + Join(keys[1..], '\n');
      assert keys[0] + rest == keys[0] + ['\n'] + Join(keys[1..], '\n');
    }
  }

  lemma PlainIsNoArray(keys: seq<string>)
    requires keys != [] && AllPlain(keys)
    ensures !LooksLikeArray(Join(keys, '\n'))
  {
    var rest := JoinStartsWithFirst(keys);
    TrimLeftPrefix(keys[0], rest, IsSpace);
    var l := TrimLeft(Join(keys, '\n'), IsSpace);
    var t := TrimRight(l, IsSpace);
    assert t != "" ==> t[0] == l[0];
  }

  lemma PlainSub(s: seq<string>, keys: seq<string>)
    requires AllPlain(keys) && Sub(s, keys)
    ensures AllPlain(s)
  {
    hide Plain, Sub;
    SubMembers(s, keys);
    forall i | 0 <= i < |s| ensures Plain(s[i]) { assert s[i] in s; }
  }

  lemma PlainIsWritten(keys: seq<string>)
    requires AllPlain(keys)
    ensures Free(keys, '\n') && "" !in keys
  {
  }

  /** Plain keys survive, whatever is deleted, for ever. */
  lemma PlainLasts(text: string, parse: Parser)
    requires AllPlain(KeysOf(text, parse))
    ensures LastsForever(text, parse)
    ensures forall s :: Sub(s, KeysOf(text, parse)) && s != [] ==> Survives(s, parse)
  {
    hide KeysOf, Plain, Join, LooksLikeArray, Sub, Survives;
    var keys := KeysOf(text, parse);
    forall s | Sub(s, keys) ensures !ReadsAsArray(Join(s, '\n'), parse) {
      if s == [] { NothingIsNoArray(); JoinEmptyIff(s, '\n'); } else { PlainSub(s, keys); PlainIsNoArray(s); }
    }
    PlainIsWritten(keys);
    forall n: nat ensures Lasts(text, parse, n) { NoBlankLasts(text, parse, n); }
    forall s | Sub(s, keys) && s != [] ensures Survives(s, parse) { SubSurvives(keys, s, parse); }
  }
}
