/** Append mode: what it adds to the keys of a channel, and what is left of the old keys once
    the result has been stored. */
module KeyAppend {
  import opened Text
  import opened Wrappers
  import opened MultiKey
  import opened KeyText
  import opened MultiKeyLaws
  import opened ModelNames

  // ----- Appending keys -----

  /** How append mode reads the stored text: array-like text that does not parse has no keys. */
  function ExistingKeys(text: string, parse: Parser): (keys: seq<string>) {
    if LooksLikeArray(text) then (if parse(TrimSpace(text)).Some? then parse(TrimSpace(text)).value else [])
    else Split(TrimChar(text, '\n'), '\n')
  }

  /** Append mode sees the keys the channel has, except for array-like text that is not an
      array: it would drop all of them. */
  lemma AppendSeesKeysIff(text: string, parse: Parser)
    requires text != ""
    ensures ExistingKeys(text, parse) == KeysOf(text, parse)
            <==> !(LooksLikeArray(text) && parse(TrimSpace(text)).None?)
  {
  }

  /** The first loop of the deduplication: the trimmed keys already there. */
  method SeenKeys(existing: seq<string>) returns (seen: set<string>)
    ensures forall k :: k in seen <==> k in Normalize(existing)
  {
    hide TrimSpace;
    seen := {};
    for i := 0 to |existing|
      invariant forall k :: k in seen <==> k in Normalize(existing[..i])
    {
      assert existing[..i + 1][..i] == existing[..i];
      var normalized := TrimSpace(existing[i]);
      if normalized == "" {
        continue;
      }
      seen := seen + {normalized};
    }
    assert existing[..|existing|] == existing;
  }

  lemma AppendStep(given: seq<string>, i: nat, had: seq<string>)
    requires i < |given|
    ensures var before := Filter(Normalize(given[..i]), NotIn(had));
            var k := TrimSpace(given[i]);
            Filter(Normalize(given[..i + 1]), NotIn(had))
            == if k == "" || k in had || k in before then before else before + [k]
  {
    hide TrimSpace;
    assert given[..i + 1][..i] == given[..i];
    var names, k := Normalize(given[..i]), TrimSpace(given[i]);
    FilterSound(names, NotIn(had));
    assert (names + [k])[..|names|] == names;
  }

  /** The deduplication of append mode: all old keys stay as they are, followed by the given
      keys in order, trimmed, each once, and only those the channel did not have. */
  method AppendKeys(existing: seq<string>, given: seq<string>) returns (all: seq<string>)
    ensures all == existing + Subtract(given, existing)
    ensures Normal(all[|existing|..])
    ensures forall k :: k in all[|existing|..] <==> k != "" && Mentions(given, k) && !Mentions(existing, k)
  {
    hide TrimSpace, Mentions;
    var seen := SeenKeys(existing);
    ghost var had := Normalize(existing);
    var added: seq<string> := [];
    for i := 0 to |given|
      invariant added == Filter(Normalize(given[..i]), NotIn(had))
      invariant forall k :: k in seen <==> k in had || k in added
    {
      AppendStep(given, i, had);
      var normalized := TrimSpace(given[i]);
      if normalized == "" {
        continue;
      }
      if normalized in seen {
        continue;
      }
      seen := seen + {normalized};
      added := added + [normalized];
    }
    assert given[..|given|] == given;
    all := existing + added;
    assert all[|existing|..] == added;
    NormalizeSound(given);
    NormalizeSound(existing);
    SubtractSound(given, existing);
  }

  // ----- Storing what was appended -----

  /** The row after append mode saved the keys. */
  function AfterAppend(c: Channel, keys: seq<string>, parse: Parser): (c': Channel) {
    Persist(c, Join(keys, '\n'), c.info, parse)
  }

  /** The old keys still come first after saving old and new ones: read as an array the
      text has them first; read as lines, no old key spans lines, the first is not blank,
      and neither is the last unless a new one follows. */
  ghost predicate PrefixSurvives(had: seq<string>, added: seq<string>, parse: Parser) {
    var text := Join(had + added, '\n');
    if ReadsAsArray(text, parse) then had <= parse(TrimSpace(text)).value
    else had == [] || (Free(had, '\n') && had[0] != "" && (added != [] || had[|had| - 1] != ""))
  }

  lemma PrefixIsFree(had: seq<string>, s: string)
    requires had <= Split(s, '\n')
    ensures Free(had, '\n')
  {
    hide Split;
    SplitIsFree(s, '\n');
  }

  lemma SplitHasPrefix(had: seq<string>, added: seq<string>)
    requires had != [] && added != [] && Free(had, '\n')
    ensures had <= Split(Join(had + added, '\n'), '\n')
  {
    hide Split, Join;
    JoinConcat(had, added, '\n');
    SplitConcat(Join(had, '\n'), Join(added, '\n'), '\n');
    SplitJoin(had, '\n');
  }

  /** A proper prefix of a list has a shorter text. */
  lemma ShorterText(had: seq<string>, parts: seq<string>)
    requires had != [] && had <= parts && |Join(parts, '\n')| <= |Join(had, '\n')|
    ensures had == parts
  {
    hide Join;
    if |had| < |parts| {
      assert parts == had + parts[|had|..];
      JoinConcat(had, parts[|had|..], '\n');
    }
  }

  lemma TrimShortens(s: string)
    ensures |TrimChar(s, '\n')| <= |s|
  {
  }

  /** A list is a prefix of what its own trimmed text splits into only if it is all of it. */
  lemma PrefixOfOwnText(had: seq<string>)
    requires had != [] && had <= Split(TrimChar(Join(had, '\n'), '\n'), '\n')
    ensures Split(TrimChar(Join(had, '\n'), '\n'), '\n') == had
  {
    hide Split, Join, TrimChar;
    var t := TrimChar(Join(had, '\n'), '\n');
    TrimShortens(Join(had, '\n'));
    JoinSplit(t, '\n');
    ShorterText(had, Split(t, '\n'));
  }

  lemma SplitHead(s: string, sep: char)
    requires s != "" && s[0] != sep
    ensures Split(s, sep)[0] != ""
  {
  }

  lemma JoinOne(part: string)
    ensures Join([part], '\n') == part
  {
  }

  lemma LastCharacter(had: seq<string>, added: seq<string>)
    requires added != [] && Normal(added)
    ensures var text := Join(had + added, '\n');
            text != "" && text[|text| - 1] != '\n'
  {
    hide Join, TrimSpace;
    var all := had + added;
    var n := |all| - 1;
    var last := all[n];
    assert last in added;
    TrimSpaceTrimmed(last);
    if n > 0 {
      assert all == all[..n] + [last];
      JoinConcat(all[..n], [last], '\n');
    }
    assert Join([last], '\n') == last by { JoinOne(last); }
    assert n == 0 ==> all == [last];
  }

  lemma {:induction false} TrimLeftKeepsLast(s: string, drop: char -> bool)
    requires s != "" && !drop(s[|s| - 1])
    ensures TrimLeft(s, drop) != ""
  {
    if drop(s[0]) { TrimLeftKeepsLast(s[1..], drop); }
  }

  /** A text that does not end with a newline splits, trimmed, into lines that start with a
      non-blank one. */
  lemma FirstLine(text: string)
    requires text != "" && text[|text| - 1] != '\n'
    ensures Split(TrimChar(text, '\n'), '\n')[0] != ""
  {
    var l := TrimLeft(text, c => c == '\n');
    TrimLeftKeepsLast(text, c => c == '\n');
    assert l[|l| - 1] == text[|text| - 1];
    assert TrimChar(text, '\n') == l;
    SplitHead(l, '\n');
  }

  lemma NothingTrimmed(had: seq<string>, added: seq<string>)
    requires had != [] && added != [] && Normal(added) && Free(had, '\n') && had[0] != ""
    ensures TrimChar(Join(had + added, '\n'), '\n') == Join(had + added, '\n')
  {
    hide Join, TrimChar, TrimSpace;
    LastCharacter(had, added);
    var rest := JoinStartsWithFirst(had + added);
    var text := Join(had + added, '\n');
    assert text[0] == had[0][0] && had[0][0] in had[0];
    TrimCharNoOpIff(text, '\n');
  }

  lemma LinesKeepPrefixIff(had: seq<string>, added: seq<string>)
    requires had != [] && Normal(added) && Join(had + added, '\n') != ""
    ensures had <= Split(TrimChar(Join(had + added, '\n'), '\n'), '\n') <==>
              Free(had, '\n') && had[0] != "" && (added != [] || had[|had| - 1] != "")
  {
    hide Join, TrimChar, TrimSpace, Split, Normal;
    var t := TrimChar(Join(had + added, '\n'), '\n');
    if had <= Split(t, '\n') { PrefixIsFree(had, t); }
    if added == [] {
      assert had + added == had;
      JoinEmptyIff(had, '\n');
      StoredListSurvivesIff(had, '\n');
      if had <= Split(t, '\n') { PrefixOfOwnText(had); }
    } else {
      LastCharacter(had, added);
      FirstLine(Join(had + added, '\n'));
      if Free(had, '\n') && had[0] != "" {
        NothingTrimmed(had, added);
        SplitHasPrefix(had, added);
      }
    }
  }

  lemma RowsKeepPrefixIff(c: Channel, had: seq<string>, keys: seq<string>, parse: Parser)
    ensures var c' := AfterAppend(c, keys, parse);
            View(had, c.info) <= ViewOf(c', parse) <==> had <= KeysOf(c'.key, parse)
  {
  }

  lemma SavedKeepsPrefixIff(text: string, had: seq<string>, added: seq<string>, parse: Parser)
    requires Normal(added) && Join(had + added, '\n') != ""
    ensures had <= KeysOf(TextAfter(text, had + added), parse) <==> PrefixSurvives(had, added, parse)
  {
    hide Join, TrimChar, TrimSpace, Split, Normal, LooksLikeArray, Free;
    if had != [] { LinesKeepPrefixIff(had, added); }
  }

  lemma NothingWritten(text: string, had: seq<string>, added: seq<string>, parse: Parser)
    requires text != "" && had == ExistingKeys(text, parse) && Normal(added) && Join(had + added, '\n') == ""
    ensures had <= KeysOf(TextAfter(text, had + added), parse)
    ensures had + added == [""] || PrefixSurvives(had, added, parse)
  {
    hide Join, TrimChar, TrimSpace, Split, LooksLikeArray;
    JoinEmptyIff(had + added, '\n');
    AppendSeesKeysIff(text, parse);
    NothingIsNoArray();
  }

  /** After append mode has saved, the old rows are still the first rows of the view if and
      only if the old keys come first in what the text is read as (or nothing was written). */
  lemma AppendStoredIff(c: Channel, given: seq<string>, parse: Parser)
    requires c.key != ""
    ensures var had := ExistingKeys(c.key, parse);
            var added := Subtract(given, had);
            View(had, c.info) <= ViewOf(AfterAppend(c, had + added, parse), parse) <==>
              had + added == [""] || PrefixSurvives(had, added, parse)
  {
    var had := ExistingKeys(c.key, parse);
    hide ExistingKeys, Join, Subtract, Normal, KeysOf, View, KeyCount, LooksLikeArray, PrefixSurvives;
    var added := Subtract(given, had);
    SubtractSound(given, had);
    RowsKeepPrefixIff(c, had, had + added, parse);
    assert AfterAppend(c, had + added, parse).key == TextAfter(c.key, had + added);
    JoinEmptyIff(had + added, '\n');
    if Join(had + added, '\n') == "" {
      NothingWritten(c.key, had, added, parse);
    } else {
      SavedKeepsPrefixIff(c.key, had, added, parse);
    }
  }
}
