/** Go's string helpers as the source uses them: trimming, splitting on one
    separator character and joining with it, and when they undo each other. */
module Text {

  /** unicode.IsSpace */
  predicate IsSpace(c: char) {
    c == '\t' || c == '\n' || c == '\U{0B}' || c == '\U{0C}' || c == '\r' || c == ' '
    || c == '\U{85}' || c == '\U{A0}' || c == '\U{1680}' || '\U{2000}' <= c <= '\U{200A}'
    || c == '\U{2028}' || c == '\U{2029}' || c == '\U{202F}' || c == '\U{205F}' || c == '\U{3000}'
  }

  function TrimLeft(s: string, drop: char -> bool): (t: string)
    ensures |t| <= |s| && t == s[|s| - |t|..]
    ensures t != "" ==> !drop(t[0])
  {
    if s != "" && drop(s[0]) then TrimLeft(s[1..], drop) else s
  }

  function TrimRight(s: string, drop: char -> bool): (t: string)
    ensures |t| <= |s| && t == s[..|t|]
    ensures t != "" ==> !drop(t[|t| - 1])
  {
    if s != "" && drop(s[|s| - 1]) then TrimRight(s[..|s| - 1], drop) else s
  }

  /** strings.TrimSpace */
  function TrimSpace(s: string): (t: string) {
    TrimRight(TrimLeft(s, IsSpace), IsSpace)
  }

  /** strings.Trim with a single separator character. */
  function TrimChar(s: string, sep: char): (t: string) {
    TrimRight(TrimLeft(s, c => c == sep), c => c == sep)
  }

  /** strings.Split */
  function Split(s: string, sep: char): (parts: seq<string>)
    ensures |parts| >= 1
  {
    if s == "" then [""]
    else if s[0] == sep then [""] + Split(s[1..], sep)
    else
      var rest := Split(s[1..], sep);
      [[s[0]] + rest[0]] + rest[1..]
  }

  /** strings.Join */
  function Join(parts: seq<string>, sep: char): (s: string) {
    if |parts| == 0 then ""
    else if |parts| == 1 then parts[0]
    else parts[0] + [sep] + Join(parts[1..], sep)
  }

  ghost predicate Free(parts: seq<string>, sep: char) {
    forall i :: 0 <= i < |parts| ==> sep !in parts[i]
  }

  // ----- Trimming -----

  /** A string no end of which can be trimmed. */
  predicate Trimmed(s: string, drop: char -> bool) {
    s != "" ==> !drop(s[0]) && !drop(s[|s| - 1])
  }

  lemma TrimSpaceTrimmed(s: string)
    ensures Trimmed(TrimSpace(s), IsSpace)
    ensures Trimmed(s, IsSpace) ==> TrimSpace(s) == s
    ensures TrimSpace(TrimSpace(s)) == TrimSpace(s)
  {
    var l := TrimLeft(s, IsSpace);
    var t := TrimRight(l, IsSpace);
    assert t != "" ==> t[0] == l[0];
  }

  lemma NothingToTrim(s: string)
    requires s != "" && !IsSpace(s[0]) && !IsSpace(s[|s| - 1])
    ensures TrimSpace(s) == s
  {
    TrimSpaceTrimmed(s);
  }

  /** Trimming keeps every character it does not drop from the ends in place. */
  lemma TrimSpaceKeeps(s: string, c: char)
    ensures c !in s ==> c !in TrimSpace(s)
  {
  }

  /** The first character that survives trimming is the first one that is not a space. */
  lemma {:induction false} TrimLeftPrefix(s: string, rest: string, drop: char -> bool)
    ensures TrimLeft(s, drop) != "" ==> TrimLeft(s + rest, drop) == TrimLeft(s, drop) + rest
  {
    if s != "" && drop(s[0]) {
      assert (s + rest)[1..] == s[1..] + rest;
      TrimLeftPrefix(s[1..], rest, drop);
    }
  }

  lemma {:induction false} TrimCharNoOpIff(s: string, sep: char)
    ensures TrimChar(s, sep) == s <==> Trimmed(s, c => c == sep)
  {
    var l := TrimLeft(s, c => c == sep);
    var t := TrimRight(l, c => c == sep);
    if t == s {
      assert |l| == |s|;
    }
  }

  // ----- Splitting and joining -----

  /** Joining what was split gives the text back. */
  lemma {:induction false} JoinSplit(s: string, sep: char)
    ensures Join(Split(s, sep), sep) == s
  {
    if s != "" {
      JoinSplit(s[1..], sep);
      var rest := Split(s[1..], sep);
      if s[0] == sep {
        assert ([""] + rest)[1..] == rest;
      } else {
        assert ([[s[0]] + rest[0]] + rest[1..])[1..] == rest[1..];
      }
    }
  }

  lemma {:induction false} SplitFirst(p: string, t: string, sep: char)
    requires sep !in p
    ensures Split(p + [sep] + t, sep) == [p] + Split(t, sep)
  {
    if p == "" {
      assert p + [sep] + t == [sep] + t;
      assert ([sep] + t)[1..] == t;
    } else {
      var s := p + [sep] + t;
      assert s[1..] == p[1..] + [sep] + t;
      SplitFirst(p[1..], t, sep);
      assert [p[0]] + p[1..] == p;
      assert ([p[1..]] + Split(t, sep))[1..] == Split(t, sep);
    }
  }

  lemma {:induction false} SplitWhole(p: string, sep: char)
    requires sep !in p
    ensures Split(p, sep) == [p]
  {
    if p != "" {
      SplitWhole(p[1..], sep);
      assert [p[0]] + p[1..] == p;
    }
  }

  /** Splitting what was joined gives the parts back, if no part contains the separator. */
  lemma {:induction false} SplitJoin(parts: seq<string>, sep: char)
    requires parts != [] && Free(parts, sep)
    ensures Split(Join(parts, sep), sep) == parts
  {
    if |parts| == 1 {
      SplitWhole(parts[0], sep);
    } else {
      SplitJoin(parts[1..], sep);
      SplitFirst(parts[0], Join(parts[1..], sep), sep);
    }
  }

  lemma {:induction false} SplitIsFree(s: string, sep: char)
    ensures Free(Split(s, sep), sep)
  {
    if s != "" {
      SplitIsFree(s[1..], sep);
    }
  }

  lemma {:induction false} JoinEnds(parts: seq<string>, sep: char)
    requires parts != [] && Free(parts, sep)
    ensures var s := Join(parts, sep);
            && (|parts| == 1 ==> s == parts[0])
            && (|parts| > 1 ==> s != "")
            && (|parts| > 1 ==> (s[0] != sep <==> parts[0] != ""))
            && (|parts| > 1 ==> (s[|s| - 1] != sep <==> parts[|parts| - 1] != ""))
  {
    if |parts| > 1 {
      JoinEnds(parts[1..], sep);
      var s, rest := Join(parts, sep), Join(parts[1..], sep);
      assert s == parts[0] + [sep] + rest;
      if parts[0] != "" { assert s[0] == parts[0][0]; }
      if rest == "" { assert s[|s| - 1] == sep; } else { assert s[|s| - 1] == rest[|rest| - 1]; }
      if |parts| == 2 {
        assert rest == parts[1];
        assert rest != "" ==> rest[|rest| - 1] in parts[1];
      }
    }
  }

  lemma JoinEmptyIff(parts: seq<string>, sep: char)
    ensures Join(parts, sep) == "" <==> parts == [] || parts == [""]
  {
  }

  /** How the source stores a list in one string and reads it back: join, and later trim
      and split. The list survives exactly when no part contains the separator and it
      neither starts nor ends with an empty part, or is just one empty part. */
  lemma StoredListSurvivesIff(parts: seq<string>, sep: char)
    requires parts != []
    ensures Split(TrimChar(Join(parts, sep), sep), sep) == parts
            <==> Free(parts, sep) && ((parts[0] != "" && parts[|parts| - 1] != "") || parts == [""])
  {
    var s := Join(parts, sep);
    var t := TrimChar(s, sep);
    SplitIsFree(t, sep);
    if Free(parts, sep) {
      SplitJoin(parts, sep);
      JoinSplit(t, sep);
      TrimCharNoOpIff(s, sep);
      JoinEnds(parts, sep);
      if |parts| == 1 && parts[0] != "" {
        assert s[0] in parts[0] && s[|s| - 1] in parts[0];
      }
    }
  }

  /** Joining concatenated lists, and splitting there again. */
  lemma {:induction false} JoinConcat(a: seq<string>, b: seq<string>, sep: char)
    requires a != [] && b != []
    ensures Join(a + b, sep) == Join(a, sep) + [sep] + Join(b, sep)
  {
    assert (a + b)[1..] == a[1..] + b;
    if |a| > 1 {
      JoinConcat(a[1..], b, sep);
      var rest, tail := Join(a[1..], sep), Join(b, sep);
      assert a[0] + [sep] + (rest + [sep] + tail) == a[0] + [sep] + rest + [sep] + tail;
    } else {
      assert (a + b)[1..] == b;
    }
  }

  lemma SplitConcat(s: string, t: string, sep: char)
    ensures Split(s + [sep] + t, sep) == Split(s, sep) + Split(t, sep)
  {
    hide Split, Join;
    var a, b := Split(s, sep), Split(t, sep);
    SplitIsFree(s, sep);
    SplitIsFree(t, sep);
    JoinSplit(s, sep);
    JoinSplit(t, sep);
    JoinConcat(a, b, sep);
    SplitJoin(a + b, sep);
  }
}
