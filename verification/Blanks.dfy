/** What trimming blanks means, character by character, for model names and key texts. */
module Blanks {
  import opened Text
  import opened MultiKey
  import opened ModelNames

  // ----- Trimming -----

  /** The characters trimmed as blank. */
  const BLANKS := "\t\n\U{0B}\U{0C}\r \U{85}\U{A0}\U{1680}\U{2000}\U{2001}\U{2002}\U{2003}\U{2004}\U{2005}" +
                  "\U{2006}\U{2007}\U{2008}\U{2009}\U{200A}\U{2028}\U{2029}\U{202F}\U{205F}\U{3000}"

  lemma IsSpaceIff(c: char)
    ensures IsSpace(c) <==> c in BLANKS
  {
  }

  predicate AllBlank(s: string) {
    forall i :: 0 <= i < |s| ==> s[i] in BLANKS
  }

  lemma {:induction false} TrimLeftStrips(pre: string, s: string)
    requires AllBlank(pre)
    ensures TrimLeft(pre + s, IsSpace) == TrimLeft(s, IsSpace)
  {
    if pre == "" {
      assert pre + s == s;
    } else {
      IsSpaceIff(pre[0]);
      assert (pre + s)[1..] == pre[1..] + s;
      TrimLeftStrips(pre[1..], s);
    }
  }

  lemma {:induction false} TrimRightStrips(s: string, post: string)
    requires AllBlank(post)
    ensures TrimRight(s + post, IsSpace) == TrimRight(s, IsSpace)
  {
    if post == "" {
      assert s + post == s;
    } else {
      var n := |post| - 1;
      IsSpaceIff(post[n]);
      assert (s + post)[..|s + post| - 1] == s + post[..n];
      TrimRightStrips(s, post[..n]);
    }
  }

  lemma NothingToStrip(core: string, post: string)
    requires core != "" && core[0] !in BLANKS && core[|core| - 1] !in BLANKS
    ensures TrimLeft(core + post, IsSpace) == core + post && TrimRight(core, IsSpace) == core
  {
    IsSpaceIff(core[0]);
    IsSpaceIff(core[|core| - 1]);
    hide IsSpace;
  }

  lemma OnlyBlanks(post: string)
    requires AllBlank(post)
    ensures TrimLeft(post, IsSpace) == ""
  {
    hide IsSpace, AllBlank;
    TrimLeftStrips(post, "");
    assert post + "" == post;
  }

  /** Trimming takes off blanks on both sides and nothing else; blanks alone leave nothing. */
  lemma TrimSpaceStrips(pre: string, core: string, post: string)
    requires AllBlank(pre) && AllBlank(post)
    requires core == "" || (core[0] !in BLANKS && core[|core| - 1] !in BLANKS)
    ensures TrimSpace(pre + core + post) == core
  {
    hide IsSpace, AllBlank, TrimLeft, TrimRight;
    assert pre + core + post == pre + (core + post);
    TrimLeftStrips(pre, core + post);
    if core == "" {
      assert core + post == post;
      OnlyBlanks(post);
    } else {
      NothingToStrip(core, post);
      TrimRightStrips(core, post);
    }
  }

  // ----- Names and key texts -----

  /** A name written with blanks around it is listed without them. */
  lemma NormalizeStrips(models: seq<string>, i: nat, pre: string, name: string, post: string)
    requires i < |models| && models[i] == pre + name + post && AllBlank(pre) && AllBlank(post)
    requires name != "" && name[0] !in BLANKS && name[|name| - 1] !in BLANKS
    ensures name in Normalize(models)
  {
    hide TrimSpace, Normalize;
    TrimSpaceStrips(pre, name, post);
    assert Mentions(models, name);
    NormalizeSound(models);
  }

  lemma {:induction false} TrimLeftStarts(text: string, i: nat)
    requires i < |text| && !IsSpace(text[i]) && forall j :: 0 <= j < i ==> IsSpace(text[j])
    ensures TrimLeft(text, IsSpace) == text[i..]
  {
    if i > 0 {
      assert text[1..][i - 1..] == text[i..];
      TrimLeftStarts(text[1..], i - 1);
    }
  }

  lemma {:induction false} FirstVisible(text: string) returns (i: nat)
    requires TrimLeft(text, IsSpace) != ""
    ensures i < |text| && !IsSpace(text[i]) && forall j :: 0 <= j < i ==> IsSpace(text[j])
  {
    if IsSpace(text[0]) {
      i := FirstVisible(text[1..]);
      i := i + 1;
    } else {
      i := 0;
    }
  }

  lemma {:induction false} OpensStay(s: string)
    requires s != "" && s[0] == '['
    ensures TrimRight(s, IsSpace) != ""
  {
    if IsSpace(s[|s| - 1]) { OpensStay(s[..|s| - 1]); }
  }

  /** A text opens like an array when its first character that is not blank is a bracket. */
  lemma LooksLikeArrayIff(text: string)
    ensures LooksLikeArray(text) <==> exists i :: 0 <= i < |text| && text[i] == '[' && AllBlank(text[..i])
  {
    forall c: char ensures IsSpace(c) <==> c in BLANKS { IsSpaceIff(c); }
    hide IsSpace;
    var l := TrimLeft(text, IsSpace);
    assert TrimSpace(text) != "" ==> TrimSpace(text)[0] == l[0];
    if LooksLikeArray(text) {
      var i := FirstVisible(text);
      TrimLeftStarts(text, i);
      assert text[i] == '[' && AllBlank(text[..i]);
    }
    if i :| 0 <= i < |text| && text[i] == '[' && AllBlank(text[..i]) {
      assert forall j :: 0 <= j < i ==> text[..i][j] == text[j];
      TrimLeftStarts(text, i);
      OpensStay(l);
    }
  }
}
