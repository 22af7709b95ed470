/** The ordered, de-duplicated list algebra on model names: normalise, merge,
    subtract, intersect, and applying selected changes. */
module ModelNames {
  import opened Text

  // ----- The operations -----

  /** Trimmed, non-empty, first occurrences only, in order. */
  function Normalize(models: seq<string>): (r: seq<string>) {
    if models == [] then []
    else
      var before := Normalize(models[..|models| - 1]);
      var t := TrimSpace(models[|models| - 1]);
      if t == "" || t in before then before else before + [t]
  }

  function Filter(l: seq<string>, keep: string -> bool): (r: seq<string>) {
    if l == [] then []
    else
      var before := Filter(l[..|l| - 1], keep);
      if keep(l[|l| - 1]) then before + [l[|l| - 1]] else before
  }

  function NotIn(l: seq<string>): (keep: string -> bool) {
    (m: string) => m !in l
  }

  function In(l: seq<string>): (keep: string -> bool) {
    (m: string) => m in l
  }

  function Merge(base: seq<string>, appended: seq<string>): (r: seq<string>) {
    Normalize(base) + Filter(Normalize(appended), NotIn(Normalize(base)))
  }

  function Subtract(base: seq<string>, removed: seq<string>): (r: seq<string>) {
    Filter(Normalize(base), NotIn(Normalize(removed)))
  }

  function Intersect(base: seq<string>, allowed: seq<string>): (r: seq<string>) {
    Filter(Normalize(base), In(Normalize(allowed)))
  }

  /** Add wins when the same model is in both selected lists. */
  function ApplySelected(origin: seq<string>, add: seq<string>, remove: seq<string>): (r: seq<string>) {
    var normalizedAdd := Normalize(add);
    var normalizedRemove := Subtract(Normalize(remove), normalizedAdd);
    Subtract(Merge(origin, normalizedAdd), normalizedRemove)
  }

  // ----- What normalising means -----

  ghost predicate Distinct(l: seq<string>) {
    forall i, j :: 0 <= i < j < |l| ==> l[i] != l[j]
  }

  predicate Name(m: string) {
    m != "" && TrimSpace(m) == m
  }

  ghost predicate Normal(l: seq<string>) {
    Distinct(l) && forall m :: m in l ==> Name(m)
  }

  ghost predicate Mentions(models: seq<string>, m: string) {
    exists i :: 0 <= i < |models| && TrimSpace(models[i]) == m
  }

  lemma MentionsSnoc(models: seq<string>, m: string)
    requires models != []
    ensures Mentions(models, m) <==> Mentions(models[..|models| - 1], m) || TrimSpace(models[|models| - 1]) == m
  {
    hide TrimSpace;
    var n := |models| - 1;
    if Mentions(models[..n], m) {
      var i :| 0 <= i < n && TrimSpace(models[..n][i]) == m;
      assert TrimSpace(models[i]) == m;
    }
    if Mentions(models, m) {
      var i :| 0 <= i < |models| && TrimSpace(models[i]) == m;
      if i < n { assert TrimSpace(models[..n][i]) == m; }
    }
  }

  lemma NothingMentioned(m: string)
    ensures !Mentions([], m)
  {
  }

  /** The normal form is distinct, trimmed and non-empty, and holds exactly the names the
      list mentions. */
  lemma {:induction false} NormalizeSound(models: seq<string>)
    ensures Normal(Normalize(models))
    ensures forall m :: m in Normalize(models) <==> m != "" && Mentions(models, m)
  {
    hide TrimSpace, Mentions;
    if models == [] {
      forall m ensures !Mentions(models, m) { NothingMentioned(m); }
    } else {
      var n := |models| - 1;
      NormalizeSound(models[..n]);
      TrimSpaceTrimmed(models[n]);
      forall m
        ensures m in Normalize(models) <==> m != "" && Mentions(models, m)
      {
        MentionsSnoc(models, m);
      }
    }
  }

  /** A list in normal form is left alone. */
  lemma {:induction false} NormalizeNormal(l: seq<string>)
    requires Normal(l)
    ensures Normalize(l) == l
  {
    hide TrimSpace;
    if l != [] {
      var n := |l| - 1;
      assert forall m :: m in l[..n] ==> m in l;
      NormalizeNormal(l[..n]);
      assert l[n] in l;
    }
  }

  // ----- Filters -----

  lemma {:induction false} FilterSound(l: seq<string>, keep: string -> bool)
    ensures forall m :: m in Filter(l, keep) <==> m in l && keep(m)
    ensures Distinct(l) ==> Distinct(Filter(l, keep))
    ensures Normal(l) ==> Normal(Filter(l, keep))
  {
    if l != [] {
      var n := |l| - 1;
      FilterSound(l[..n], keep);
      assert forall m :: m in l <==> m in l[..n] || m == l[n];
    }
  }

  lemma {:induction false} FilterAll(l: seq<string>, keep: string -> bool)
    requires forall m :: m in l ==> keep(m)
    ensures Filter(l, keep) == l
  {
    if l != [] {
      var n := |l| - 1;
      assert forall m :: m in l[..n] ==> m in l;
      FilterAll(l[..n], keep);
      assert l[n] in l;
    }
  }

  lemma {:induction false} FilterNone(l: seq<string>, keep: string -> bool)
    requires forall m :: m in l ==> !keep(m)
    ensures Filter(l, keep) == []
  {
    if l != [] {
      var n := |l| - 1;
      assert forall m :: m in l[..n] ==> m in l;
      FilterNone(l[..n], keep);
      assert l[n] in l;
    }
  }

  /** Only what a filter says about the members matters. */
  lemma {:induction false} FilterSame(l: seq<string>, keep: string -> bool, keep': string -> bool)
    requires forall m :: m in l ==> (keep(m) <==> keep'(m))
    ensures Filter(l, keep) == Filter(l, keep')
  {
    if l != [] {
      var n := |l| - 1;
      assert forall m :: m in l[..n] ==> m in l;
      FilterSame(l[..n], keep, keep');
      assert l[n] in l;
    }
  }

  lemma {:induction false} FilterConcat(a: seq<string>, b: seq<string>, keep: string -> bool)
    ensures Filter(a + b, keep) == Filter(a, keep) + Filter(b, keep)
  {
    if b == [] {
      assert a + b == a;
    } else {
      var n := |b| - 1;
      assert (a + b)[..|a + b| - 1] == a + b[..n];
      FilterConcat(a, b[..n], keep);
    }
  }

  lemma NormalConcat(a: seq<string>, b: seq<string>)
    requires Normal(a) && Normal(b) && forall m :: m in b ==> m !in a
    ensures Normal(a + b)
  {
    var l := a + b;
    forall i, j | 0 <= i < j < |l|
      ensures l[i] != l[j]
    {
      if i < |a| <= j { assert l[i] in a && l[j] in b; }
    }
  }

  // ----- The algebra on normal lists -----

  /** Merging is normalising the concatenation. */
  lemma {:induction false} MergeIsNormalize(base: seq<string>, appended: seq<string>)
    ensures Merge(base, appended) == Normalize(base + appended)
  {
    hide TrimSpace;
    if appended == [] {
      assert base + appended == base;
      assert Merge(base, appended) == Normalize(base);
    } else {
      var n := |appended| - 1;
      var t := TrimSpace(appended[n]);
      MergeIsNormalize(base, appended[..n]);
      assert (base + appended)[..|base + appended| - 1] == base + appended[..n];
      var before := Normalize(appended[..n]);
      FilterSound(before, NotIn(Normalize(base)));
      if t != "" && t !in before {
        assert (before + [t])[..|before|] == before;
      }
    }
  }

  lemma SubtractSound(base: seq<string>, removed: seq<string>)
    ensures Normal(Subtract(base, removed))
    ensures forall m :: m in Subtract(base, removed) <==> m in Normalize(base) && m !in Normalize(removed)
  {
    NormalizeSound(base);
    FilterSound(Normalize(base), NotIn(Normalize(removed)));
  }

  lemma IntersectSound(base: seq<string>, allowed: seq<string>)
    ensures Normal(Intersect(base, allowed))
    ensures forall m :: m in Intersect(base, allowed) <==> m in Normalize(base) && m in Normalize(allowed)
  {
    NormalizeSound(base);
    FilterSound(Normalize(base), In(Normalize(allowed)));
  }

  lemma MergeSound(base: seq<string>, appended: seq<string>)
    ensures Normal(Merge(base, appended))
    ensures forall m :: m in Merge(base, appended) <==> m in Normalize(base) || m in Normalize(appended)
  {
    NormalizeSound(base);
    NormalizeSound(appended);
    FilterSound(Normalize(appended), NotIn(Normalize(base)));
    NormalConcat(Normalize(base), Filter(Normalize(appended), NotIn(Normalize(base))));
  }

  /** On normal lists, selected changes keep the order of what stays and append what is
      new; a model in both lists is added. */
  lemma ApplySelectedNormal(origin: seq<string>, add: seq<string>, remove: seq<string>)
    requires Normal(origin) && Normal(add) && Normal(remove)
    ensures ApplySelected(origin, add, remove)
            == Filter(origin, (m: string) => m !in remove || m in add) + Filter(add, NotIn(origin))
  {
    NormalizeNormal(origin);
    NormalizeNormal(add);
    NormalizeNormal(remove);
    var gone := Subtract(remove, add);
    SubtractSound(remove, add);
    NormalizeNormal(gone);
    MergeSound(origin, add);
    NormalizeNormal(Merge(origin, add));
    var added := Filter(add, NotIn(origin));
    FilterSound(add, NotIn(origin));
    FilterConcat(origin, added, NotIn(gone));
    FilterAll(added, NotIn(gone));
    FilterSame(origin, NotIn(gone), (m: string) => m !in remove || m in add);
  }

  // ----- The loop of mergeModelNames -----

  method MergeModelNames(base: seq<string>, appended: seq<string>) returns (merged: seq<string>)
    ensures merged == Merge(base, appended)
  {
    hide Normalize;
    merged := Normalize(base);
    ghost var first := merged;
    var seen := set m | m in merged;
    var names := Normalize(appended);
    NormalizeSound(appended);
    for i := 0 to |names|
      invariant merged == first + Filter(names[..i], NotIn(first))
      invariant forall m :: m in seen <==> m in first || m in names[..i]
    {
      assert names[..i + 1][..i] == names[..i];
      if names[i] in seen {
        continue;
      }
      seen := seen + {names[i]};
      merged := merged + [names[i]];
    }
    assert names[..|names|] == names;
  }
}
