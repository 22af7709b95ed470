/** What reconciliation guarantees: applying a selection splits the pending work
    cleanly and touches nothing else, and applying everything converges. */
module ReconcileLaws {
  import opened Text
  import opened ModelNames
  import opened Reconcile

  // ----- The model text -----

  ghost predicate CommaFree(l: seq<string>) {
    forall m :: m in l ==> ',' !in m
  }

  /** A normal list of comma-free names survives being stored in the channel. */
  lemma StoredModels(l: seq<string>)
    requires Normal(l) && CommaFree(l)
    ensures ModelsOf(Join(l, ',')) == l
  {
    hide TrimSpace;
    if l != [] {
      assert forall i :: 0 <= i < |l| ==> l[i] in l;
      StoredListSurvivesIff(l, ',');
      JoinEnds(l, ',');
      assert Name(l[0]) && Name(l[|l| - 1]);
    }
  }

  /** Names read from the channel contain no comma. */
  lemma LocalCommaFree(text: string)
    ensures CommaFree(Normalize(ModelsOf(text)))
  {
    hide Normalize, TrimSpace, Split;
    var models := ModelsOf(text);
    SplitIsFree(TrimChar(text, ','), ',');
    NormalizeSound(models);
    forall m | m in Normalize(models)
      ensures ',' !in m
    {
      var i :| 0 <= i < |models| && TrimSpace(models[i]) == m;
      TrimSpaceKeeps(models[i], ',');
    }
  }

  // ----- Freshly detected channels -----

  /** The pending lists are what detection finds for the channel as it is. */
  ghost predicate Fresh(c: Channel, upstream: seq<string>, mapping: map<string, string>, matches: Matcher) {
    Pending(c.settings.detected, c.settings.removed)
    == Detect(ModelsOf(c.models), upstream, c.settings.ignored, mapping, matches)
  }

  /** A check without auto-sync leaves the channel freshly detected. */
  lemma CheckIsFresh(c: Channel, upstream: seq<string>, mapping: map<string, string>, matches: Matcher, now: int)
    ensures var r := CheckOn(c, upstream, mapping, matches, now, false);
            Fresh(r.channel, upstream, mapping, matches) && r.channel.models == c.models
  {
  }

  function Origin(c: Channel): (l: seq<string>) {
    Normalize(ModelsOf(c.models))
  }

  lemma FreshLists(c: Channel, upstream: seq<string>, mapping: map<string, string>, matches: Matcher)
    requires Fresh(c, upstream, mapping, matches)
    ensures Normal(c.settings.detected) && Normal(c.settings.removed)
    ensures Normalize(c.settings.detected) == c.settings.detected && Normalize(c.settings.removed) == c.settings.removed
    ensures forall m :: m in c.settings.detected ==> m in Normalize(upstream) && m !in Origin(c)
    ensures forall m :: m in c.settings.removed ==> m in Origin(c) && m !in Normalize(upstream)
  {
    hide Normalize, Ignored;
    DetectMembers(ModelsOf(c.models), upstream, c.settings.ignored, mapping, matches);
    NormalizeNormal(c.settings.detected);
    NormalizeNormal(c.settings.removed);
  }

  /** The selected lists are normal and taken from the pending ones. */
  lemma SelectionSound(c: Channel, upstream: seq<string>, mapping: map<string, string>, matches: Matcher,
                       add: seq<string>, ignore: seq<string>, remove: seq<string>, now: int)
    requires Fresh(c, upstream, mapping, matches)
    ensures var r := ApplyOn(c, add, ignore, remove, now);
            && Normal(r.added) && Normal(r.removed)
            && (forall m :: m in r.added <==> m in Normalize(add) && m in c.settings.detected)
            && (forall m :: m in r.removed <==> m in Normalize(remove) && m in c.settings.removed)
  {
    hide Normalize, Ignored, Merge, Subtract, Intersect, ApplySelected, Join;
    FreshLists(c, upstream, mapping, matches);
    var r := ApplyOn(c, add, ignore, remove, now);
    IntersectSound(add, c.settings.detected);
    IntersectSound(remove, c.settings.removed);
    var picked := Intersect(remove, c.settings.removed);
    NormalizeNormal(picked);
    NormalizeNormal(r.added);
    SubtractSound(picked, r.added);
  }

  /** The channel after an apply: what stays keeps its order, and the selected additions
      follow in the order they were given. */
  lemma AppliedModels(c: Channel, upstream: seq<string>, mapping: map<string, string>, matches: Matcher,
                      add: seq<string>, ignore: seq<string>, remove: seq<string>, now: int)
    requires Fresh(c, upstream, mapping, matches) && CommaFree(Normalize(upstream))
    ensures var r := ApplyOn(c, add, ignore, remove, now);
            Origin(r.channel) == Filter(Origin(c), NotIn(r.removed)) + r.added
  {
    hide Normalize, Ignored, Merge, Subtract, Intersect, ApplySelected, Join, ModelsOf, Detect;
    var r := ApplyOn(c, add, ignore, remove, now);
    var origin := Origin(c);
    NormalizeSound(ModelsOf(c.models));
    LocalCommaFree(c.models);
    FreshLists(c, upstream, mapping, matches);
    SelectionSound(c, upstream, mapping, matches, add, ignore, remove, now);
    ApplySelectedNormal(origin, r.added, r.removed);
    FilterAll(r.added, NotIn(origin));
    FilterSame(origin, (m: string) => m !in r.removed || m in r.added, NotIn(r.removed));
    var next := Filter(origin, NotIn(r.removed)) + r.added;
    assert ApplySelected(origin, r.added, r.removed) == next;
    FilterSound(origin, NotIn(r.removed));
    NormalConcat(Filter(origin, NotIn(r.removed)), r.added);
    if next != origin {
      assert CommaFree(next);
      StoredModels(next);
      NormalizeNormal(next);
    }
  }

  /** The ignore rules after an apply: the old ones and the newly ignored models, without
      the added models. */
  lemma AppliedIgnored(c: Channel, upstream: seq<string>, mapping: map<string, string>, matches: Matcher,
                       add: seq<string>, ignore: seq<string>, remove: seq<string>, now: int)
    requires Fresh(c, upstream, mapping, matches)
    ensures var r := ApplyOn(c, add, ignore, remove, now);
            forall m :: m in Normalize(r.channel.settings.ignored) <==>
              && (m in Normalize(c.settings.ignored) || (m in Normalize(ignore) && m in c.settings.detected))
              && m !in r.added
  {
    hide Normalize, Ignored, Merge, Subtract, Intersect, ApplySelected, Join, Detect, ModelsOf;
    var r := ApplyOn(c, add, ignore, remove, now);
    FreshLists(c, upstream, mapping, matches);
    SelectionSound(c, upstream, mapping, matches, add, ignore, remove, now);
    IntersectSound(ignore, c.settings.detected);
    var picked := Intersect(ignore, c.settings.detected);
    NormalizeNormal(picked);
    MergeSound(c.settings.ignored, picked);
    var merged := Merge(c.settings.ignored, picked);
    NormalizeNormal(merged);
    NormalizeNormal(r.added);
    SubtractSound(merged, r.added);
    NormalizeNormal(Subtract(merged, r.added));
  }

  lemma AppliedRemaining(c: Channel, upstream: seq<string>, mapping: map<string, string>, matches: Matcher,
                         add: seq<string>, ignore: seq<string>, remove: seq<string>, now: int)
    requires Fresh(c, upstream, mapping, matches)
    ensures var r := ApplyOn(c, add, ignore, remove, now);
            && (forall m :: m in r.remaining <==> m in c.settings.detected && m !in r.added && m !in Normalize(ignore))
            && (forall m :: m in r.remainingRemove <==> m in c.settings.removed && m !in r.removed)
  {
    hide Normalize, Ignored, Merge, Subtract, Intersect, ApplySelected, Join, Detect, ModelsOf;
    var r := ApplyOn(c, add, ignore, remove, now);
    FreshLists(c, upstream, mapping, matches);
    SelectionSound(c, upstream, mapping, matches, add, ignore, remove, now);
    IntersectSound(ignore, c.settings.detected);
    var picked := Intersect(ignore, c.settings.detected);
    SubtractSound(c.settings.detected, r.added + picked);
    SubtractSound(c.settings.removed, r.removed);
    NormalizeNormal(r.removed);
    MergeIsNormalize(r.added, picked);
    MergeSound(r.added, picked);
    NormalizeNormal(r.added);
    NormalizeNormal(picked);
  }

  // ----- Selective apply splits the pending work -----

  ghost predicate NoRegexNames(upstream: seq<string>) {
    forall m :: m in Normalize(upstream) ==> !IsRegex(m)
  }

  function Count3(a: bool, b: bool, c: bool): (n: int) {
    (if a then 1 else 0) + (if b then 1 else 0) + (if c then 1 else 0)
  }

  /** A freshly detected addition is named by no ignore rule. */
  lemma DetectedNotListed(c: Channel, upstream: seq<string>, mapping: map<string, string>, matches: Matcher, m: string)
    requires Fresh(c, upstream, mapping, matches) && NoRegexNames(upstream) && m in c.settings.detected
    ensures m !in Normalize(c.settings.ignored)
  {
    hide Normalize;
    var g := Normalize(c.settings.ignored);
    DetectMembers(ModelsOf(c.models), upstream, c.settings.ignored, mapping, matches);
  }

  /** A pending addition ends up in exactly one of the three places, unless the operator
      left it unselected and an ignore rule bears its very name without ignoring it. */
  lemma PartitionIff(c: Channel, upstream: seq<string>, mapping: map<string, string>, matches: Matcher,
                     add: seq<string>, ignore: seq<string>, remove: seq<string>, now: int, m: string)
    requires Fresh(c, upstream, mapping, matches) && CommaFree(Normalize(upstream)) && m in c.settings.detected
    ensures var r := ApplyOn(c, add, ignore, remove, now);
            Count3(m in Origin(r.channel), m in Normalize(r.channel.settings.ignored), m in r.remaining) == 1
            <==> (m in Normalize(add) || m in Normalize(ignore) || m !in Normalize(c.settings.ignored))
  {
    hide Normalize, ModelsOf, ApplyOn, Detect;
    var r := ApplyOn(c, add, ignore, remove, now);
    FreshLists(c, upstream, mapping, matches);
    SelectionSound(c, upstream, mapping, matches, add, ignore, remove, now);
    AppliedModels(c, upstream, mapping, matches, add, ignore, remove, now);
    AppliedIgnored(c, upstream, mapping, matches, add, ignore, remove, now);
    AppliedRemaining(c, upstream, mapping, matches, add, ignore, remove, now);
    FilterSound(Origin(c), NotIn(r.removed));
  }

  /** Whatever lists the operator sends: every pending addition ends up in exactly one of
      the channel, the ignore list and the remaining list; every pending removal is either
      gone from the channel or remaining; and every other model stays where it was. */
  lemma ApplyPartitions(c: Channel, upstream: seq<string>, mapping: map<string, string>, matches: Matcher,
                        add: seq<string>, ignore: seq<string>, remove: seq<string>, now: int)
    requires Fresh(c, upstream, mapping, matches)
    requires CommaFree(Normalize(upstream)) && NoRegexNames(upstream)
    ensures var r := ApplyOn(c, add, ignore, remove, now);
            var models, ignored := Origin(r.channel), Normalize(r.channel.settings.ignored);
            && (forall m :: m in c.settings.detected ==> Count3(m in models, m in ignored, m in r.remaining) == 1)
            && (forall m :: m in c.settings.removed ==> (m in r.remainingRemove <==> m in models))
            && (forall m :: m !in c.settings.detected && m !in c.settings.removed ==> (m in models <==> m in Origin(c)))
            && models == Filter(Origin(c), NotIn(r.removed)) + r.added
  {
    hide Normalize, ModelsOf, ApplyOn, Detect, IsRegex, NoRegexNames;
    var r := ApplyOn(c, add, ignore, remove, now);
    FreshLists(c, upstream, mapping, matches);
    SelectionSound(c, upstream, mapping, matches, add, ignore, remove, now);
    AppliedModels(c, upstream, mapping, matches, add, ignore, remove, now);
    AppliedRemaining(c, upstream, mapping, matches, add, ignore, remove, now);
    FilterSound(Origin(c), NotIn(r.removed));
    forall m | m in c.settings.detected
      ensures Count3(m in Origin(r.channel), m in Normalize(r.channel.settings.ignored), m in r.remaining) == 1
    {
      DetectedNotListed(c, upstream, mapping, matches, m);
      PartitionIff(c, upstream, mapping, matches, add, ignore, remove, now, m);
    }
  }

  // ----- Applying everything converges -----

  /** Selecting all pending changes selects exactly the pending lists. */
  lemma ApplyAllSelects(c: Channel, upstream: seq<string>, mapping: map<string, string>, matches: Matcher, now: int)
    requires Fresh(c, upstream, mapping, matches)
    ensures var r := ApplyOn(c, c.settings.detected, [], c.settings.removed, now);
            r.added == c.settings.detected && r.removed == c.settings.removed
  {
    hide Normalize, Ignored, Merge, ApplySelected, Join, Detect, ModelsOf;
    var d, g := c.settings.detected, c.settings.removed;
    FreshLists(c, upstream, mapping, matches);
    FilterAll(d, In(d));
    FilterAll(g, In(g));
    FilterAll(g, NotIn(d));
  }

  /** Some rule that is not itself being added still ignores `m`. */
  ghost predicate StillIgnored(rules: seq<string>, added: seq<string>, m: string, matches: Matcher) {
    exists i :: 0 <= i < |rules| && rules[i] !in added && IgnoredBy(rules[i], m, matches)
  }

  ghost predicate RulesSurvive(c: Channel, upstream: seq<string>, mapping: map<string, string>, matches: Matcher) {
    forall m :: m in Normalize(upstream) && m !in Origin(c) && m !in mapping.Values
                && Ignored(Normalize(c.settings.ignored), m, matches) ==>
                  StillIgnored(Normalize(c.settings.ignored), c.settings.detected, m, matches)
  }

  lemma IgnoredMembers(rules: seq<string>, m: string, matches: Matcher)
    ensures Ignored(rules, m, matches) <==> exists r :: r in rules && IgnoredBy(r, m, matches)
  {
    if r :| r in rules && IgnoredBy(r, m, matches) {
      var i :| 0 <= i < |rules| && rules[i] == r;
      assert IgnoredBy(rules[i], m, matches);
    }
  }

  lemma SurvivingRules(rules: seq<string>, kept: seq<string>, added: seq<string>, m: string, matches: Matcher)
    requires forall r :: r in kept <==> r in rules && r !in added
    ensures Ignored(kept, m, matches) <==> StillIgnored(rules, added, m, matches)
  {
    IgnoredMembers(kept, m, matches);
    if r :| r in kept && IgnoredBy(r, m, matches) {
      var i :| 0 <= i < |rules| && rules[i] == r;
      assert rules[i] !in added;
    }
  }

  lemma StillMeansIgnored(rules: seq<string>, added: seq<string>, m: string, matches: Matcher)
    ensures StillIgnored(rules, added, m, matches) ==> Ignored(rules, m, matches)
  {
  }

  /** Detection repeated on the applied lists, in terms of members only. */
  lemma DetectAgain(l: seq<string>, u: seq<string>, rules: seq<string>, l': seq<string>, rules': seq<string>,
                    d: seq<string>, g: seq<string>, mapping: map<string, string>, matches: Matcher)
    requires forall m :: m in d <==> m in u && Wanted(l, rules, mapping, matches)(m)
    requires forall m :: m in g <==> m in l && Unwanted(u, mapping)(m)
    requires forall m :: m in l' <==> (m in l && m !in g) || m in d
    requires forall r :: r in rules' <==> r in rules && r !in d
    ensures forall m :: m in l' ==> !Unwanted(u, mapping)(m)
    ensures forall m :: m in u && Wanted(l', rules', mapping, matches)(m) <==>
              && m in u && m !in l && m !in mapping.Values && Ignored(rules, m, matches)
              && !StillIgnored(rules, d, m, matches)
  {
    hide Ignored, StillIgnored;
    forall m
      ensures Ignored(rules', m, matches) <==> StillIgnored(rules, d, m, matches)
      ensures StillIgnored(rules, d, m, matches) ==> Ignored(rules, m, matches)
    {
      SurvivingRules(rules, rules', d, m, matches);
      StillMeansIgnored(rules, d, m, matches);
    }
  }

  lemma NothingNormal()
    ensures forall m :: m !in Normalize([])
  {
  }

  /** The members of the channel's lists after everything pending was applied. */
  lemma AppliedAll(c: Channel, upstream: seq<string>, mapping: map<string, string>, matches: Matcher, now: int)
    requires Fresh(c, upstream, mapping, matches) && CommaFree(Normalize(upstream))
    ensures var c' := ApplyOn(c, c.settings.detected, [], c.settings.removed, now).channel;
            && (forall m :: m in Origin(c') <==> (m in Origin(c) && m !in c.settings.removed) || m in c.settings.detected)
            && (forall r :: r in Normalize(c'.settings.ignored) <==>
                              r in Normalize(c.settings.ignored) && r !in c.settings.detected)
  {
    hide Normalize, ModelsOf, ApplyOn, Detect;
    var d, g := c.settings.detected, c.settings.removed;
    ApplyAllSelects(c, upstream, mapping, matches, now);
    AppliedModels(c, upstream, mapping, matches, d, [], g, now);
    AppliedIgnored(c, upstream, mapping, matches, d, [], g, now);
    NothingNormal();
    FilterSound(Origin(c), NotIn(g));
  }

  lemma EmptyIff(l: seq<string>)
    ensures l == [] <==> forall m :: m !in l
  {
    if l != [] {
      assert l[0] in l;
    }
  }

  /** After applying everything no removal is pending any more, and no addition is, if and
      only if every uncovered ignored upstream model is still ignored by a rule that is not
      the name of a model just added. */
  lemma ConvergesIff(c: Channel, upstream: seq<string>, mapping: map<string, string>, matches: Matcher, now: int)
    requires Fresh(c, upstream, mapping, matches) && CommaFree(Normalize(upstream))
    ensures var c' := ApplyOn(c, c.settings.detected, [], c.settings.removed, now).channel;
            var again := Detect(ModelsOf(c'.models), upstream, c'.settings.ignored, mapping, matches);
            && again.remove == []
            && (again.add == [] <==> RulesSurvive(c, upstream, mapping, matches))
  {
    hide Normalize, ModelsOf, ApplyOn, Ignored, StillIgnored, Detect, Wanted, Unwanted;
    var d, g := c.settings.detected, c.settings.removed;
    var c' := ApplyOn(c, d, [], g, now).channel;
    AppliedAll(c, upstream, mapping, matches, now);
    DetectMembers(ModelsOf(c.models), upstream, c.settings.ignored, mapping, matches);
    DetectMembers(ModelsOf(c'.models), upstream, c'.settings.ignored, mapping, matches);
    DetectAgain(Origin(c), Normalize(upstream), Normalize(c.settings.ignored), Origin(c'), Normalize(c'.settings.ignored),
                d, g, mapping, matches);
    var again := Detect(ModelsOf(c'.models), upstream, c'.settings.ignored, mapping, matches);
    EmptyIff(again.remove);
    EmptyIff(again.add);
  }

  /** So reconciliation converges whenever no upstream model is named like a rule. */
  lemma Converges(c: Channel, upstream: seq<string>, mapping: map<string, string>, matches: Matcher, now: int)
    requires Fresh(c, upstream, mapping, matches)
    requires CommaFree(Normalize(upstream)) && NoRegexNames(upstream)
    ensures var c' := ApplyOn(c, c.settings.detected, [], c.settings.removed, now).channel;
            Detect(ModelsOf(c'.models), upstream, c'.settings.ignored, mapping, matches) == Pending([], [])
  {
    hide Normalize, ModelsOf, ApplyOn, Detect, IsRegex;
    FreshLists(c, upstream, mapping, matches);
    var rules, d := Normalize(c.settings.ignored), c.settings.detected;
    forall m | m in Normalize(upstream) && m !in Origin(c) && m !in mapping.Values && Ignored(rules, m, matches)
      ensures StillIgnored(rules, d, m, matches)
    {
      var i :| 0 <= i < |rules| && IgnoredBy(rules[i], m, matches);
      DetectMembers(ModelsOf(c.models), upstream, c.settings.ignored, mapping, matches);
      assert m !in d;
      assert rules[i] !in d;
    }
    ConvergesIff(c, upstream, mapping, matches, now);
  }

  lemma ExampleTrims()
    ensures TrimSpace("regex:^b") == "regex:^b" && TrimSpace("^b") == "^b" && TrimSpace("b") == "b"
  {
    hide TrimSpace;
    NothingToTrim("regex:^b");
    NothingToTrim("b");
    NothingToTrim("^b");
  }

  lemma ExampleNames()
    ensures Normalize(["regex:^b", "b"]) == ["regex:^b", "b"] && Normalize(["regex:^b"]) == ["regex:^b"]
    ensures TrimSpace("regex:^b"[|REGEX|..]) == "^b"
  {
    hide TrimSpace, Normalize;
    ExampleTrims();
    assert "regex:^b"[|REGEX|..] == "^b";
    NormalizeNormal(["regex:^b", "b"]);
    NormalizeNormal(["regex:^b"]);
  }

  /** The rule list had one rule, it is being added, and `b` was hidden by it only. */
  lemma ReportsAgain(c: Channel, upstream: seq<string>, matches: Matcher, now: int)
    requires Fresh(c, upstream, map[], matches) && CommaFree(Normalize(upstream))
    requires Normalize(c.settings.ignored) == ["regex:^b"] && "regex:^b" in c.settings.detected
    requires "b" in Normalize(upstream) && "b" !in Origin(c) && "b" !in c.settings.detected
    ensures var c' := ApplyOn(c, c.settings.detected, [], c.settings.removed, now).channel;
            "b" in Detect(ModelsOf(c'.models), upstream, c'.settings.ignored, map[], matches).add
  {
    hide Normalize, ModelsOf, ApplyOn;
    var d, g := c.settings.detected, c.settings.removed;
    var r := ApplyOn(c, d, [], g, now);
    ApplyAllSelects(c, upstream, map[], matches, now);
    AppliedModels(c, upstream, map[], matches, d, [], g, now);
    AppliedIgnored(c, upstream, map[], matches, d, [], g, now);
    FilterSound(Origin(c), NotIn(g));
    EmptyIff(Normalize(r.channel.settings.ignored));
    NothingNormal();
    DetectMembers(ModelsOf(r.channel.models), upstream, r.channel.settings.ignored, map[], matches);
  }

  /** It need not converge otherwise: adding an upstream model that bears the name of the
      rule hiding `b` deletes the rule, and the next detection reports `b`. The pattern is
      anchored, so as a regular expression it matches `b` and not the rule's own name. */
  lemma ConvergenceCanFail(matches: Matcher, now: int) returns (c: Channel, upstream: seq<string>)
    requires matches("^b", "b") && !matches("^b", "regex:^b")
    ensures Fresh(c, upstream, map[], matches) && CommaFree(Normalize(upstream))
    ensures var c' := ApplyOn(c, c.settings.detected, [], c.settings.removed, now).channel;
            "b" in Detect(ModelsOf(c'.models), upstream, c'.settings.ignored, map[], matches).add
  {
    hide TrimSpace, Normalize, Filter, ApplyOn;
    upstream := ["regex:^b", "b"];
    var rules := ["regex:^b"];
    ExampleNames();
    c := CheckOn(Channel("", Settings(rules, [], [], 0, false)), upstream, map[], matches, now, false).channel;
    assert IgnoredBy(rules[0], "b", matches) && !IgnoredBy(rules[0], "regex:^b", matches);
    NothingNormal();
    DetectMembers([], upstream, rules, map[], matches);
    assert upstream[0] in upstream && upstream[1] in upstream;
    ReportsAgain(c, upstream, matches, now);
  }

  // ----- The reported counts, and auto-sync -----

  lemma PendingIsNew(c: Channel, upstream: seq<string>, mapping: map<string, string>, matches: Matcher)
    ensures var p := Detect(ModelsOf(c.models), upstream, c.settings.ignored, mapping, matches);
            && Normal(p.add) && (forall m :: m in p.add ==> m !in Origin(c) && m in Normalize(upstream))
  {
    hide Normalize, ModelsOf, Ignored;
    DetectMembers(ModelsOf(c.models), upstream, c.settings.ignored, mapping, matches);
  }

  /** A successful check reports the number of additions it detected, whether they were
      kept as pending or put straight into the channel. */
  lemma CheckReportsAdditions(c: Channel, upstream: seq<string>, mapping: map<string, string>, matches: Matcher, now: int, allowAuto: bool)
    ensures var r := CheckOn(c, upstream, mapping, matches, now, allowAuto);
            |Normalize(r.channel.settings.detected)| + r.autoAdded
            == |Detect(ModelsOf(c.models), upstream, c.settings.ignored, mapping, matches).add|
  {
    hide Normalize, ModelsOf, Detect, Join;
    var p := Detect(ModelsOf(c.models), upstream, c.settings.ignored, mapping, matches);
    var origin := Origin(c);
    PendingIsNew(c, upstream, mapping, matches);
    NormalizeSound(ModelsOf(c.models));
    NormalizeNormal(p.add);
    NormalizeNormal(origin);
    FilterAll(p.add, NotIn(origin));
    NothingNormal();
    EmptyIff(Normalize([]));
  }

  /** What an auto-sync check leaves in the channel. */
  lemma AutoSyncModels(c: Channel, upstream: seq<string>, mapping: map<string, string>, matches: Matcher, now: int)
    requires c.settings.autoSync && CommaFree(Normalize(upstream))
    ensures var c' := CheckOn(c, upstream, mapping, matches, now, true).channel;
            && c'.settings.ignored == c.settings.ignored
            && Origin(c') == Origin(c) + Detect(ModelsOf(c.models), upstream, c.settings.ignored, mapping, matches).add
  {
    hide Normalize, ModelsOf, Detect, Join;
    var p := Detect(ModelsOf(c.models), upstream, c.settings.ignored, mapping, matches);
    var origin := Origin(c);
    PendingIsNew(c, upstream, mapping, matches);
    if p.add != [] {
      NormalizeSound(ModelsOf(c.models));
      LocalCommaFree(c.models);
      NormalizeNormal(p.add);
      NormalizeNormal(origin);
      FilterAll(p.add, NotIn(origin));
      var merged := origin + p.add;
      NormalConcat(origin, p.add);
      StoredModels(merged);
      NormalizeNormal(merged);
    }
  }

  /** With auto-sync one check is enough: the next one finds nothing to add. */
  lemma AutoSyncConverges(c: Channel, upstream: seq<string>, mapping: map<string, string>, matches: Matcher, now: int)
    requires c.settings.autoSync && CommaFree(Normalize(upstream))
    ensures var c' := CheckOn(c, upstream, mapping, matches, now, true).channel;
            Detect(ModelsOf(c'.models), upstream, c'.settings.ignored, mapping, matches).add == []
  {
    hide Normalize, ModelsOf, Ignored, CheckOn, Detect;
    var c' := CheckOn(c, upstream, mapping, matches, now, true).channel;
    AutoSyncModels(c, upstream, mapping, matches, now);
    DetectMembers(ModelsOf(c.models), upstream, c.settings.ignored, mapping, matches);
    DetectMembers(ModelsOf(c'.models), upstream, c'.settings.ignored, mapping, matches);
    EmptyIff(Detect(ModelsOf(c'.models), upstream, c'.settings.ignored, mapping, matches).add);
  }

  /** A check reports a changed channel exactly when it added models by itself: auto-sync was
      allowed and on, and something was detected. */
  lemma CheckChangesIff(c: Channel, upstream: seq<string>, mapping: map<string, string>, matches: Matcher, now: int, allowAuto: bool)
    ensures var r := CheckOn(c, upstream, mapping, matches, now, allowAuto);
            var add := Detect(ModelsOf(c.models), upstream, c.settings.ignored, mapping, matches).add;
            && (r.changed <==> allowAuto && c.settings.autoSync && add != [])
            && r.autoAdded == (if r.changed then |add| else 0)
            && (!r.changed ==> r.channel.models == c.models)
  {
    hide Normalize, ModelsOf, Detect, Join;
    var p := Detect(ModelsOf(c.models), upstream, c.settings.ignored, mapping, matches);
    var origin := Origin(c);
    PendingIsNew(c, upstream, mapping, matches);
    NormalizeSound(ModelsOf(c.models));
    NormalizeNormal(p.add);
    NormalizeNormal(origin);
    FilterAll(p.add, NotIn(origin));
  }

  /** Applying a selection reports a change exactly when it selected something pending. */
  lemma ApplyChangesIff(c: Channel, upstream: seq<string>, mapping: map<string, string>, matches: Matcher,
                        add: seq<string>, ignore: seq<string>, remove: seq<string>, now: int)
    requires Fresh(c, upstream, mapping, matches)
    ensures var r := ApplyOn(c, add, ignore, remove, now);
            r.changed <==> r.added != [] || r.removed != []
  {
    hide Normalize, Ignored, Merge, Subtract, Intersect, ApplySelected, Join, ModelsOf, Detect;
    var r := ApplyOn(c, add, ignore, remove, now);
    var origin := Origin(c);
    NormalizeSound(ModelsOf(c.models));
    FreshLists(c, upstream, mapping, matches);
    SelectionSound(c, upstream, mapping, matches, add, ignore, remove, now);
    ApplySelectedNormal(origin, r.added, r.removed);
    FilterAll(r.added, NotIn(origin));
    FilterSame(origin, (m: string) => m !in r.removed || m in r.added, NotIn(r.removed));
    FilterSound(origin, NotIn(r.removed));
    var next := Filter(origin, NotIn(r.removed)) + r.added;
    if r.added == [] && r.removed == [] {
      FilterAll(origin, NotIn(r.removed));
    } else if r.added != [] {
      assert r.added[0] in r.added && r.added[0] in next;
    } else {
      assert r.removed[0] in r.removed && r.removed[0] !in next;
    }
  }

  // ----- The minimum interval -----

  /** After a check, whether the fetch succeeded or not, and after applying a selection, an
      unforced check is skipped exactly until the interval since then is over. */
  lemma NextCheckSkippedIff(c: Channel, upstream: seq<string>, mapping: map<string, string>, matches: Matcher, allowAuto: bool,
                            add: seq<string>, ignore: seq<string>, remove: seq<string>, now: int, later: int, minInterval: int)
    ensures var checked := CheckOn(c, upstream, mapping, matches, now, allowAuto).channel;
            TooSoon(checked.settings, later, minInterval) <==> now > 0 && later < now + minInterval
    ensures TooSoon(c.settings.(lastCheck := now), later, minInterval) <==> now > 0 && later < now + minInterval
    ensures var applied := ApplyOn(c, add, ignore, remove, now).channel;
            TooSoon(applied.settings, later, minInterval) <==> now > 0 && later < now + minInterval
  {
    hide Detect, Normalize, Merge, Intersect, Subtract, ApplySelected, ModelsOf;
  }
}
