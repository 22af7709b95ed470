/** Upstream model reconciliation: detect what a channel lacks and what it should
    drop, keep that as pending work, and apply the operator's selection. */
module Reconcile {
  import opened Text
  import opened ModelNames

  const REGEX := "regex:"

  /** Whether a pattern matches a name; an invalid pattern matches nothing. */
  type Matcher = (string, string) -> bool

  datatype Settings = Settings(
    ignored: seq<string>,
    detected: seq<string>,   // pending additions
    removed: seq<string>,    // pending removals
    lastCheck: int,
    autoSync: bool)

  datatype Channel = Channel(models: string, settings: Settings)

  /** Channel.GetModels */
  function ModelsOf(text: string): (models: seq<string>) {
    if text == "" then [] else Split(TrimChar(text, ','), ',')
  }

  // ----- Detection -----

  predicate IsRegex(rule: string) {
    |rule| >= |REGEX| && rule[..|REGEX|] == REGEX
  }

  predicate IgnoredBy(rule: string, name: string, matches: Matcher) {
    if IsRegex(rule) then matches(TrimSpace(rule[|REGEX|..]), name) else rule == name
  }

  predicate Ignored(rules: seq<string>, name: string, matches: Matcher) {
    exists i :: 0 <= i < |rules| && IgnoredBy(rules[i], name, matches)
  }

  function Wanted(local: seq<string>, ignored: seq<string>, mapping: map<string, string>, matches: Matcher): (keep: string -> bool) {
    (m: string) => m !in local && m !in mapping.Values && !Ignored(ignored, m, matches)
  }

  function Unwanted(upstream: seq<string>, mapping: map<string, string>): (keep: string -> bool) {
    (m: string) => m !in mapping && m !in upstream
  }

  datatype Pending = Pending(add: seq<string>, remove: seq<string>)

  function Detect(local: seq<string>, upstream: seq<string>, ignored: seq<string>, mapping: map<string, string>, matches: Matcher): (p: Pending) {
    var l, u, g := Normalize(local), Normalize(upstream), Normalize(ignored);
    Pending(Filter(u, Wanted(l, g, mapping, matches)), Filter(l, Unwanted(u, mapping)))
  }

  /** The sets and filters of collectPendingUpstreamModelChangesFromModels. */
  method CollectPending(localModels: seq<string>, upstreamModels: seq<string>, ignoredModels: seq<string>,
                        mapping: map<string, string>, matches: Matcher)
    returns (add: seq<string>, remove: seq<string>)
    ensures Pending(add, remove) == Detect(localModels, upstreamModels, ignoredModels, mapping, matches)
  {
    hide Normalize, Ignored;
    var local, upstream, rules := Normalize(localModels), Normalize(upstreamModels), Normalize(ignoredModels);
    var localSet := set m | m in local;
    var upstreamSet := set m | m in upstream;
    var covered := localSet + mapping.Values;
    add := [];
    for i := 0 to |upstream|
      invariant add == Filter(upstream[..i], Wanted(local, rules, mapping, matches))
    {
      assert upstream[..i + 1][..i] == upstream[..i];
      if upstream[i] in covered {
        continue;
      }
      if Ignored(rules, upstream[i], matches) {
        continue;
      }
      add := add + [upstream[i]];
    }
    remove := [];
    for i := 0 to |local|
      invariant remove == Filter(local[..i], Unwanted(upstream, mapping))
    {
      assert local[..i + 1][..i] == local[..i];
      if local[i] in mapping || local[i] in upstreamSet {
        continue;
      }
      remove := remove + [local[i]];
    }
    assert upstream[..|upstream|] == upstream && local[..|local|] == local;
    NormalizeSound(upstreamModels);
    NormalizeSound(localModels);
    FilterSound(upstream, Wanted(local, rules, mapping, matches));
    FilterSound(local, Unwanted(upstream, mapping));
    NormalizeNormal(add);
    NormalizeNormal(remove);
    add, remove := Normalize(add), Normalize(remove);
  }

  lemma DetectMembers(local: seq<string>, upstream: seq<string>, ignored: seq<string>, mapping: map<string, string>, matches: Matcher)
    ensures var p := Detect(local, upstream, ignored, mapping, matches);
            && Normal(p.add) && Normal(p.remove)
            && (forall m :: m in p.add <==> m in Normalize(upstream) && Wanted(Normalize(local), Normalize(ignored), mapping, matches)(m))
            && (forall m :: m in p.remove <==> m in Normalize(local) && Unwanted(Normalize(upstream), mapping)(m))
  {
    hide Ignored, Normalize;
    var l, u, g := Normalize(local), Normalize(upstream), Normalize(ignored);
    NormalizeSound(local);
    NormalizeSound(upstream);
    FilterSound(u, Wanted(l, g, mapping, matches));
    FilterSound(l, Unwanted(u, mapping));
  }

  /** No rule hides the model: no pattern matches it, and no plain rule names it. */
  ghost predicate Unhidden(rules: seq<string>, m: string, matches: Matcher) {
    forall r :: r in rules ==> if "regex:" <= r then !matches(TrimSpace(r[6..]), m) else r != m
  }

  lemma UnhiddenIff(rules: seq<string>, m: string, matches: Matcher)
    ensures Unhidden(rules, m, matches) <==> !Ignored(rules, m, matches)
  {
    hide TrimSpace;
    if Ignored(rules, m, matches) {
      var i :| 0 <= i < |rules| && IgnoredBy(rules[i], m, matches);
      assert rules[i] in rules;
    }
    if !Unhidden(rules, m, matches) {
      var r :| r in rules && !(if "regex:" <= r then !matches(TrimSpace(r[6..]), m) else r != m);
      var i :| 0 <= i < |rules| && rules[i] == r;
      assert IgnoredBy(rules[i], m, matches);
    }
  }

  /** Detection: to be added is what upstream has, the channel lacks, no redirect leads to and
      no rule hides; to be removed is what the channel has, upstream lacks and no redirect
      starts from. Both lists keep the order they were given in. */
  lemma DetectSound(local: seq<string>, upstream: seq<string>, ignored: seq<string>, mapping: map<string, string>, matches: Matcher)
    ensures var p := Detect(local, upstream, ignored, mapping, matches);
            && Normal(p.add) && Normal(p.remove)
            && (forall m :: m in p.add <==>
                  && m in Normalize(upstream) && m !in Normalize(local) && m !in mapping.Values
                  && Unhidden(Normalize(ignored), m, matches))
            && (forall m :: m in p.remove <==> m in Normalize(local) && m !in Normalize(upstream) && m !in mapping.Keys)
    ensures var p := Detect(local, upstream, ignored, mapping, matches);
            && p.add == Filter(Normalize(upstream), In(p.add))
            && p.remove == Filter(Normalize(local), In(p.remove))
  {
    hide Ignored, Normalize, Unhidden;
    var p := Detect(local, upstream, ignored, mapping, matches);
    DetectMembers(local, upstream, ignored, mapping, matches);
    forall m ensures Unhidden(Normalize(ignored), m, matches) <==> !Ignored(Normalize(ignored), m, matches) {
      UnhiddenIff(Normalize(ignored), m, matches);
    }
    FilterSame(Normalize(upstream), Wanted(Normalize(local), Normalize(ignored), mapping, matches), In(p.add));
    FilterSame(Normalize(local), Unwanted(Normalize(upstream), mapping), In(p.remove));
  }

  // ----- Check and apply -----

  datatype Checked = Checked(channel: Channel, changed: bool, autoAdded: nat)

  /** A check whose fetch succeeded. With auto-sync the additions go straight into the
      channel; otherwise they are kept as pending. */
  function CheckOn(c: Channel, upstream: seq<string>, mapping: map<string, string>, matches: Matcher, now: int, allowAuto: bool): (r: Checked) {
    var p := Detect(ModelsOf(c.models), upstream, c.settings.ignored, mapping, matches);
    var s := c.settings.(lastCheck := now, removed := p.remove);
    if allowAuto && s.autoSync && |p.add| > 0 then
      var origin := Normalize(ModelsOf(c.models));
      var merged := Merge(origin, p.add);
      if |merged| > |origin|
      then Checked(Channel(Join(merged, ','), s.(detected := [])), true, |merged| - |origin|)
      else Checked(Channel(c.models, s.(detected := [])), false, 0)
    else Checked(Channel(c.models, s.(detected := p.add)), false, 0)
  }

  datatype Applied = Applied(
    channel: Channel, added: seq<string>, removed: seq<string>,
    remaining: seq<string>, remainingRemove: seq<string>, changed: bool)

  function ApplyOn(c: Channel, addInput: seq<string>, ignoreInput: seq<string>, removeInput: seq<string>, now: int): (r: Applied) {
    var s := c.settings;
    var pendingAdd, pendingRemove := Normalize(s.detected), Normalize(s.removed);
    var add := Intersect(addInput, pendingAdd);
    var ignore := Intersect(ignoreInput, pendingAdd);
    var remove := Subtract(Intersect(removeInput, pendingRemove), add);
    var origin := Normalize(ModelsOf(c.models));
    var next := ApplySelected(origin, add, remove);
    var merged := Merge(s.ignored, ignore);
    var ignored := if |add| > 0 then Subtract(merged, add) else merged;
    var remaining := Subtract(pendingAdd, add + ignore);
    var remainingRemove := Subtract(pendingRemove, remove);
    var models := if next != origin then Join(next, ',') else c.models;
    Applied(Channel(models, s.(ignored := ignored, detected := remaining, removed := remainingRemove, lastCheck := now)),
            add, remove, remaining, remainingRemove, next != origin)
  }

  /** The upstream answer. */
  datatype Fetch = Fetched(models: seq<string>) | Failed

  /** Which of the database writes succeed: the channel row, and its abilities. */
  datatype Writes = Writes(row: bool, abilities: bool)

  /** Whether an unforced check is still within the minimum interval. */
  predicate TooSoon(s: Settings, now: int, minInterval: int) {
    s.lastCheck > 0 && now - s.lastCheck < minInterval
  }

  /** The stored channel row. */
  class UpstreamChannel {
    var models: string
    var settings: Settings

    ghost function Model(): (c: Channel)
      reads this
    {
      Channel(models, settings)
    }

    constructor (models: string, settings: Settings)
      ensures Model() == Channel(models, settings)
    {
      this.models, this.settings := models, settings;
    }

    /** When the fetch failed only the check time moves. Unless forced, a check within the
        minimum interval does nothing. A row that cannot be written stays as it was. */
    method CheckAndPersist(fetched: Fetch, mapping: map<string, string>, matches: Matcher, now: int,
                           minInterval: int, force: bool, allowAuto: bool, writes: Writes)
      returns (changed: bool, autoAdded: nat, ok: bool)
      modifies this
      ensures var c := old(Model());
              if !force && TooSoon(c.settings, now, minInterval) then Model() == c && !changed && autoAdded == 0 && ok
              else if fetched.Failed? then
                && Model() == (if writes.row then c.(settings := c.settings.(lastCheck := now)) else c)
                && !changed && autoAdded == 0 && !ok
              else
                var r := CheckOn(c, fetched.models, mapping, matches, now, allowAuto);
                if writes.row then Checked(Model(), changed, autoAdded) == r && (ok <==> !r.changed || writes.abilities)
                else Model() == c && !changed && autoAdded == r.autoAdded && !ok
    {
      hide Normalize, Merge, Join, Split, Detect;
      if !force && TooSoon(settings, now, minInterval) {
        return false, 0, true;
      }
      if fetched.Failed? {
        if writes.row {
          settings := settings.(lastCheck := now);
        }
        return false, 0, false;
      }
      var local := ModelsOf(models);
      var add, remove := CollectPending(local, fetched.models, settings.ignored, mapping, matches);
      var newModels, newSettings := models, settings.(lastCheck := now);
      changed, autoAdded := false, 0;
      if allowAuto && newSettings.autoSync && |add| > 0 {
        var origin := Normalize(local);
        var merged := MergeModelNames(origin, add);
        if |merged| > |origin| {
          newModels := Join(merged, ',');
          autoAdded := |merged| - |origin|;
          changed := true;
        }
        newSettings := newSettings.(detected := []);
      } else {
        newSettings := newSettings.(detected := add);
      }
      newSettings := newSettings.(removed := remove);
      if !writes.row {
        return false, autoAdded, false;
      }
      models, settings := newModels, newSettings;
      ok := !changed || writes.abilities;
    }

    /** An error is reported when a write fails; if it was the row's, nothing has changed. */
    method ApplyUpdates(addInput: seq<string>, ignoreInput: seq<string>, removeInput: seq<string>, now: int, writes: Writes)
      returns (added: seq<string>, removed: seq<string>, remaining: seq<string>, remainingRemove: seq<string>,
               changed: bool, ok: bool)
      modifies this
      ensures var r := ApplyOn(old(Model()), addInput, ignoreInput, removeInput, now);
              if writes.row
              then Applied(Model(), added, removed, remaining, remainingRemove, changed) == r && (ok <==> !r.changed || writes.abilities)
              else Applied(Model(), added, removed, remaining, remainingRemove, changed) == Applied(old(Model()), [], [], [], [], false) && !ok
    {
      hide Normalize, Merge, Join, Split, Intersect, Subtract, ApplySelected;
      var pendingAdd, pendingRemove := Normalize(settings.detected), Normalize(settings.removed);
      added := Intersect(addInput, pendingAdd);
      var ignore := Intersect(ignoreInput, pendingAdd);
      removed := Intersect(removeInput, pendingRemove);
      removed := Subtract(removed, added);
      var origin := Normalize(ModelsOf(models));
      var next := ApplySelected(origin, added, removed);
      changed := origin != next;
      var newModels := models;
      if changed {
        newModels := Join(next, ',');
      }
      var ignored := MergeModelNames(settings.ignored, ignore);
      if |added| > 0 {
        ignored := Subtract(ignored, added);
      }
      remaining := Subtract(pendingAdd, added + ignore);
      remainingRemove := Subtract(pendingRemove, removed);
      if !writes.row {
        return [], [], [], [], false, false;
      }
      models := newModels;
      settings := settings.(ignored := ignored, detected := remaining, removed := remainingRemove, lastCheck := now);
      ok := !changed || writes.abilities;
    }
  }
}
