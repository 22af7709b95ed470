/** The upstream update task: what its totals say when every channel it visits is checked
    against its upstream. */
module UpdateTask {
  import opened Counting
  import opened ModelNames
  import opened Reconcile
  import opened ReconcileLaws
  import opened KeysetScan

  /** A channel as the scan meets it: its row, whether checks are enabled for it, what the
      upstream answers, and which writes succeed. */
  datatype Target = Target(
    channel: Channel, checkEnabled: bool, fetched: Fetch, mapping: map<string, string>, writes: Writes)

  /** What one unforced check with automatic additions comes to, as the scan counts it: the
      lists are read back from the settings after the check. */
  function Outcome(x: Target, matches: Matcher, now: int, minInterval: int): (check: Check) {
    if !x.checkEnabled then Skipped
    else if TooSoon(x.channel.settings, now, minInterval) then
      Found(|Normalize(x.channel.settings.detected)|, |Normalize(x.channel.settings.removed)|, 0)
    else if x.fetched.Failed? || !x.writes.row then Check.Failed
    else
      var r := CheckOn(x.channel, x.fetched.models, x.mapping, matches, now, true);
      if r.changed && !x.writes.abilities then Check.Failed
      else
        Found(|Normalize(r.channel.settings.detected)|, |Normalize(r.channel.settings.removed)|, r.autoAdded)
  }

  /** One round of the scan for a channel: check it, and read the two lists back. */
  method CheckTarget(x: Target, matches: Matcher, now: int, minInterval: int) returns (check: Check)
    ensures check == Outcome(x, matches, now, minInterval)
  {
    hide CheckOn, Normalize;
    if !x.checkEnabled {
      return Skipped;
    }
    var row := new UpstreamChannel(x.channel.models, x.channel.settings);
    assert row.Model() == x.channel;
    var changed, autoAdded, ok := row.CheckAndPersist(x.fetched, x.mapping, matches, now, minInterval, false, true, x.writes);
    if !ok {
      return Check.Failed;
    }
    var adds, removes := Normalize(row.settings.detected), Normalize(row.settings.removed);
    return Found(|adds|, |removes|, autoAdded);
  }

  /** What is pending for a channel: freshly detected, or as last recorded when it was
      checked too recently. */
  function PendingFor(x: Target, matches: Matcher, now: int, minInterval: int): (p: Pending) {
    if TooSoon(x.channel.settings, now, minInterval)
    then Pending(Normalize(x.channel.settings.detected), Normalize(x.channel.settings.removed))
    else if x.fetched.Failed? then Pending([], [])
    else Detect(ModelsOf(x.channel.models), x.fetched.models, x.channel.settings.ignored, x.mapping, matches)
  }

  lemma RemovedIsNormal(c: Channel, upstream: seq<string>, mapping: map<string, string>, matches: Matcher)
    ensures var p := Detect(ModelsOf(c.models), upstream, c.settings.ignored, mapping, matches);
            Normalize(p.remove) == p.remove
  {
    hide Normalize, ModelsOf, Ignored;
    DetectMembers(ModelsOf(c.models), upstream, c.settings.ignored, mapping, matches);
    NormalizeNormal(Detect(ModelsOf(c.models), upstream, c.settings.ignored, mapping, matches).remove);
  }

  /** A check that ran reports exactly what is pending, in the auto-sync branch and in the
      manual one. */
  lemma OutcomeIsPending(x: Target, matches: Matcher, now: int, minInterval: int)
    ensures var check, p := Outcome(x, matches, now, minInterval), PendingFor(x, matches, now, minInterval);
            check.Found? ==> check.adds + check.autoAdded == |p.add| && check.removes == |p.remove|
  {
    hide Normalize, Detect, ModelsOf;
    if x.fetched.Fetched? {
      CheckReportsAdditions(x.channel, x.fetched.models, x.mapping, matches, now, true);
      RemovedIsNormal(x.channel, x.fetched.models, x.mapping, matches);
    }
  }

  /** The numbers of pending additions and removals of the channels whose check ran. */
  ghost function Additions(targets: int -> Target, matches: Matcher, now: int, minInterval: int): int -> int {
    (id: int) => if Outcome(targets(id), matches, now, minInterval).Found?
                 then |PendingFor(targets(id), matches, now, minInterval).add| else 0
  }

  ghost function Removals(targets: int -> Target, matches: Matcher, now: int, minInterval: int): int -> int {
    (id: int) => if Outcome(targets(id), matches, now, minInterval).Found?
                 then |PendingFor(targets(id), matches, now, minInterval).remove| else 0
  }

  ghost function Checks(targets: int -> Target, matches: Matcher, now: int, minInterval: int): int -> Check {
    (id: int) => Outcome(targets(id), matches, now, minInterval)
  }

  /** The totals of the scan are the pending changes of the channels it visited whose check
      ran, and the failed list holds the others that were due. */
  lemma TotalsAreDetected(visited: seq<int>, targets: int -> Target, matches: Matcher, now: int, minInterval: int)
    ensures var t := TallyAll(ZERO, visited, Checks(targets, matches, now, minInterval));
            && t.adds == Sum(visited, Additions(targets, matches, now, minInterval))
            && t.removes == Sum(visited, Removals(targets, matches, now, minInterval))
            && (forall id :: id in t.failed <==> id in visited && Outcome(targets(id), matches, now, minInterval) == Check.Failed)
  {
    hide Outcome, PendingFor, Sum, TallyAll;
    var check := Checks(targets, matches, now, minInterval);
    TotalsAreSums(visited, check);
    forall id | id in visited
      ensures AddsOf(check)(id) == Additions(targets, matches, now, minInterval)(id)
      ensures RemovesOf(check)(id) == Removals(targets, matches, now, minInterval)(id)
    {
      OutcomeIsPending(targets(id), matches, now, minInterval);
    }
    SumSame(visited, AddsOf(check), Additions(targets, matches, now, minInterval));
    SumSame(visited, RemovesOf(check), Removals(targets, matches, now, minInterval));
  }
}
