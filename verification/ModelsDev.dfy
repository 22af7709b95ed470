/** Converting a models.dev price list into local ratios: for every model the cheapest
    non-zero provider is selected with a comparison that treats prices less than 1e-9
    apart as equal, and its costs are turned into rounded ratios. Amounts are reals. */
module ModelsDev {
  import opened Approximate
  import opened Wrappers

  const USD := 500.0
  const INPUT_COST_RATIO_BASE := 1000.0

  /** Costs as published; a missing field is None. */
  datatype Cost = Cost(input: Option<real>, output: Option<real>, cacheRead: Option<real>)

  datatype Candidate = Candidate(provider: string, input: real, output: Option<real>, cacheRead: Option<real>)

  type Prices = map<string, map<string, Cost>>

  // ----- Comparing -----

  /** Go's string order. */
  predicate Less(a: string, b: string) {
    if b == "" then false
    else if a == "" then true
    else if a[0] != b[0] then a[0] < b[0]
    else Less(a[1..], b[1..])
  }

  lemma {:induction false} LessOrder(a: string, b: string)
    ensures Less(a, b) ==> !Less(b, a) && a != b
    ensures a != b ==> Less(a, b) || Less(b, a)
  {
    if a != "" && b != "" && a[0] == b[0] {
      LessOrder(a[1..], b[1..]);
      assert a == [a[0]] + a[1..] && b == [b[0]] + b[1..];
    }
  }

  /** The order of a dictionary: at the first difference the smaller character comes first,
      and a beginning comes before what it begins. */
  lemma {:induction false} LessIff(a: string, b: string)
    ensures Less(a, b) <==>
              || (a <= b && a != b)
              || exists i :: 0 <= i < |a| && i < |b| && a[..i] == b[..i] && a[i] < b[i]
  {
    if a != "" && b != "" {
      if a[0] == b[0] {
        LessIff(a[1..], b[1..]);
        assert a == [a[0]] + a[1..] && b == [b[0]] + b[1..];
        if i :| 0 <= i < |a[1..]| && i < |b[1..]| && a[1..][..i] == b[1..][..i] && a[1..][i] < b[1..][i] {
          assert a[..i + 1] == [a[0]] + a[1..][..i] && b[..i + 1] == [b[0]] + b[1..][..i];
          assert a[..i + 1] == b[..i + 1] && a[i + 1] < b[i + 1];
        }
        if i :| 0 <= i < |a| && i < |b| && a[..i] == b[..i] && a[i] < b[i] {
          assert a[1..][..i - 1] == a[..i][1..] && b[1..][..i - 1] == b[..i][1..];
          assert a[1..][..i - 1] == b[1..][..i - 1] && a[1..][i - 1] < b[1..][i - 1];
        }
      } else {
        assert a[..0] == b[..0];
        assert forall i :: 0 < i < |a| && i < |b| ==> a[..i][0] != b[..i][0];
      }
    }
  }

  // ----- Candidates -----

  predicate Valid(v: real) {
    v >= 0.0
  }

  function BuildCandidate(provider: string, cost: Cost): (c: Option<Candidate>)
    ensures c.None? <==> || cost.input.None? || cost.input.value < 0.0
                         || (cost.output.Some? && (cost.output.value < 0.0 || cost.input.value == 0.0 < cost.output.value))
    ensures c.Some? ==> c.value.provider == provider && Some(c.value.input) == cost.input && c.value.output == cost.output
    ensures c.Some? ==> c.value.cacheRead == if cost.cacheRead.Some? && cost.cacheRead.value >= 0.0 then cost.cacheRead else None
  {
    if cost.input.None? || !Valid(cost.input.value) then None
    else if cost.output.Some? && !Valid(cost.output.value) then None
    else if cost.input.value == 0.0 && cost.output.Some? && cost.output.value > 0.0 then None
    else
      var cacheRead := if cost.cacheRead.Some? && Valid(cost.cacheRead.value) then cost.cacheRead else None;
      Some(Candidate(provider, cost.input.value, cost.output, cacheRead))
  }

  function ShouldReplace(current: Candidate, next: Candidate): (r: bool) {
    var currentNonZero, nextNonZero := current.input > 0.0, next.input > 0.0;
    if currentNonZero != nextNonZero then nextNonZero
    else if nextNonZero && !NearlyEqual(next.input, current.input) then next.input < current.input
    else Less(next.provider, current.provider)
  }

  /** What provider number `i` offers for a model. */
  function Offer(prices: Prices, providers: seq<string>, i: nat, model: string): (c: Option<Candidate>)
    requires i < |providers|
  {
    var p := providers[i];
    if p in prices && model in prices[p] then BuildCandidate(p, prices[p][model]) else None
  }

  function Better(current: Option<Candidate>, next: Option<Candidate>): (c: Option<Candidate>) {
    if next.None? then current
    else if current.None? || ShouldReplace(current.value, next.value) then next
    else current
  }

  /** The candidate selected for a model after the first `n` providers. */
  function Selected(prices: Prices, providers: seq<string>, n: nat, model: string): (c: Option<Candidate>)
    requires n <= |providers|
  {
    if n == 0 then None
    else Better(Selected(prices, providers, n - 1, model), Offer(prices, providers, n - 1, model))
  }

  // ----- The scan -----

  /** What sort.Strings makes of the provider names: strictly ascending. */
  ghost predicate Ascending(l: seq<string>) {
    forall i, j :: 0 <= i < j < |l| ==> Less(l[i], l[j])
  }

  lemma HeadNotInTail(l: seq<string>)
    requires l != [] && Ascending(l)
    ensures l[0] !in l[1..]
  {
    if l[0] in l[1..] {
      var i :| 0 <= i < |l[1..]| && l[1..][i] == l[0];
      assert l[i + 1] == l[0] && Less(l[0], l[i + 1]);
      LessOrder(l[0], l[i + 1]);
    }
  }

  lemma TailMembers(a: seq<string>, b: seq<string>)
    requires a != [] && b != [] && a[0] == b[0]
    requires Ascending(a) && Ascending(b) && (forall p :: p in a <==> p in b)
    ensures forall p :: p in a[1..] <==> p in b[1..]
  {
    HeadNotInTail(a);
    HeadNotInTail(b);
    assert forall p :: p in a <==> p == a[0] || p in a[1..];
    assert forall p :: p in b <==> p == b[0] || p in b[1..];
  }

  /** The sorted list of a set of names is unique: however a map is iterated, sorting its
      keys gives the same list, so the conversion does not depend on iteration order. */
  lemma {:induction false} SortedUnique(a: seq<string>, b: seq<string>)
    requires Ascending(a) && Ascending(b) && (forall p :: p in a <==> p in b)
    ensures a == b
    decreases |a|
  {
    assert a == [] || a[0] in a;
    assert b == [] || b[0] in b;
    if a != [] {
      var j :| 0 <= j < |b| && b[j] == a[0];
      var i :| 0 <= i < |a| && a[i] == b[0];
      LessOrder(a[0], b[0]);
      assert a[0] == b[0];
      assert forall p :: p in a[1..] <==> p in b[1..] by { TailMembers(a, b); }
      assert Ascending(a[1..]) && Ascending(b[1..]);
      SortedUnique(a[1..], b[1..]);
      assert a == [a[0]] + a[1..] && b == [b[0]] + b[1..];
    }
  }

  function Lookup(selected: map<string, Candidate>, m: string): (c: Option<Candidate>) {
    if m in selected then Some(selected[m]) else None
  }

  /** The map holds exactly the selections after the first `n` providers. */
  ghost predicate Holds(selected: map<string, Candidate>, prices: Prices, providers: seq<string>, n: nat)
    requires n <= |providers|
  {
    forall m :: Selected(prices, providers, n, m) == Lookup(selected, m)
  }

  /** One provider's models, in any order. */
  method OfferAll(prices: Prices, providers: seq<string>, i: nat, before: map<string, Candidate>)
    returns (selected: map<string, Candidate>)
    requires i < |providers| && providers[i] in prices && Holds(before, prices, providers, i)
    ensures Holds(selected, prices, providers, i + 1)
  {
    hide BuildCandidate, ShouldReplace;
    var provider, models := providers[i], prices[providers[i]];
    selected := before;
    var todo := models.Keys;
    while todo != {}
      invariant todo <= models.Keys
      invariant forall m :: m in todo || m !in models ==> Lookup(selected, m) == Lookup(before, m)
      invariant forall m :: m in models && m !in todo ==>
                  Lookup(selected, m) == Better(Lookup(before, m), BuildCandidate(provider, models[m]))
      decreases todo
    {
      var m :| m in todo;
      var candidate := BuildCandidate(provider, models[m]);
      assert Lookup(selected, m) == Lookup(before, m);
      if candidate.Some? {
        if m !in selected || ShouldReplace(selected[m], candidate.value) {
          selected := selected[m := candidate.value];
        }
      }
      todo := todo - {m};
    }
  }

  method SelectAll(prices: Prices, providers: seq<string>) returns (selected: map<string, Candidate>)
    requires forall p :: p in providers ==> p in prices
    ensures Holds(selected, prices, providers, |providers|)
  {
    selected := map[];
    for i := 0 to |providers|
      invariant Holds(selected, prices, providers, i)
    {
      assert providers[i] in providers;
      selected := OfferAll(prices, providers, i, selected);
    }
  }

  // ----- The selection does not drift -----

  ghost predicate Offered(prices: Prices, providers: seq<string>, n: nat, model: string, i: nat)
    requires n <= |providers|
  {
    i < n && Offer(prices, providers, i, model).Some?
  }

  lemma {:induction false} SelectedIsOffered(prices: Prices, providers: seq<string>, n: nat, model: string) returns (i: nat)
    requires n <= |providers| && Selected(prices, providers, n, model).Some?
    ensures Offered(prices, providers, n, model, i)
    ensures Selected(prices, providers, n, model) == Offer(prices, providers, i, model)
  {
    if Selected(prices, providers, n, model) == Offer(prices, providers, n - 1, model) {
      i := n - 1;
    } else {
      i := SelectedIsOffered(prices, providers, n - 1, model);
    }
  }

  /** In ascending provider order the tie-breaker never fires. */
  lemma NoTieBreak(prices: Prices, providers: seq<string>, n: nat, model: string)
    requires Ascending(providers) && n < |providers|
    requires Selected(prices, providers, n, model).Some? && Offer(prices, providers, n, model).Some?
    ensures !Less(Offer(prices, providers, n, model).value.provider, Selected(prices, providers, n, model).value.provider)
  {
    var i := SelectedIsOffered(prices, providers, n, model);
    LessOrder(providers[i], providers[n]);
  }

  /** Although the comparison is not transitive, the selected price is non-zero as soon as
      some offer is, and then less than 1e-9 above every non-zero offer. */
  lemma {:induction false} SelectionDoesNotDrift(prices: Prices, providers: seq<string>, n: nat, model: string, i: nat)
    requires Ascending(providers) && n <= |providers| && Offered(prices, providers, n, model, i)
    ensures Selected(prices, providers, n, model).Some?
    ensures var s, o := Selected(prices, providers, n, model).value, Offer(prices, providers, i, model).value;
            o.input > 0.0 ==> s.input > 0.0 && s.input < o.input + 0.000000001
  {
    var next := Offer(prices, providers, n - 1, model);
    if i < n - 1 {
      SelectionDoesNotDrift(prices, providers, n - 1, model, i);
      if next.Some? { NoTieBreak(prices, providers, n - 1, model); }
    } else if Selected(prices, providers, n - 1, model).Some? {
      NoTieBreak(prices, providers, n - 1, model);
    }
  }

  /** A model ends up free exactly when every offer for it is free. */
  lemma FreeIff(prices: Prices, providers: seq<string>, n: nat, model: string)
    requires Ascending(providers) && n <= |providers| && Selected(prices, providers, n, model).Some?
    ensures Selected(prices, providers, n, model).value.input == 0.0 <==>
              forall i: nat :: Offered(prices, providers, n, model, i) ==> Offer(prices, providers, i, model).value.input == 0.0
  {
    var s := SelectedIsOffered(prices, providers, n, model);
    forall i: nat | Offered(prices, providers, n, model, i)
      ensures Selected(prices, providers, n, model).value.input == 0.0 ==> Offer(prices, providers, i, model).value.input == 0.0
    {
      SelectionDoesNotDrift(prices, providers, n, model, i);
    }
  }

  /** Provider `i` sorts before provider `i - 1` and is dearer by less than 1e-9. */
  ghost predicate Climbs(prices: Prices, providers: seq<string>, model: string, i: nat)
    requires 0 < i < |providers|
  {
    var low, high := Offer(prices, providers, i - 1, model), Offer(prices, providers, i, model);
    && Less(providers[i], providers[i - 1])
    && low.Some? && high.Some?
    && 0.0 < low.value.input < high.value.input < low.value.input + EPSILON
  }

  /** The order matters: were the providers visited in descending order, the tie-breaker
      would follow a chain of offers, each less than 1e-9 dearer, to its dearest end. */
  lemma {:induction false} DriftsWithoutOrder(prices: Prices, providers: seq<string>, n: nat, model: string)
    requires 0 < n < |providers|
    requires forall i :: 0 < i <= n ==> Climbs(prices, providers, model, i)
    ensures Selected(prices, providers, n + 1, model) == Offer(prices, providers, n, model)
  {
    assert Climbs(prices, providers, model, n);
    if n > 1 {
      DriftsWithoutOrder(prices, providers, n - 1, model);
    } else {
      assert Selected(prices, providers, 0, model) == None;
      assert Selected(prices, providers, 1, model) == Offer(prices, providers, 0, model);
    }
  }

  // ----- Ratios -----

  /** math.Round(v * 1e6) / 1e6, halves away from zero. */
  function RoundRatio(v: real): (r: real) {
    var scaled := v * 1000000.0;
    var rounded := if scaled >= 0.0 then (scaled + 0.5).Floor else -((-scaled + 0.5).Floor);
    rounded as real / 1000000.0
  }

  lemma RoundRatioBound(v: real)
    ensures -0.0000005 <= RoundRatio(v) - v <= 0.0000005
    ensures v >= 0.0 ==> RoundRatio(v) >= 0.0
  {
    var scaled := v * 1000000.0;
    var rounded := if scaled >= 0.0 then (scaled + 0.5).Floor else -((-scaled + 0.5).Floor);
    assert -0.5 <= rounded as real - scaled <= 0.5;
    assert RoundRatio(v) - v == (rounded as real - scaled) / 1000000.0;
  }

  datatype Ratios = Ratios(model: map<string, real>, completion: map<string, real>, cache: map<string, real>)

  datatype Result = Converted(ratios: Ratios) | Empty | NoEntries

  function ModelRatio(c: Candidate): (r: real) {
    if c.input == 0.0 then 0.0 else RoundRatio(c.input * USD / INPUT_COST_RATIO_BASE)
  }

  /** A non-zero cost is published as free exactly below one millionth of a dollar. */
  lemma RoundsToZeroIff(c: Candidate)
    requires c.input > 0.0
    ensures ModelRatio(c) == 0.0 <==> c.input < 0.000001
  {
    var scaled := c.input * USD / INPUT_COST_RATIO_BASE * 1000000.0;
    assert scaled == c.input * 500000.0;
    var rounded := (scaled + 0.5).Floor;
    assert ModelRatio(c) == rounded as real / 1000000.0;
    assert rounded == 0 <==> scaled < 0.5;
  }

  ghost predicate Emits(r: Ratios, m: string, c: Candidate) {
    && m in r.model && r.model[m] == ModelRatio(c)
    && (m in r.completion <==> c.input != 0.0 && c.output.Some?)
    && (m in r.completion && c.input != 0.0 && c.output.Some? ==> r.completion[m] == RoundRatio(c.output.value / c.input))
    && (m in r.cache <==> c.input != 0.0 && c.cacheRead.Some?)
    && (m in r.cache && c.input != 0.0 && c.cacheRead.Some? ==> r.cache[m] == RoundRatio(c.cacheRead.value / c.input))
  }

  /** What the published ratios mean: half the input cost, and the output and cache costs as
      multiples of it, each within half a millionth; a free model has no such multiples. */
  lemma EmittedRatios(r: Ratios, m: string, c: Candidate)
    requires Emits(r, m, c) && c.input >= 0.0
    ensures m in r.model
    ensures c.input == 0.0 ==> r.model[m] == 0.0 && m !in r.completion && m !in r.cache
    ensures c.input > 0.0 ==> -0.0000005 <= r.model[m] - c.input / 2.0 <= 0.0000005
    ensures c.input > 0.0 ==> (m in r.completion <==> c.output.Some?) && (m in r.cache <==> c.cacheRead.Some?)
    ensures c.input > 0.0 && c.output.Some? ==> -0.0000005 <= r.completion[m] - c.output.value / c.input <= 0.0000005
    ensures c.input > 0.0 && c.cacheRead.Some? ==> -0.0000005 <= r.cache[m] - c.cacheRead.value / c.input <= 0.0000005
  {
    hide RoundRatio;
    if c.input > 0.0 {
      assert c.input * USD / INPUT_COST_RATIO_BASE == c.input / 2.0;
      RoundRatioBound(c.input / 2.0);
      if c.output.Some? { RoundRatioBound(c.output.value / c.input); }
      if c.cacheRead.Some? { RoundRatioBound(c.cacheRead.value / c.input); }
    }
  }

  /** Turning the selected candidates into the three ratio maps. */
  method EmitRatios(selected: map<string, Candidate>) returns (r: Ratios)
    ensures forall m :: m in selected ==> Emits(r, m, selected[m])
    ensures r.model.Keys == selected.Keys && r.completion.Keys <= selected.Keys && r.cache.Keys <= selected.Keys
  {
    hide RoundRatio;
    r := Ratios(map[], map[], map[]);
    var todo := selected.Keys;
    while todo != {}
      invariant todo <= selected.Keys && r.model.Keys == selected.Keys - todo
      invariant r.completion.Keys <= r.model.Keys && r.cache.Keys <= r.model.Keys
      invariant forall m :: m in selected && m !in todo ==> Emits(r, m, selected[m])
      decreases todo
    {
      var m :| m in todo;
      var c := selected[m];
      todo := todo - {m};
      if c.input == 0.0 {
        r := r.(model := r.model[m := 0.0]);
        continue;
      }
      r := r.(model := r.model[m := RoundRatio(c.input * USD / INPUT_COST_RATIO_BASE)]);
      if c.output.Some? {
        r := r.(completion := r.completion[m := RoundRatio(c.output.value / c.input)]);
      }
      if c.cacheRead.Some? {
        r := r.(cache := r.cache[m := RoundRatio(c.cacheRead.value / c.input)]);
      }
    }
  }

  /** convertModelsDevToRatioData on decoded data; `providers` is the sorted key list. */
  method Convert(prices: Prices, providers: seq<string>) returns (result: Result)
    requires Ascending(providers) && forall p :: p in providers <==> p in prices
    ensures result.Empty? <==> prices == map[]
    ensures result.NoEntries? <==> prices != map[] && forall m :: Selected(prices, providers, |providers|, m).None?
    ensures result.Converted? ==> forall m :: m in result.ratios.model <==> Selected(prices, providers, |providers|, m).Some?
    ensures result.Converted? ==> forall m :: m in result.ratios.model ==>
              Emits(result.ratios, m, Selected(prices, providers, |providers|, m).value)
    ensures result.Converted? ==> result.ratios.completion.Keys <= result.ratios.model.Keys
    ensures result.Converted? ==> result.ratios.cache.Keys <= result.ratios.model.Keys
  {
    hide ModelRatio, Emits, Selected;
    if |prices| == 0 {
      return Empty;
    }
    var selected := SelectAll(prices, providers);
    if |selected| == 0 {
      return NoEntries;
    }
    var m :| m in selected;
    assert Selected(prices, providers, |providers|, m) == Lookup(selected, m);
    var ratios := EmitRatios(selected);
    return Converted(ratios);
  }

  /** The emitted ratio is half the cheapest non-zero input cost, up to the epsilon of the
      comparison and the rounding. */
  lemma RatioNearCheapest(prices: Prices, providers: seq<string>, model: string, cheapest: nat)
    requires Ascending(providers) && Offered(prices, providers, |providers|, model, cheapest)
    requires Offer(prices, providers, cheapest, model).value.input > 0.0
    requires forall i :: Offered(prices, providers, |providers|, model, i) && Offer(prices, providers, i, model).value.input > 0.0 ==>
               Offer(prices, providers, cheapest, model).value.input <= Offer(prices, providers, i, model).value.input
    ensures Selected(prices, providers, |providers|, model).Some?
    ensures var low := Offer(prices, providers, cheapest, model).value.input;
            var r := ModelRatio(Selected(prices, providers, |providers|, model).value);
            low / 2.0 - 0.0000005 <= r < (low + 0.000000001) / 2.0 + 0.0000005
  {
    SelectionDoesNotDrift(prices, providers, |providers|, model, cheapest);
    var s := Selected(prices, providers, |providers|, model).value;
    var i := SelectedIsOffered(prices, providers, |providers|, model);
    assert s.input * USD / INPUT_COST_RATIO_BASE == s.input / 2.0;
    RoundRatioBound(s.input / 2.0);
  }
}
