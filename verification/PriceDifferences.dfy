/** Comparing the local prices with those of several upstream channels: which (model, field)
    entries are reported as different, what each entry lists per channel, and which channels
    are listed at all. Values are null, numbers (reals) or strings; Go's nil is Null. */
module PriceDifferences {
  import opened Approximate
  import opened Wrappers

  const FIELDS := [
    "model_ratio", "completion_ratio", "cache_ratio", "create_cache_ratio", "image_ratio",
    "audio_ratio", "audio_completion_ratio", "model_price", "billing_mode", "billing_expr"
  ]

  datatype Value = Null | Num(n: real) | Str(s: string)

  /** What an entry shows for a channel that agrees with the local value. */
  const SAME := Str("same")

  type Data = map<string, map<string, Value>>
  type Row = map<string, Item>
  type Differences = map<string, Row>

  datatype Channel = Channel(name: string, data: Data)

  datatype Item = Item(current: Value, upstreams: map<string, Value>, confidence: map<string, bool>)

  // ----- One cell -----

  function ValueMap(data: Data, field: string): (values: map<string, Value>) {
    if field in data then data[field] else map[]
  }

  function Get(data: Data, field: string, model: string): (v: Option<Value>) {
    if model in ValueMap(data, field) then Some(ValueMap(data, field)[model]) else None
  }

  predicate ValuesEqual(a: Value, b: Value) {
    if a.Num? && b.Num? then NearlyEqual(a.n, b.n) else a == b
  }

  function Local(local: Data, field: string, model: string): (v: Value) {
    match Get(local, field, model)
    case None => Null
    case Some(v) => v
  }

  /** The channel has a value that is not equal to the local one. */
  predicate Differs(current: Value, upstream: Option<Value>) {
    upstream.Some? && !ValuesEqual(current, upstream.value)
  }

  /** A difference a reader can see: the value is neither null nor the word "same". */
  predicate Shows(current: Value, upstream: Option<Value>) {
    Differs(current, upstream) && upstream.value != Null && upstream.value != SAME
  }

  /** What the entry lists for a channel. */
  function Cell(current: Value, upstream: Option<Value>): (v: Value) {
    if Differs(current, upstream) then upstream.value
    else if upstream.Some? || current == Null then SAME
    else Null
  }

  /** The body of the loop over the channels, for one channel. */
  method CompareCell(current: Value, upstream: Option<Value>) returns (v: Value, difference: bool)
    ensures v == Cell(current, upstream)
    ensures current != Null ==> difference == Differs(current, upstream)
  {
    v, difference := Null, false;
    if upstream.Some? {
      v := upstream.value;
      if current != Null && !ValuesEqual(current, v) {
        difference := true;
      } else if ValuesEqual(current, v) {
        v := SAME;
      }
    }
    if v == Null && current == Null {
      v := SAME;
    }
    if current == Null && v != Null && v != SAME {
      difference := true;
    }
  }

  // ----- What a difference is -----

  ghost predicate HasValue(data: Data, field: string, model: string) {
    field in data && model in data[field]
  }

  /** The channel has a value where there is none locally, or it is a number at least 1e-9
      away from the local one, another string, or a value of another kind. */
  ghost predicate Apart(local: Data, data: Data, field: string, model: string) {
    && HasValue(data, field, model)
    && var b := data[field][model];
       if !HasValue(local, field, model) then b != Null
       else
         match local[field][model]
         case Num(x) => b.Num? ==> x - b.n >= 0.000000001 || b.n - x >= 0.000000001
         case Str(x) => b.Str? ==> b.s != x
         case Null => b != Null
  }

  lemma DiffersIffApart(local: Data, data: Data, field: string, model: string)
    ensures Differs(Local(local, field, model), Get(data, field, model)) <==> Apart(local, data, field, model)
  {
  }

  /** What a reader finds in a cell: the channel's value when it differs, the word "same" when
      it does not or when neither side has one, and null when only the local side has one. */
  lemma CellMeans(local: Data, data: Data, field: string, model: string)
    ensures var cell := Cell(Local(local, field, model), Get(data, field, model));
            && (Apart(local, data, field, model) ==> cell == data[field][model])
            && (HasValue(data, field, model) && !Apart(local, data, field, model) ==> cell == Str("same"))
            && (!HasValue(data, field, model) ==>
                  cell == if HasValue(local, field, model) && local[field][model] != Null then Null else Str("same"))
  {
    DiffersIffApart(local, data, field, model);
  }

  // ----- Channels by name -----

  /** The names of the first `n` channels. */
  function Names(channels: seq<Channel>, n: nat): (names: set<string>)
    requires n <= |channels|
  {
    if n == 0 then {} else Names(channels, n - 1) + {channels[n - 1].name}
  }

  lemma {:induction false} NamesAt(channels: seq<Channel>, n: nat, i: nat)
    requires i < n <= |channels|
    ensures channels[i].name in Names(channels, n)
  {
    if i < n - 1 { NamesAt(channels, n - 1, i); }
  }

  /** The channel that speaks for a name: when names repeat, the last one. */
  function Latest(channels: seq<Channel>, n: nat, name: string): (c: Channel)
    requires n <= |channels| && name in Names(channels, n)
    ensures c in channels && c.name == name
  {
    if channels[n - 1].name == name then channels[n - 1] else Latest(channels, n - 1, name)
  }

  // ----- The models -----

  /** Some field of the data has a value for the model. */
  ghost predicate Mentions(data: Data, model: string) {
    exists f :: f in FIELDS && Get(data, f, model).Some?
  }

  ghost predicate Mentioned(local: Data, channels: seq<Channel>, model: string) {
    Mentions(local, model) || exists i :: 0 <= i < |channels| && Mentions(channels[i].data, model)
  }

  method ModelsOf(data: Data) returns (models: set<string>)
    ensures forall m :: m in models <==> Mentions(data, m)
  {
    models := {};
    for i := 0 to |FIELDS|
      invariant forall m :: m in models <==> exists k :: 0 <= k < i && Get(data, FIELDS[k], m).Some?
    {
      models := models + ValueMap(data, FIELDS[i]).Keys;
    }
    forall m ensures m in models <==> Mentions(data, m) {
      if Mentions(data, m) {
        var f :| f in FIELDS && Get(data, f, m).Some?;
        var k :| 0 <= k < |FIELDS| && FIELDS[k] == f;
      }
    }
  }

  method AllModels(local: Data, channels: seq<Channel>) returns (models: set<string>)
    ensures forall m :: m in models <==> Mentioned(local, channels, m)
  {
    hide Mentions;
    models := ModelsOf(local);
    for i := 0 to |channels|
      invariant forall m :: m in models <==> Mentions(local, m) || exists k :: 0 <= k < i && Mentions(channels[k].data, m)
    {
      var more := ModelsOf(channels[i].data);
      models := models + more;
    }
  }

  // ----- Confidence -----

  predicate IsNear(v: Option<Value>, n: real) {
    v.Some? && v.value.Num? && NearlyEqual(v.value.n, n)
  }

  /** A channel's prices for a model are taken as placeholders when they are the defaults
      of the pricing endpoint, 37.5 and 1. */
  predicate Trusted(data: Data, model: string) {
    !(IsNear(Get(data, "model_ratio", model), 37.5) && IsNear(Get(data, "completion_ratio", model), 1.0))
  }

  /** The default prices of the pricing endpoint: ratios within 1e-9 of 37.5 and 1. */
  ghost predicate Placeholder(data: Data, model: string) {
    && HasValue(data, "model_ratio", model) && HasValue(data, "completion_ratio", model)
    && match (data["model_ratio"][model], data["completion_ratio"][model])
       case (Num(r), Num(c)) => 37.499999999 < r < 37.500000001 && 0.999999999 < c < 1.000000001
       case _ => false
  }

  lemma TrustedIff(data: Data, model: string)
    ensures Trusted(data, model) <==> !Placeholder(data, model)
  {
  }

  /** The pass over one channel; the separate branch for a channel without both ratio maps
      never changes the outcome. */
  method Confidence(data: Data, models: set<string>) returns (confidence: map<string, bool>)
    ensures confidence.Keys == models && forall m :: m in models ==> confidence[m] == Trusted(data, m)
    ensures forall m :: m in models ==> (confidence[m] <==> !Placeholder(data, m))
  {
    hide Placeholder;
    var ratios, completions := ValueMap(data, "model_ratio"), ValueMap(data, "completion_ratio");
    confidence := map[];
    var todo := models;
    while todo != {}
      invariant todo <= models && confidence.Keys == models - todo
      invariant forall m :: m in confidence ==> confidence[m] == Trusted(data, m)
      decreases todo
    {
      var m :| m in todo;
      todo := todo - {m};
      confidence := confidence[m := true];
      if |ratios| > 0 && |completions| > 0 {
        if m in ratios && m in completions {
          var ratio, completion := ratios[m], completions[m];
          if ratio.Num? && completion.Num? && NearlyEqual(ratio.n, 37.5) && NearlyEqual(completion.n, 1.0) {
            confidence := confidence[m := false];
          }
        }
      }
    }
    forall m | m in models ensures Trusted(data, m) <==> !Placeholder(data, m) { TrustedIff(data, m); }
  }

  /** Confidence in a model by channel name; a repeated name keeps its last channel's. */
  function Trusts(channels: seq<Channel>, n: nat, model: string): (trusts: map<string, bool>)
    requires n <= |channels|
    ensures trusts.Keys == Names(channels, n)
  {
    if n == 0 then map[] else Trusts(channels, n - 1, model)[channels[n - 1].name := Trusted(channels[n - 1].data, model)]
  }

  ghost predicate Confident(confidence: map<string, map<string, bool>>, channels: seq<Channel>, n: nat, model: string)
    requires n <= |channels|
  {
    && confidence.Keys == Names(channels, n)
    && (forall name :: name in confidence ==> model in confidence[name])
    && (forall name :: name in confidence ==> confidence[name][model] == Trusts(channels, n, model)[name])
  }

  lemma NothingConfident(channels: seq<Channel>, model: string)
    ensures Confident(map[], channels, 0, model)
  {
  }

  /** The row was copied, name by name, from the confidence map. */
  ghost predicate Copied(trusted: map<string, bool>, confidence: map<string, map<string, bool>>, model: string) {
    forall name :: name in trusted ==> name in confidence && model in confidence[name] && trusted[name] == confidence[name][model]
  }

  lemma NothingCopied(confidence: map<string, map<string, bool>>, model: string)
    ensures Copied(map[], confidence, model)
  {
  }

  lemma CopyStep(trusted: map<string, bool>, confidence: map<string, map<string, bool>>, channels: seq<Channel>, i: nat, model: string)
    requires i < |channels| && Confident(confidence, channels, |channels|, model) && Copied(trusted, confidence, model)
    ensures channels[i].name in confidence && model in confidence[channels[i].name]
    ensures Copied(trusted[channels[i].name := confidence[channels[i].name][model]], confidence, model)
  {
    hide Trusts, Names;
    NamesAt(channels, |channels|, i);
  }

  lemma CopiedAll(trusted: map<string, bool>, confidence: map<string, map<string, bool>>, channels: seq<Channel>, model: string)
    requires Confident(confidence, channels, |channels|, model) && Copied(trusted, confidence, model)
    requires trusted.Keys == Names(channels, |channels|)
    ensures trusted == Trusts(channels, |channels|, model)
  {
  }

  lemma ConfidentStep(confidence: map<string, map<string, bool>>, channels: seq<Channel>, i: nat, model: string, row: map<string, bool>)
    requires i < |channels| && Confident(confidence, channels, i, model)
    requires model in row && row[model] == Trusted(channels[i].data, model)
    ensures Confident(confidence[channels[i].name := row], channels, i + 1, model)
  {
    hide Trusted;
  }

  method ConfidenceMap(channels: seq<Channel>, models: set<string>) returns (confidence: map<string, map<string, bool>>)
    ensures confidence.Keys == Names(channels, |channels|)
    ensures forall m :: m in models ==> Confident(confidence, channels, |channels|, m)
  {
    hide Trusted, Confident, Trusts;
    confidence := map[];
    forall m | m in models ensures Confident(confidence, channels, 0, m) {
      assert Confident(map[], channels, 0, m) by { NothingConfident(channels, m); }
    }
    for i := 0 to |channels|
      invariant confidence.Keys == Names(channels, i)
      invariant forall m :: m in models ==> Confident(confidence, channels, i, m)
    {
      var row := Confidence(channels[i].data, models);
      var next := confidence[channels[i].name := row];
      forall m | m in models ensures Confident(next, channels, i + 1, m) {
        ConfidentStep(confidence, channels, i, m, row);
      }
      confidence := next;
    }
  }

  // ----- One entry -----

  predicate AnyValue(channels: seq<Channel>, n: nat, model: string, field: string)
    requires n <= |channels|
  {
    n > 0 && (AnyValue(channels, n - 1, model, field) || Get(channels[n - 1].data, field, model).Some?)
  }

  predicate AnyDiffers(current: Value, channels: seq<Channel>, n: nat, model: string, field: string)
    requires n <= |channels|
  {
    n > 0 && (AnyDiffers(current, channels, n - 1, model, field) || Differs(current, Get(channels[n - 1].data, field, model)))
  }

  /** The entry enters the first draft: against a local value some channel differs; without
      one some channel has a value. */
  predicate Drafted(local: Data, channels: seq<Channel>, model: string, field: string) {
    var current := Local(local, field, model);
    if current != Null then AnyDiffers(current, channels, |channels|, model, field) else AnyValue(channels, |channels|, model, field)
  }

  /** The cells of the entry by channel name; a repeated name keeps its last channel's. */
  function Cells(local: Data, channels: seq<Channel>, n: nat, model: string, field: string): (cells: map<string, Value>)
    requires n <= |channels|
    ensures cells.Keys == Names(channels, n)
  {
    if n == 0 then map[]
    else Cells(local, channels, n - 1, model, field)
         [channels[n - 1].name := Cell(Local(local, field, model), Get(channels[n - 1].data, field, model))]
  }

  /** The drafted entry: every channel name with its cell and its confidence. */
  function Draft(local: Data, channels: seq<Channel>, model: string, field: string): (item: Item) {
    Item(Local(local, field, model), Cells(local, channels, |channels|, model, field), Trusts(channels, |channels|, model))
  }

  lemma CellsStep(local: Data, channels: seq<Channel>, i: nat, model: string, field: string)
    requires i < |channels|
    ensures Cells(local, channels, i + 1, model, field)
         == Cells(local, channels, i, model, field)
            [channels[i].name := Cell(Local(local, field, model), Get(channels[i].data, field, model))]
    ensures Names(channels, i + 1) == Names(channels, i) + {channels[i].name}
  {
  }

  method CompareField(local: Data, channels: seq<Channel>, confidence: map<string, map<string, bool>>, model: string, field: string)
    returns (item: Option<Item>)
    requires Confident(confidence, channels, |channels|, model)
    ensures item.Some? <==> Drafted(local, channels, model, field)
    ensures item.Some? ==> item.value == Draft(local, channels, model, field)
  {
    hide Differs, Get, Confident, Trusts, Copied, Cell, Local;
    var current := Local(local, field, model);
    var upstreams: map<string, Value>, trusted: map<string, bool> := map[], map[];
    var hasValue, hasDifference := false, false;
    NothingCopied(confidence, model);
    assert Cells(local, channels, 0, model, field) == map[];
    hide Cells, Names;
    for i := 0 to |channels|
      invariant upstreams == Cells(local, channels, i, model, field)
      invariant trusted.Keys == Names(channels, i) && Copied(trusted, confidence, model)
      invariant hasValue == AnyValue(channels, i, model, field)
      invariant current != Null ==> hasDifference == AnyDiffers(current, channels, i, model, field)
    {
      var upstream := Get(channels[i].data, field, model);
      var v, difference := CompareCell(current, upstream);
      hasValue := hasValue || upstream.Some?;
      hasDifference := hasDifference || difference;
      CellsStep(local, channels, i, model, field);
      upstreams := upstreams[channels[i].name := v];
      CopyStep(trusted, confidence, channels, i, model);
      trusted := trusted[channels[i].name := confidence[channels[i].name][model]];
    }
    if if current != Null then hasDifference else hasValue {
      CopiedAll(trusted, confidence, channels, model);
      item := Some(Item(current, upstreams, trusted));
    } else {
      item := None;
    }
  }

  // ----- The draft -----

  function RowAt(row: Row, field: string): (item: Option<Item>) {
    if field in row then Some(row[field]) else None
  }

  function Entry(d: Differences, model: string, field: string): (item: Option<Item>) {
    if model in d then RowAt(d[model], field) else None
  }

  /** No model is listed without an entry. */
  ghost predicate Compact(d: Differences) {
    forall m :: m in d ==> d[m] != map[]
  }

  function DraftEntry(local: Data, channels: seq<Channel>, model: string, field: string): (item: Option<Item>) {
    if field in FIELDS && Drafted(local, channels, model, field) then Some(Draft(local, channels, model, field)) else None
  }

  method CompareModel(local: Data, channels: seq<Channel>, confidence: map<string, map<string, bool>>, model: string)
    returns (row: Row)
    requires Confident(confidence, channels, |channels|, model)
    ensures forall f :: RowAt(row, f) == DraftEntry(local, channels, model, f)
  {
    hide Drafted, Draft, Confident;
    row := map[];
    for k := 0 to |FIELDS|
      invariant forall f :: f in FIELDS[..k] ==> RowAt(row, f) == DraftEntry(local, channels, model, f)
      invariant forall f :: f !in FIELDS[..k] ==> RowAt(row, f) == None
    {
      var field := FIELDS[k];
      assert FIELDS[..k + 1] == FIELDS[..k] + [field] && field in FIELDS;
      var item := CompareField(local, channels, confidence, model, field);
      if item.Some? {
        row := row[field := item.value];
      }
      assert RowAt(row, field) == DraftEntry(local, channels, model, field);
    }
    assert FIELDS[..|FIELDS|] == FIELDS;
  }

  lemma {:induction false} ValueMentions(local: Data, channels: seq<Channel>, n: nat, model: string, field: string)
    requires n <= |channels| && field in FIELDS && AnyValue(channels, n, model, field)
    ensures Mentioned(local, channels, model)
  {
    if Get(channels[n - 1].data, field, model).Some? {
      assert Mentions(channels[n - 1].data, model);
    } else {
      ValueMentions(local, channels, n - 1, model, field);
    }
  }

  /** Only models mentioned somewhere are drafted. */
  lemma DraftedIsMentioned(local: Data, channels: seq<Channel>, model: string, field: string)
    requires field in FIELDS && Drafted(local, channels, model, field)
    ensures Mentioned(local, channels, model)
  {
    if Local(local, field, model) == Null {
      ValueMentions(local, channels, |channels|, model, field);
    } else {
      assert Mentions(local, model);
    }
  }

  ghost predicate IsDraft(d: Differences, local: Data, channels: seq<Channel>) {
    Compact(d) && forall m, f :: Entry(d, m, f) == DraftEntry(local, channels, m, f)
  }

  lemma NotMentioned(local: Data, channels: seq<Channel>, model: string, field: string)
    requires !Mentioned(local, channels, model)
    ensures DraftEntry(local, channels, model, field) == None
  {
    if field in FIELDS && Drafted(local, channels, model, field) { DraftedIsMentioned(local, channels, model, field); }
  }

  method DraftAll(local: Data, channels: seq<Channel>) returns (d: Differences)
    ensures IsDraft(d, local, channels)
  {
    hide DraftEntry, Confident, Mentioned;
    var models := AllModels(local, channels);
    var confidence := ConfidenceMap(channels, models);
    d := map[];
    var todo := models;
    while todo != {}
      invariant todo <= models && d.Keys <= models - todo && Compact(d)
      invariant forall m, f :: m in models && m !in todo ==> Entry(d, m, f) == DraftEntry(local, channels, m, f)
      decreases todo
    {
      var m :| m in todo;
      todo := todo - {m};
      var row := CompareModel(local, channels, confidence, m);
      if row != map[] {
        d := d[m := row];
      } else {
        assert forall f :: RowAt(row, f) == None;
      }
    }
    forall m, f ensures Entry(d, m, f) == DraftEntry(local, channels, m, f) {
      if m !in models { NotMentioned(local, channels, m, f); }
    }
  }

  // ----- Pruning -----

  function Shown(item: Item): (names: set<string>) {
    set name | name in item.upstreams && item.upstreams[name] != Null && item.upstreams[name] != SAME
  }

  /** The draft shows a difference of the channel at this entry. */
  ghost predicate ShownAt(d: Differences, model: string, field: string, name: string) {
    Entry(d, model, field).Some? && name in Shown(Entry(d, model, field).value)
  }

  ghost predicate InRow(row: Row, name: string) {
    exists f :: f in row && name in Shown(row[f])
  }

  method ShownInRow(row: Row) returns (names: set<string>)
    ensures forall name :: name in names <==> InRow(row, name)
  {
    hide Shown;
    names := {};
    var todo := row.Keys;
    while todo != {}
      invariant todo <= row.Keys
      invariant forall name :: name in names <==> exists f :: f in row && f !in todo && name in Shown(row[f])
      decreases todo
    {
      var f :| f in todo;
      todo := todo - {f};
      names := names + Shown(row[f]);
    }
  }

  method ChannelsWithDifferences(d: Differences) returns (kept: set<string>)
    ensures forall name :: name in kept <==> exists m, f :: ShownAt(d, m, f, name)
  {
    hide Shown;
    kept := {};
    var todo := d.Keys;
    while todo != {}
      invariant todo <= d.Keys
      invariant forall name :: name in kept <==> exists m :: m in d && m !in todo && InRow(d[m], name)
      decreases todo
    {
      var m :| m in todo;
      todo := todo - {m};
      var more := ShownInRow(d[m]);
      kept := kept + more;
    }
    forall name ensures name in kept <==> exists m, f :: ShownAt(d, m, f, name) {
      if name in kept {
        var m :| m in d && InRow(d[m], name);
        var f :| f in d[m] && name in Shown(d[m][f]);
        assert ShownAt(d, m, f, name);
      }
      if m, f :| ShownAt(d, m, f, name) {
        assert InRow(d[m], name);
      }
    }
  }

  /** Dropping the channels that are not kept; an entry that then only says "same" goes. */
  function Prune(item: Item, kept: set<string>): (r: Option<Item>) {
    var upstreams := map name | name in item.upstreams && name in kept :: item.upstreams[name];
    var confidence := map name | name in item.confidence && (name in item.upstreams ==> name in kept) :: item.confidence[name];
    if forall name | name in upstreams :: upstreams[name] == SAME then None
    else Some(Item(item.current, upstreams, confidence))
  }

  function PruneEntry(item: Option<Item>, kept: set<string>): (r: Option<Item>) {
    if item.Some? then Prune(item.value, kept) else None
  }

  method PruneRow(row: Row, kept: set<string>) returns (r: Row)
    ensures forall f :: RowAt(r, f) == PruneEntry(RowAt(row, f), kept)
  {
    hide Prune;
    r := row;
    var todo := row.Keys;
    while todo != {}
      invariant todo <= row.Keys
      invariant forall f :: RowAt(r, f) == if f in todo then RowAt(row, f) else PruneEntry(RowAt(row, f), kept)
      decreases todo
    {
      var f :| f in todo;
      assert RowAt(r, f) == RowAt(row, f);
      todo := todo - {f};
      var item := Prune(row[f], kept);
      if item.None? {
        r := r - {f};
      } else {
        r := r[f := item.value];
      }
    }
  }

  lemma EmptyRow(row: Row, field: string)
    requires row == map[]
    ensures RowAt(row, field) == None
  {
  }

  method PruneAll(d: Differences, kept: set<string>) returns (r: Differences)
    requires Compact(d)
    ensures Compact(r) && forall m, f :: Entry(r, m, f) == PruneEntry(Entry(d, m, f), kept)
  {
    hide Prune, RowAt;
    r := d;
    var todo := d.Keys;
    while todo != {}
      invariant todo <= d.Keys && r.Keys <= d.Keys && Compact(r)
      invariant forall m :: m in todo ==> m in r && r[m] == d[m]
      invariant forall m, f :: m !in todo ==> Entry(r, m, f) == PruneEntry(Entry(d, m, f), kept)
      decreases todo
    {
      var m :| m in todo;
      todo := todo - {m};
      var row := PruneRow(d[m], kept);
      if row == map[] {
        r := r - {m};
        forall f ensures RowAt(row, f) == None { EmptyRow(row, f); }
      } else {
        r := r[m := row];
      }
    }
  }

  // ----- The report -----

  /** The channel name shows a difference at (model, field). */
  ghost predicate Visible(local: Data, channels: seq<Channel>, model: string, field: string, name: string) {
    && field in FIELDS && name in Names(channels, |channels|)
    && Shows(Local(local, field, model), Get(Latest(channels, |channels|, name).data, field, model))
  }

  /** The names that show a difference somewhere. */
  ghost function Listed(local: Data, channels: seq<Channel>): (names: set<string>) {
    set name | name in Names(channels, |channels|) && exists m, f :: Visible(local, channels, m, f, name)
  }

  /** What BuildDifferences returns at (model, field). */
  ghost function Report(local: Data, channels: seq<Channel>, model: string, field: string): (item: Option<Item>) {
    PruneEntry(DraftEntry(local, channels, model, field), Listed(local, channels))
  }

  lemma {:induction false} CellsAt(local: Data, channels: seq<Channel>, n: nat, model: string, field: string, name: string)
    requires n <= |channels| && name in Names(channels, n)
    ensures Cells(local, channels, n, model, field)[name]
         == Cell(Local(local, field, model), Get(Latest(channels, n, name).data, field, model))
  {
    hide Cell, Get, Local;
    if channels[n - 1].name != name { CellsAt(local, channels, n - 1, model, field, name); }
  }

  lemma CellShows(current: Value, upstream: Option<Value>)
    ensures Cell(current, upstream) != Null && Cell(current, upstream) != SAME <==> Shows(current, upstream)
    ensures Cell(current, upstream) == Null <==> current != Null && (upstream == None || upstream == Some(Null))
  {
  }

  lemma {:induction false} LatestCounts(current: Value, channels: seq<Channel>, n: nat, model: string, field: string, name: string)
    requires n <= |channels| && name in Names(channels, n)
    requires Differs(current, Get(Latest(channels, n, name).data, field, model))
    ensures AnyDiffers(current, channels, n, model, field) && AnyValue(channels, n, model, field)
  {
    hide Get, ValuesEqual;
    if channels[n - 1].name != name { LatestCounts(current, channels, n - 1, model, field, name); }
  }

  lemma VisibleIsDrafted(local: Data, channels: seq<Channel>, model: string, field: string, name: string)
    requires Visible(local, channels, model, field, name)
    ensures Drafted(local, channels, model, field) && AnyDiffers(Local(local, field, model), channels, |channels|, model, field)
  {
    LatestCounts(Local(local, field, model), channels, |channels|, model, field, name);
  }

  lemma ShownIsVisible(draft: Differences, local: Data, channels: seq<Channel>, model: string, field: string, name: string)
    requires IsDraft(draft, local, channels)
    ensures ShownAt(draft, model, field, name) <==> Visible(local, channels, model, field, name)
  {
    hide Cell, Shows, Get, Local, Drafted, Latest;
    assert Entry(draft, model, field) == DraftEntry(local, channels, model, field);
    if name in Names(channels, |channels|) {
      CellsAt(local, channels, |channels|, model, field, name);
      CellShows(Local(local, field, model), Get(Latest(channels, |channels|, name).data, field, model));
    }
    if Visible(local, channels, model, field, name) { VisibleIsDrafted(local, channels, model, field, name); }
  }

  lemma KeptIsListed(draft: Differences, local: Data, channels: seq<Channel>, name: string)
    requires IsDraft(draft, local, channels)
    ensures (exists m, f :: ShownAt(draft, m, f, name)) <==> name in Listed(local, channels)
  {
    hide IsDraft, ShownAt;
    forall m, f ensures ShownAt(draft, m, f, name) <==> Visible(local, channels, m, f, name) {
      ShownIsVisible(draft, local, channels, m, f, name);
    }
    if m, f :| Visible(local, channels, m, f, name) { assert ShownAt(draft, m, f, name); }
  }

  /** buildDifferences. */
  method BuildDifferences(local: Data, channels: seq<Channel>) returns (d: Differences)
    ensures Compact(d)
    ensures forall m, f :: Entry(d, m, f) == Report(local, channels, m, f)
  {
    hide DraftEntry, Prune;
    var draft := DraftAll(local, channels);
    var kept := ChannelsWithDifferences(draft);
    assert kept == Listed(local, channels) by {
      forall name ensures name in kept <==> name in Listed(local, channels) { KeptIsListed(draft, local, channels, name); }
    }
    d := PruneAll(draft, kept);
  }

  /** The channel name is listed but has no value, or null, at (model, field). */
  ghost predicate Silent(local: Data, channels: seq<Channel>, model: string, field: string, name: string) {
    name in Listed(local, channels) && Get(Latest(channels, |channels|, name).data, field, model) in {None, Some(Null)}
  }

  lemma PrunedIff(item: Item, kept: set<string>)
    ensures Prune(item, kept).Some? <==> exists name :: name in item.upstreams && name in kept && item.upstreams[name] != SAME
  {
    var upstreams := map name | name in item.upstreams && name in kept :: item.upstreams[name];
    if name :| name in item.upstreams && name in kept && item.upstreams[name] != SAME {
      assert name in upstreams && upstreams[name] != SAME;
    }
    if name :| name in upstreams && upstreams[name] != SAME {
      assert name in item.upstreams && name in kept && item.upstreams[name] != SAME;
    }
  }

  lemma PruneLists(item: Item, kept: set<string>)
    requires kept <= item.upstreams.Keys == item.confidence.Keys && Prune(item, kept).Some?
    ensures var r := Prune(item, kept).value;
            && r.current == item.current && r.upstreams.Keys == r.confidence.Keys == kept
            && forall name :: name in kept ==> r.upstreams[name] == item.upstreams[name] && r.confidence[name] == item.confidence[name]
  {
  }

  /** A listed name keeps the drafted entry alive exactly when it shows a difference there,
      or is silent against a local value. */
  lemma NameReports(local: Data, channels: seq<Channel>, model: string, field: string, name: string)
    requires field in FIELDS && name in Names(channels, |channels|)
    ensures name in Listed(local, channels) && Cells(local, channels, |channels|, model, field)[name] != SAME <==>
              || Visible(local, channels, model, field, name)
              || (Local(local, field, model) != Null && Silent(local, channels, model, field, name))
  {
    hide Cell, Shows, Get, Local, Latest, Cells;
    CellsAt(local, channels, |channels|, model, field, name);
    CellShows(Local(local, field, model), Get(Latest(channels, |channels|, name).data, field, model));
  }

  /** Some channel name keeps the entry alive. */
  ghost predicate Alive(local: Data, channels: seq<Channel>, model: string, field: string, name: string) {
    name in Listed(local, channels) && Cells(local, channels, |channels|, model, field)[name] != SAME
  }

  lemma ReportedAlive(local: Data, channels: seq<Channel>, model: string, field: string)
    ensures Report(local, channels, model, field).Some? <==>
              field in FIELDS && Drafted(local, channels, model, field) && exists name :: Alive(local, channels, model, field, name)
  {
    hide Prune, Drafted, Cells, Trusts, Visible;
    var item, kept := Draft(local, channels, model, field), Listed(local, channels);
    PrunedIff(item, kept);
    if name :| name in item.upstreams && name in kept && item.upstreams[name] != SAME {
      assert Alive(local, channels, model, field, name);
    }
    if name :| Alive(local, channels, model, field, name) {
      assert name in Draft(local, channels, model, field).upstreams;
    }
  }

  /** An entry is reported exactly when a channel shows a difference there, or when a
      hidden difference from a local value meets a listed channel that is silent there. */
  lemma ReportedIff(local: Data, channels: seq<Channel>, model: string, field: string)
    ensures var current := Local(local, field, model);
            Report(local, channels, model, field).Some? <==>
              || (exists name :: Visible(local, channels, model, field, name))
              || (field in FIELDS && current != Null && AnyDiffers(current, channels, |channels|, model, field) &&
                  exists name :: Silent(local, channels, model, field, name))
  {
    hide Report, Cells, Get, Local, Shows, Latest, AnyDiffers, AnyValue;
    ReportedAlive(local, channels, model, field);
    if name :| Visible(local, channels, model, field, name) {
      VisibleIsDrafted(local, channels, model, field, name);
      NameReports(local, channels, model, field, name);
      assert Alive(local, channels, model, field, name);
    }
    if name :| field in FIELDS && Silent(local, channels, model, field, name) {
      NameReports(local, channels, model, field, name);
      assert Local(local, field, model) != Null ==> Alive(local, channels, model, field, name);
    }
    if name :| field in FIELDS && Alive(local, channels, model, field, name) {
      NameReports(local, channels, model, field, name);
    }
  }

  /** Every reported entry has a channel whose value differs from the local one. */
  lemma ReportSound(local: Data, channels: seq<Channel>, model: string, field: string)
    requires Report(local, channels, model, field).Some?
    ensures field in FIELDS && AnyDiffers(Local(local, field, model), channels, |channels|, model, field)
  {
    hide Report, Local;
    ReportedIff(local, channels, model, field);
    if name :| Visible(local, channels, model, field, name) { VisibleIsDrafted(local, channels, model, field, name); }
  }

  /** A reported entry is its draft cut down to the listed names. */
  lemma ReportIsPruned(local: Data, channels: seq<Channel>, model: string, field: string)
    requires Report(local, channels, model, field).Some?
    ensures Report(local, channels, model, field) == Prune(Draft(local, channels, model, field), Listed(local, channels))
    ensures Listed(local, channels) <= Names(channels, |channels|)
  {
    hide Draft, Prune, Drafted, Visible, Names;
  }

  lemma {:induction false} TrustsAt(channels: seq<Channel>, n: nat, model: string, name: string)
    requires n <= |channels| && name in Names(channels, n)
    ensures Trusts(channels, n, model)[name] == Trusted(Latest(channels, n, name).data, model)
  {
    hide Trusted;
    if channels[n - 1].name != name { TrustsAt(channels, n - 1, model, name); }
  }

  /** A reported entry lists exactly the names that show a difference somewhere, each with
      its last channel's cell and confidence. */
  lemma ReportLists(local: Data, channels: seq<Channel>, model: string, field: string, name: string)
    requires Report(local, channels, model, field).Some?
    ensures var item := Report(local, channels, model, field).value;
            && item.current == Local(local, field, model)
            && item.upstreams.Keys == item.confidence.Keys == Listed(local, channels)
    ensures name in Listed(local, channels) ==>
              var item, c := Report(local, channels, model, field).value, Latest(channels, |channels|, name);
              && item.upstreams[name] == Cell(Local(local, field, model), Get(c.data, field, model))
              && (item.confidence[name] <==> !Placeholder(c.data, model))
  {
    hide Report, Listed, Placeholder, Cell, Get, Local, Trusted, Visible, Latest, Cells, Trusts, Drafted, Prune, Names;
    ReportIsPruned(local, channels, model, field);
    PruneLists(Draft(local, channels, model, field), Listed(local, channels));
    if name in Listed(local, channels) {
      CellsAt(local, channels, |channels|, model, field, name);
      TrustsAt(channels, |channels|, model, name);
      TrustedIff(Latest(channels, |channels|, name).data, model);
    }
  }

  // ----- Well-formed input -----

  /** Names do not repeat, and no channel publishes null or the word "same". */
  ghost predicate WellFormed(channels: seq<Channel>) {
    && (forall i, j :: 0 <= i < j < |channels| ==> channels[i].name != channels[j].name)
    && (forall i, f, m :: 0 <= i < |channels| && HasValue(channels[i].data, f, m) ==>
          channels[i].data[f][m] != Null && channels[i].data[f][m] != Str("same"))
  }

  lemma {:induction false} DiffersAt(current: Value, channels: seq<Channel>, n: nat, model: string, field: string) returns (i: nat)
    requires n <= |channels| && AnyDiffers(current, channels, n, model, field)
    ensures i < n && Differs(current, Get(channels[i].data, field, model))
  {
    hide Differs;
    if Differs(current, Get(channels[n - 1].data, field, model)) {
      i := n - 1;
    } else {
      i := DiffersAt(current, channels, n - 1, model, field);
    }
  }

  lemma {:induction false} LatestIsOnly(channels: seq<Channel>, n: nat, i: nat)
    requires i < n <= |channels|
    requires forall i, j :: 0 <= i < j < |channels| ==> channels[i].name != channels[j].name
    ensures channels[i].name in Names(channels, n) && Latest(channels, n, channels[i].name) == channels[i]
  {
    if i < n - 1 { LatestIsOnly(channels, n - 1, i); }
  }

  lemma WellFormedGet(channels: seq<Channel>, i: nat, field: string, model: string)
    requires WellFormed(channels) && i < |channels|
    ensures Get(channels[i].data, field, model) !in {Some(Null), Some(SAME)}
  {
    assert HasValue(channels[i].data, field, model) <==> Get(channels[i].data, field, model).Some?;
  }

  lemma ReportedIffDiffers(local: Data, channels: seq<Channel>, model: string, field: string)
    requires WellFormed(channels) && field in FIELDS
    ensures Report(local, channels, model, field).Some?
       <==> AnyDiffers(Local(local, field, model), channels, |channels|, model, field)
  {
    hide Report, Local, Get, Latest;
    ReportedIff(local, channels, model, field);
    if Report(local, channels, model, field).Some? { ReportSound(local, channels, model, field); }
    if AnyDiffers(Local(local, field, model), channels, |channels|, model, field) {
      var i := DiffersAt(Local(local, field, model), channels, |channels|, model, field);
      LatestIsOnly(channels, |channels|, i);
      WellFormedGet(channels, i, field, model);
      assert Visible(local, channels, model, field, channels[i].name);
    }
  }

  lemma {:induction false} AnyDiffersAt(current: Value, channels: seq<Channel>, n: nat, model: string, field: string, i: nat)
    requires i < n <= |channels| && Differs(current, Get(channels[i].data, field, model))
    ensures AnyDiffers(current, channels, n, model, field)
  {
    hide Differs;
    if i < n - 1 { AnyDiffersAt(current, channels, n - 1, model, field, i); }
  }

  lemma AnyDiffersIff(local: Data, channels: seq<Channel>, model: string, field: string)
    ensures AnyDiffers(Local(local, field, model), channels, |channels|, model, field) <==>
              exists i :: 0 <= i < |channels| && Apart(local, channels[i].data, field, model)
  {
    hide Differs, Apart, Local, Get, AnyDiffers;
    var current := Local(local, field, model);
    if AnyDiffers(current, channels, |channels|, model, field) {
      var i := DiffersAt(current, channels, |channels|, model, field);
      DiffersIffApart(local, channels[i].data, field, model);
    }
    if i :| 0 <= i < |channels| && Apart(local, channels[i].data, field, model) {
      DiffersIffApart(local, channels[i].data, field, model);
      AnyDiffersAt(current, channels, |channels|, model, field, i);
    }
  }

  lemma FieldNames(field: string)
    ensures field in FIELDS <==>
              field in {"model_ratio", "completion_ratio", "cache_ratio", "create_cache_ratio", "image_ratio",
                        "audio_ratio", "audio_completion_ratio", "model_price", "billing_mode", "billing_expr"}
  {
  }

  /** On well-formed input the report is exact: in each of the ten fields an entry is there
      if and only if some channel has a value that is not the local one. */
  lemma ReportExact(local: Data, channels: seq<Channel>, model: string, field: string)
    requires WellFormed(channels)
    ensures Report(local, channels, model, field).Some? <==>
              && field in {"model_ratio", "completion_ratio", "cache_ratio", "create_cache_ratio", "image_ratio",
                           "audio_ratio", "audio_completion_ratio", "model_price", "billing_mode", "billing_expr"}
              && exists i :: 0 <= i < |channels| && Apart(local, channels[i].data, field, model)
  {
    hide Report, Apart, AnyDiffers, WellFormed;
    FieldNames(field);
    AnyDiffersIff(local, channels, model, field);
    if field in FIELDS {
      ReportedIffDiffers(local, channels, model, field);
    } else if Report(local, channels, model, field).Some? {
      ReportSound(local, channels, model, field);
    }
  }

  lemma {:induction false} ValueDiffers(channels: seq<Channel>, n: nat, model: string, field: string)
    requires WellFormed(channels) && n <= |channels| && AnyValue(channels, n, model, field)
    ensures AnyDiffers(Null, channels, n, model, field)
  {
    hide Get;
    WellFormedGet(channels, n - 1, field, model);
    if Get(channels[n - 1].data, field, model).None? { ValueDiffers(channels, n - 1, model, field); }
  }

  /** On well-formed input pruning drops channels but never an entry. */
  lemma PruningKeepsEntries(local: Data, channels: seq<Channel>, model: string, field: string)
    requires WellFormed(channels)
    ensures DraftEntry(local, channels, model, field).Some? <==> Report(local, channels, model, field).Some?
  {
    if DraftEntry(local, channels, model, field).Some? {
      if Local(local, field, model) == Null { ValueDiffers(channels, |channels|, model, field); }
      hide Report, WellFormed;
      ReportedIffDiffers(local, channels, model, field);
    }
  }

  /** Some field of some model differs from the local value. */
  ghost predicate DiffersSomewhere(local: Data, data: Data) {
    exists m, f :: f in FIELDS && Apart(local, data, f, m)
  }

  lemma NamesDistinct(channels: seq<Channel>)
    requires WellFormed(channels)
    ensures forall i, j :: 0 <= i < j < |channels| ==> channels[i].name != channels[j].name
  {
  }

  /** On well-formed input the listed channels are those that differ somewhere. */
  lemma ListedExact(local: Data, channels: seq<Channel>, i: nat)
    requires WellFormed(channels) && i < |channels|
    ensures channels[i].name in Listed(local, channels) <==> DiffersSomewhere(local, channels[i].data)
  {
    hide Local, Get, Latest, ValuesEqual, Apart, WellFormed;
    assert forall i, j :: 0 <= i < j < |channels| ==> channels[i].name != channels[j].name by { NamesDistinct(channels); }
    LatestIsOnly(channels, |channels|, i);
    if channels[i].name in Listed(local, channels) {
      var m, f :| Visible(local, channels, m, f, channels[i].name);
      DiffersIffApart(local, channels[i].data, f, m);
    }
    if m, f :| f in FIELDS && Apart(local, channels[i].data, f, m) {
      DiffersIffApart(local, channels[i].data, f, m);
      WellFormedGet(channels, i, f, m);
      assert Visible(local, channels, m, f, channels[i].name);
    }
  }

  /** A difference is missed exactly when no name shows it and, where there is a local
      value, no listed name is silent. */
  lemma MissedIff(local: Data, channels: seq<Channel>, model: string, field: string)
    requires field in FIELDS && AnyDiffers(Local(local, field, model), channels, |channels|, model, field)
    ensures Report(local, channels, model, field).None? <==>
              && (forall name :: !Visible(local, channels, model, field, name))
              && (Local(local, field, model) == Null || forall name :: !Silent(local, channels, model, field, name))
  {
    ReportedIff(local, channels, model, field);
  }

  /** It can happen: a channel whose billing mode is literally "same". */
  lemma WordSameIsMissed(model: string)
    ensures var channels := [Channel("a", map["billing_mode" := map[model := SAME]])];
            && AnyDiffers(Local(map[], "billing_mode", model), channels, 1, model, "billing_mode")
            && Report(map[], channels, model, "billing_mode").None?
  {
    var channels := [Channel("a", map["billing_mode" := map[model := SAME]])];
    assert Get(channels[0].data, "billing_mode", model) == Some(SAME);
    assert AnyDiffers(Null, channels, 1, model, "billing_mode");
    assert "billing_mode" == FIELDS[8];
    ReportedIff(map[], channels, model, "billing_mode");
    forall name ensures !Visible(map[], channels, model, "billing_mode", name) {
      if name in Names(channels, 1) { assert Latest(channels, 1, name) == channels[0]; }
    }
  }
}
