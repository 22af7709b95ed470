/** The verification-code table: one map shared by all purposes, cleaned lazily
    when it grows. Times are nanoseconds, given to every operation as the clock
    readings it takes under the mutex. */
module VerificationTable {

  const VALID_MINUTES := 10
  const MAP_MAX_SIZE := 10
  const SECOND := 1_000_000_000

  datatype Value = Value(code: string, time: int)
  type Pairs = map<string, Value>

  /** Whole seconds between two readings, truncated toward zero as Go's int() does. */
  function WholeSeconds(elapsed: int): (s: int) {
    if elapsed >= 0 then elapsed / SECOND else -(-elapsed / SECOND)
  }

  predicate Expired(v: Value, now: int) {
    WholeSeconds(now - v.time) >= VALID_MINUTES * 60
  }

  // ----- The operations on values -----

  function WithoutExpired(pairs: Pairs, now: int): (cleaned: Pairs) {
    map k | k in pairs && !Expired(pairs[k], now) :: pairs[k]
  }

  /** `later` is the second clock reading, taken by the clean-up. */
  function Registered(pairs: Pairs, mapKey: string, code: string, now: int, later: int): (r: Pairs) {
    var grown := pairs[mapKey := Value(code, now)];
    if |grown| > MAP_MAX_SIZE then WithoutExpired(grown, later) else grown
  }

  predicate Accepts(pairs: Pairs, mapKey: string, code: string, now: int) {
    mapKey in pairs && !Expired(pairs[mapKey], now) && code == pairs[mapKey].code
  }

  // ----- The table itself -----

  class Table {
    var pairs: Pairs

    constructor ()
      ensures pairs == map[]
    {
      pairs := map[];
    }

    method Register(key: string, code: string, purpose: string, now: int, later: int)
      modifies this
      ensures pairs == Registered(old(pairs), purpose + key, code, now, later)
    {
      pairs := pairs[purpose + key := Value(code, now)];
      if |pairs| > MAP_MAX_SIZE {
        RemoveExpiredPairs(later);
      }
    }

    method Verify(key: string, code: string, purpose: string, now: int) returns (ok: bool)
      ensures ok <==> Accepts(pairs, purpose + key, code, now)
    {
      if purpose + key !in pairs || WholeSeconds(now - pairs[purpose + key].time) >= VALID_MINUTES * 60 {
        return false;
      }
      return code == pairs[purpose + key].code;
    }

    method VerifyAndDelete(key: string, code: string, purpose: string, now: int) returns (ok: bool)
      modifies this
      ensures ok <==> Accepts(old(pairs), purpose + key, code, now)
      ensures pairs == if ok then old(pairs) - {purpose + key} else old(pairs)
    {
      var mapKey := purpose + key;
      if mapKey !in pairs || WholeSeconds(now - pairs[mapKey].time) >= VALID_MINUTES * 60 {
        return false;
      }
      if code != pairs[mapKey].code {
        return false;
      }
      pairs := pairs - {mapKey};
      return true;
    }

    method Delete(key: string, purpose: string)
      modifies this
      ensures pairs == old(pairs) - {purpose + key}
    {
      pairs := pairs - {purpose + key};
    }

    method RemoveExpiredPairs(now: int)
      modifies this
      ensures pairs == WithoutExpired(old(pairs), now)
    {
      var todo := pairs.Keys;
      while todo != {}
        invariant todo <= old(pairs).Keys
        invariant forall k :: k in todo ==> k in pairs
        invariant forall k :: k in pairs ==> k in old(pairs) && pairs[k] == old(pairs)[k]
        invariant forall k :: k in old(pairs) && k !in todo ==> (k in pairs <==> !Expired(old(pairs)[k], now))
        decreases todo
      {
        var key :| key in todo;
        if WholeSeconds(now - pairs[key].time) >= VALID_MINUTES * 60 {
          pairs := pairs - {key};
        }
        todo := todo - {key};
      }
    }
  }

  // ----- Purposes -----

  const EMAIL_VERIFICATION := "v"
  const EMAIL_LOGIN := "email_login"
  const PASSWORD_RESET := "r"

  predicate IsPurpose(p: string) {
    p == EMAIL_VERIFICATION || p == EMAIL_LOGIN || p == PASSWORD_RESET
  }

  /** Map keys of different (purpose, key) pairs never collide. */
  lemma PurposesDisjoint(p: string, k: string, q: string, l: string)
    requires IsPurpose(p) && IsPurpose(q)
    ensures p + k == q + l <==> p == q && k == l
  {
    if p + k == q + l {
      assert (p + k)[0] == p[0] && (q + l)[0] == q[0];
      assert (p + k)[|p|..] == k && (q + l)[|q|..] == l;
    }
  }

  // ----- Runs -----

  datatype Op =
    | Register(purpose: string, key: string, code: string, now: int, later: int)
    | Verify(purpose: string, key: string, code: string, now: int)
    | Consume(purpose: string, key: string, code: string, now: int)
    | Delete(purpose: string, key: string, now: int)

  function MapKey(op: Op): (k: string) {
    op.purpose + op.key
  }

  function Finished(op: Op): (t: int) {
    if op.Register? then op.later else op.now
  }

  /** The clock never goes back, within an operation or from one to the next. */
  ghost predicate Clocked(ops: seq<Op>) {
    && (forall i :: 0 <= i < |ops| ==> ops[i].now <= Finished(ops[i]))
    && (forall i, j :: 0 <= i < j < |ops| ==> Finished(ops[i]) <= ops[j].now)
  }

  function Answer(pairs: Pairs, op: Op): (ok: bool) {
    (op.Verify? || op.Consume?) && Accepts(pairs, MapKey(op), op.code, op.now)
  }

  /** The table after an operation; `lazy` says whether it cleans itself. */
  function After(pairs: Pairs, op: Op, lazy: bool): (r: Pairs) {
    match op
    case Register(_, _, code, now, later) =>
      if lazy then Registered(pairs, MapKey(op), code, now, later) else pairs[MapKey(op) := Value(code, now)]
    case Verify(_, _, _, _) => pairs
    case Consume(_, _, _, _) => if Answer(pairs, op) then pairs - {MapKey(op)} else pairs
    case Delete(_, _, _) => pairs - {MapKey(op)}
  }

  ghost function Run(ops: seq<Op>, lazy: bool): Pairs {
    if ops == [] then map[]
    else After(Run(ops[..|ops| - 1], lazy), ops[|ops| - 1], lazy)
  }

  /** What the operation at index `i` answers in the run. */
  ghost predicate Answers(ops: seq<Op>, i: nat, lazy: bool)
    requires i < |ops|
  {
    Answer(Run(ops[..i], lazy), ops[i])
  }

  // ----- Cleaning cannot be noticed -----

  /** The cleaned table is the uncleaned one minus entries already expired at `now`. */
  ghost predicate Cleaned(c: Pairs, u: Pairs, now: int) {
    && (forall k :: k in c ==> k in u && u[k] == c[k])
    && (forall k :: k in u && k !in c ==> Expired(u[k], now))
  }

  lemma ExpiredStays(v: Value, now: int, later: int)
    requires Expired(v, now) && now <= later
    ensures Expired(v, later)
  {
    assert now - v.time >= VALID_MINUTES * 60 * SECOND;
  }

  lemma YoungIsValid(v: Value, now: int)
    ensures Expired(v, now) <==> now - v.time >= 600_000_000_000
  {
  }

  lemma CleanedLater(c: Pairs, u: Pairs, now: int, later: int)
    requires Cleaned(c, u, now) && now <= later
    ensures Cleaned(c, u, later)
  {
    forall k | k in u && k !in c
      ensures Expired(u[k], later)
    {
      ExpiredStays(u[k], now, later);
    }
  }

  lemma AfterCleaned(c: Pairs, u: Pairs, op: Op)
    requires Cleaned(c, u, op.now) && op.now <= Finished(op)
    ensures Answer(c, op) == Answer(u, op)
    ensures Cleaned(After(c, op, true), After(u, op, false), Finished(op))
  {
    CleanedLater(c, u, op.now, Finished(op));
  }

  lemma {:induction false} RunCleaned(ops: seq<Op>)
    requires Clocked(ops)
    ensures ops == [] ==> Run(ops, true) == Run(ops, false)
    ensures ops != [] ==> Cleaned(Run(ops, true), Run(ops, false), Finished(ops[|ops| - 1]))
  {
    if ops != [] {
      var before, op := ops[..|ops| - 1], ops[|ops| - 1];
      RunCleaned(before);
      if before != [] {
        CleanedLater(Run(before, true), Run(before, false), Finished(before[|before| - 1]), op.now);
      }
      AfterCleaned(Run(before, true), Run(before, false), op);
    }
  }

  /** Every answer of every run is the one a table that is never cleaned would give. */
  lemma {:induction false} CleaningUnobservable(ops: seq<Op>, i: nat)
    requires Clocked(ops) && i < |ops|
    ensures Answers(ops, i, true) == Answers(ops, i, false)
  {
    var before := ops[..i];
    RunCleaned(before);
    if before != [] {
      CleanedLater(Run(before, true), Run(before, false), Finished(before[i - 1]), ops[i].now);
    }
    AfterCleaned(Run(before, true), Run(before, false), ops[i]);
  }

  /** A registration leaves at most ten entries, or only ones less than ten minutes old. */
  lemma RegisterCleans(pairs: Pairs, mapKey: string, code: string, now: int, later: int)
    ensures var r := Registered(pairs, mapKey, code, now, later);
            |r| <= 10 || forall k :: k in r ==> later - r[k].time < 600_000_000_000
  {
    var grown := pairs[mapKey := Value(code, now)];
    forall k | k in grown ensures Expired(grown[k], later) <==> later - grown[k].time >= 600_000_000_000 {
      YoungIsValid(grown[k], later);
    }
  }

  // ----- Each success consumes its own registration -----

  /** The operation at `i` is a registration, a deletion or a successful consumption of `mapKey`. */
  ghost predicate Touches(ops: seq<Op>, i: nat, mapKey: string)
    requires i < |ops|
  {
    MapKey(ops[i]) == mapKey && (ops[i].Register? || ops[i].Delete? || (ops[i].Consume? && Answers(ops, i, true)))
  }

  /** The registration at `j` is the live one for `mapKey` before index `n`. */
  ghost predicate LiveRegistration(ops: seq<Op>, j: nat, n: nat, mapKey: string)
    requires n <= |ops|
  {
    && j < n && ops[j].Register? && MapKey(ops[j]) == mapKey
    && forall i :: j < i < n ==> !Touches(ops, i, mapKey)
  }

  lemma {:induction false} EntryHasRegistration(ops: seq<Op>, n: nat, mapKey: string) returns (j: nat)
    requires n <= |ops| && mapKey in Run(ops[..n], true)
    ensures LiveRegistration(ops, j, n, mapKey)
    ensures Run(ops[..n], true)[mapKey] == Value(ops[j].code, ops[j].now)
  {
    var op, before := ops[n - 1], ops[..n - 1];
    assert ops[..n][..n - 1] == before;
    if op.Register? && MapKey(op) == mapKey {
      j := n - 1;
    } else {
      j := EntryHasRegistration(ops, n - 1, mapKey);
    }
  }

  /** A successful verify-and-delete used a registration of the same purpose and key,
      with that code and less than the validity period old, which nothing else had
      replaced, deleted or used since. */
  lemma {:induction false} ConsumeUsesRegistration(ops: seq<Op>, i: nat) returns (j: nat)
    requires Clocked(ops) && i < |ops| && ops[i].Consume? && Answers(ops, i, true)
    ensures LiveRegistration(ops, j, i, MapKey(ops[i]))
    ensures ops[j].code == ops[i].code
    ensures 0 <= ops[i].now - ops[j].now < 600_000_000_000
    ensures IsPurpose(ops[i].purpose) && IsPurpose(ops[j].purpose) ==>
              ops[j].purpose == ops[i].purpose && ops[j].key == ops[i].key
  {
    j := EntryHasRegistration(ops, i, MapKey(ops[i]));
    assert ops[j].now <= Finished(ops[j]) <= ops[i].now;
    if IsPurpose(ops[i].purpose) && IsPurpose(ops[j].purpose) {
      PurposesDisjoint(ops[i].purpose, ops[i].key, ops[j].purpose, ops[j].key);
    }
  }

  lemma UntouchedStays(pairs: Pairs, op: Op, mapKey: string)
    requires mapKey in pairs
    requires MapKey(op) == mapKey ==> op.Verify? || (op.Consume? && !Answer(pairs, op))
    ensures mapKey in After(pairs, op, false) && After(pairs, op, false)[mapKey] == pairs[mapKey]
  {
    hide Answer;
  }

  lemma JustRegistered(pairs: Pairs, op: Op)
    requires op.Register?
    ensures MapKey(op) in After(pairs, op, false) && After(pairs, op, false)[MapKey(op)] == Value(op.code, op.now)
  {
  }

  /** The uncleaned table holds the live registration of a map key. */
  lemma {:induction false} LiveEntry(ops: seq<Op>, j: nat, n: nat, mapKey: string)
    requires Clocked(ops) && n <= |ops| && LiveRegistration(ops, j, n, mapKey)
    ensures mapKey in Run(ops[..n], false) && Run(ops[..n], false)[mapKey] == Value(ops[j].code, ops[j].now)
  {
    hide After, Answer;
    var before := Run(ops[..n - 1], false);
    assert ops[..n][..n - 1] == ops[..n - 1];
    assert Run(ops[..n], false) == After(before, ops[n - 1], false);
    if j < n - 1 {
      LiveEntry(ops, j, n - 1, mapKey);
      assert !Touches(ops, n - 1, mapKey);
      CleaningUnobservable(ops, n - 1);
      UntouchedStays(before, ops[n - 1], mapKey);
    } else {
      JustRegistered(before, ops[j]);
    }
  }

  /** A code is accepted if and only if the live registration for that purpose and key has
      this code and is less than ten minutes old. */
  lemma AcceptedIff(ops: seq<Op>, i: nat)
    requires Clocked(ops) && i < |ops| && (ops[i].Verify? || ops[i].Consume?)
    ensures Answers(ops, i, true) <==>
              exists j: nat :: && LiveRegistration(ops, j, i, MapKey(ops[i])) && ops[j].code == ops[i].code
                          && ops[i].now - ops[j].now < 600_000_000_000
  {
    var mapKey := MapKey(ops[i]);
    if Answers(ops, i, true) {
      var j := EntryHasRegistration(ops, i, mapKey);
    }
    if j: nat :| LiveRegistration(ops, j, i, mapKey) && ops[j].code == ops[i].code && ops[i].now - ops[j].now < 600_000_000_000 {
      LiveEntry(ops, j, i, mapKey);
      CleaningUnobservable(ops, i);
      YoungIsValid(Value(ops[j].code, ops[j].now), ops[i].now);
    }
  }

  /** Two successes never use one registration: a code works once. */
  lemma NoReplay(ops: seq<Op>, i: nat, i': nat, j: nat, j': nat)
    requires i < i' < |ops|
    requires ops[i].Consume? && Answers(ops, i, true) && LiveRegistration(ops, j, i, MapKey(ops[i]))
    requires ops[i'].Consume? && Answers(ops, i', true) && LiveRegistration(ops, j', i', MapKey(ops[i']))
    ensures j != j'
  {
    if j == j' {
      assert Touches(ops, i, MapKey(ops[i']));
    }
  }
}
