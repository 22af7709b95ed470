/** The per-order lock table (`LockOrder`, `UnlockOrder`) and the payment
    callback that runs between them, as a step relation over any number of
    threads. Every step is one atomic action of the source: one mutex
    operation, one map access, one change of a counter, or one database call. */
module OrderLocks {
  import opened Counting

  type Key = string

  /** Where a thread is; each phase names the action the thread does next. */
  datatype Phase =
    | Idle
    | Arriving    // LockOrder: createLock.Lock()
    | Loading     // orderLocks.Load
    | Storing     // Load missed: allocate a mutex and orderLocks.Store it
    | Counting    // refCount++
    | Leaving     // createLock.Unlock()
    | Waiting     // mu.Lock()
    | Reading     // callback: read the order
    | Checking    // callback: complete the order if it was read as pending
    | Releasing   // UnlockOrder: orderLocks.Load, without createLock
    | Unlocking   // mu.Unlock()
    | Returning   // createLock.Lock()
    | Dropping    // refCount--
    | Pruning     // delete the entry if refCount is 0
    | Finishing   // createLock.Unlock()
    | Lost        // UnlockOrder found no entry and returned early
    | Crashed     // unlock of an unlocked mutex: the Go runtime aborts

  /** `locked` is the mutex LockOrder obtained, `found` the one UnlockOrder loaded. */
  datatype Thread = Thread(phase: Phase, key: Key, locked: nat, found: nat, sawPending: bool)
  datatype Mutex = Mutex(refCount: int, held: bool)
  datatype Order = Order(epay: bool, pending: bool, completions: nat)

  /** `heap` holds every mutex ever allocated; `table` maps order numbers to heap indices. */
  datatype State = State(
    table: map<Key, nat>,
    createHeld: bool,
    heap: seq<Mutex>,
    threads: seq<Thread>,
    orders: map<Key, Order>)

  // ----- The steps -----

  predicate Init(s: State) {
    s.table == map[] && !s.createHeld && s.heap == []
    && (forall t :: 0 <= t < |s.threads| ==> s.threads[t].phase == Idle)
    && (forall k :: k in s.orders ==> s.orders[k].pending && s.orders[k].completions == 0)
  }

  function Goto(s: State, t: nat, th: Thread): (s': State)
    requires t < |s.threads|
  {
    s.(threads := s.threads[t := th])
  }

  function MapMutex(s: State, m: nat, mu: Mutex): (s': State) {
    if m < |s.heap| then s.(heap := s.heap[m := mu]) else s
  }

  function MutexAt(s: State, m: nat): (mu: Mutex) {
    if m < |s.heap| then s.heap[m] else Mutex(0, false)
  }

  /** One action of a thread that is inside LockOrder. */
  predicate LockStep(s: State, t: nat, s': State)
    requires t < |s.threads|
  {
    var th := s.threads[t];
    match th.phase
    case Arriving =>
      !s.createHeld && s' == Goto(s, t, th.(phase := Loading)).(createHeld := true)
    case Loading =>
      if th.key in s.table
      then s' == Goto(s, t, th.(phase := Counting, locked := s.table[th.key]))
      else s' == Goto(s, t, th.(phase := Storing))
    case Storing =>
      s' == Goto(s, t, th.(phase := Counting, locked := |s.heap|))
            .(table := s.table[th.key := |s.heap|], heap := s.heap + [Mutex(0, false)])
    case Counting =>
      var mu := MutexAt(s, th.locked);
      s' == Goto(MapMutex(s, th.locked, mu.(refCount := mu.refCount + 1)), t, th.(phase := Leaving))
    case Leaving =>
      s' == Goto(s, t, th.(phase := Waiting)).(createHeld := false)
    case Waiting =>
      var mu := MutexAt(s, th.locked);
      !mu.held && s' == Goto(MapMutex(s, th.locked, mu.(held := true)), t, th.(phase := Reading))
    case _ => false
  }

  /** One action of the callback body between the two calls. A completion may
      fail, and when it succeeds it leaves the order not pending. */
  predicate BodyStep(s: State, t: nat, s': State)
    requires t < |s.threads|
  {
    var th := s.threads[t];
    match th.phase
    case Reading =>
      if th.key in s.orders && s.orders[th.key].epay
      then s' == Goto(s, t, th.(phase := Checking, sawPending := s.orders[th.key].pending))
      else s' == Goto(s, t, th.(phase := Releasing))
    case Checking =>
      var next := Goto(s, t, th.(phase := Releasing));
      || s' == next
      || (th.sawPending && th.key in s.orders
          && var o := s.orders[th.key];
             s' == next.(orders := s.orders[th.key := o.(pending := false, completions := o.completions + 1)]))
    case _ => false
  }

  /** One action of a thread that is inside UnlockOrder. */
  predicate UnlockStep(s: State, t: nat, s': State)
    requires t < |s.threads|
  {
    var th := s.threads[t];
    match th.phase
    case Releasing =>
      if th.key in s.table
      then s' == Goto(s, t, th.(phase := Unlocking, found := s.table[th.key]))
      else s' == Goto(s, t, th.(phase := Lost))
    case Unlocking =>
      var mu := MutexAt(s, th.found);
      if mu.held
      then s' == Goto(MapMutex(s, th.found, mu.(held := false)), t, th.(phase := Returning))
      else s' == Goto(s, t, th.(phase := Crashed))
    case Returning =>
      !s.createHeld && s' == Goto(s, t, th.(phase := Dropping)).(createHeld := true)
    case Dropping =>
      var mu := MutexAt(s, th.found);
      s' == Goto(MapMutex(s, th.found, mu.(refCount := mu.refCount - 1)), t, th.(phase := Pruning))
    case Pruning =>
      var next := Goto(s, t, th.(phase := Finishing));
      if MutexAt(s, th.found).refCount == 0
      then s' == next.(table := s.table - {th.key})
      else s' == next
    case Finishing =>
      s' == Goto(s, t, th.(phase := Idle)).(createHeld := false)
    case _ => false
  }

  predicate ThreadStep(s: State, t: nat, s': State) {
    t < |s.threads| && (LockStep(s, t, s') || BodyStep(s, t, s') || UnlockStep(s, t, s'))
  }

  /** The environment: a callback for some order starts on an idle thread. */
  predicate CallStep(s: State, t: nat, k: Key, s': State) {
    t < |s.threads| && s.threads[t].phase == Idle && s' == Goto(s, t, s.threads[t].(phase := Arriving, key := k))
  }

  /** The environment: a new thread appears. */
  predicate SpawnStep(s: State, th: Thread, s': State) {
    th.phase == Idle && s' == s.(threads := s.threads + [th])
  }

  /** The environment: a new pending order is created. */
  predicate OrderStep(s: State, k: Key, o: Order, s': State) {
    k !in s.orders && o.pending && o.completions == 0 && s' == s.(orders := s.orders[k := o])
  }

  ghost predicate ArrivalStep(s: State, s': State) {
    || (exists t: nat, k: Key :: CallStep(s, t, k, s'))
    || (exists th: Thread :: SpawnStep(s, th, s'))
    || (exists k: Key, o: Order :: OrderStep(s, k, o, s'))
  }

  ghost predicate SomeThreadSteps(s: State, s': State) {
    exists t: nat :: ThreadStep(s, t, s')
  }

  ghost predicate Next(s: State, s': State) {
    ArrivalStep(s, s') || SomeThreadSteps(s, s')
  }

  ghost predicate IsRun(run: seq<State>) {
    |run| > 0 && Init(run[0])
    && forall i :: 0 <= i < |run| - 1 ==> Next(run[i], run[i + 1])
  }

  // ----- The inductive invariant -----

  predicate HoldsCreate(p: Phase) {
    p.Loading? || p.Storing? || p.Counting? || p.Leaving? || p.Dropping? || p.Pruning? || p.Finishing?
  }

  /** Between mu.Lock and mu.Unlock. */
  predicate Inside(p: Phase) {
    p.Reading? || p.Checking? || p.Releasing? || p.Unlocking?
  }

  /** Between the increment and the decrement of refCount. */
  predicate Counted(p: Phase) {
    p.Leaving? || p.Waiting? || Inside(p) || p.Returning? || p.Dropping?
  }

  predicate Attached(p: Phase) {
    Counted(p) || p.Counting? || p.Pruning?
  }

  predicate Looked(p: Phase) {
    p.Unlocking? || p.Returning? || p.Dropping? || p.Pruning?
  }

  /** Holding createLock with the entry present but this thread not counted. */
  predicate AtEdge(p: Phase) {
    p.Counting? || p.Pruning?
  }

  ghost function CreateWeight(): Thread -> int {
    (th: Thread) => if HoldsCreate(th.phase) then 1 else 0
  }

  ghost function CountedOn(k: Key): Thread -> int {
    (th: Thread) => if th.key == k && Counted(th.phase) then 1 else 0
  }

  ghost function InsideOn(k: Key): Thread -> int {
    (th: Thread) => if th.key == k && Inside(th.phase) then 1 else 0
  }

  function Entry(s: State, k: Key): (mu: Mutex) {
    if k in s.table then MutexAt(s, s.table[k]) else Mutex(0, false)
  }

  /** An attached thread's order is in the table under the very mutex it locked. */
  ghost predicate ThreadOk(s: State, th: Thread) {
    && th.phase != Lost && th.phase != Crashed
    && (Attached(th.phase) ==> th.key in s.table && s.table[th.key] == th.locked)
    && (Looked(th.phase) ==> th.found == th.locked)
    && (th.phase.Storing? ==> th.key !in s.table)
    && (th.phase.Checking? && th.sawPending ==> th.key in s.orders && s.orders[th.key].pending)
  }

  ghost predicate TableOk(s: State) {
    && (forall k :: k in s.table ==> s.table[k] < |s.heap|)
    && (forall k, l :: k in s.table && l in s.table && s.table[k] == s.table[l] ==> k == l)
  }

  ghost predicate OrdersOk(s: State) {
    forall k :: k in s.orders ==>
      s.orders[k].completions == if s.orders[k].pending then 0 else 1
  }

  /** refCount and the lock bit, per order, and nothing left to delete. */
  ghost predicate EntryOk(s: State, k: Key) {
    && Entry(s, k).refCount == Sum(s.threads, CountedOn(k))
    && (if Entry(s, k).held then 1 else 0) == Sum(s.threads, InsideOn(k))
    && (k in s.table && Entry(s, k).refCount == 0 ==>
          exists t :: 0 <= t < |s.threads| && s.threads[t].key == k
                      && AtEdge(s.threads[t].phase))
  }

  ghost predicate Inv(s: State) {
    && TableOk(s)
    && OrdersOk(s)
    && (if s.createHeld then 1 else 0) == Sum(s.threads, CreateWeight())
    && (forall t :: 0 <= t < |s.threads| ==> ThreadOk(s, s.threads[t]))
    && (forall k: Key :: EntryOk(s, k))
  }

  // ----- Every step keeps it -----

  lemma InitInv(s: State)
    requires Init(s)
    ensures Inv(s)
  {
    SumZero(s.threads, CreateWeight());
    forall k: Key
      ensures EntryOk(s, k)
    {
      SumZero(s.threads, CountedOn(k));
      SumZero(s.threads, InsideOn(k));
    }
  }

  /** What moving one thread does to every count at once. */
  lemma Moved(ts: seq<Thread>, t: nat, th: Thread)
    requires t < |ts|
    ensures Sum(ts[t := th], CreateWeight()) == Sum(ts, CreateWeight()) - CreateWeight()(ts[t]) + CreateWeight()(th)
    ensures forall k: Key ::
              Sum(ts[t := th], CountedOn(k)) == Sum(ts, CountedOn(k)) - CountedOn(k)(ts[t]) + CountedOn(k)(th)
    ensures forall k: Key ::
              Sum(ts[t := th], InsideOn(k)) == Sum(ts, InsideOn(k)) - InsideOn(k)(ts[t]) + InsideOn(k)(th)
  {
    SumUpdate(ts, t, th, CreateWeight());
    forall k: Key
      ensures Sum(ts[t := th], CountedOn(k)) == Sum(ts, CountedOn(k)) - CountedOn(k)(ts[t]) + CountedOn(k)(th)
      ensures Sum(ts[t := th], InsideOn(k)) == Sum(ts, InsideOn(k)) - InsideOn(k)(ts[t]) + InsideOn(k)(th)
    {
      SumUpdate(ts, t, th, CountedOn(k));
      SumUpdate(ts, t, th, InsideOn(k));
    }
  }

  /** createLock has one holder. */
  lemma OneCreator(s: State, t: nat, u: nat)
    requires Inv(s) && t < |s.threads| && u < |s.threads| && t != u
    requires HoldsCreate(s.threads[t].phase)
    ensures s.createHeld && !HoldsCreate(s.threads[u].phase)
  {
    SumAtLeastTwo(s.threads, if t < u then t else u, if t < u then u else t, CreateWeight());
  }

  lemma CreatorHolds(s: State, t: nat)
    requires Inv(s) && t < |s.threads| && HoldsCreate(s.threads[t].phase)
    ensures s.createHeld
  {
    SumAtLeastOne(s.threads, t, CreateWeight());
  }

  /** An order's lock has one holder, and the lock bit says so. */
  lemma OneInside(s: State, t: nat, u: nat)
    requires Inv(s) && t < |s.threads| && u < |s.threads| && t != u
    requires Inside(s.threads[t].phase) && s.threads[u].key == s.threads[t].key
    ensures !Inside(s.threads[u].phase)
  {
    var k := s.threads[t].key;
    assert EntryOk(s, k);
    SumAtLeastTwo(s.threads, if t < u then t else u, if t < u then u else t, InsideOn(k));
  }

  lemma HeldInside(s: State, t: nat)
    requires Inv(s) && t < |s.threads| && Inside(s.threads[t].phase)
    ensures Entry(s, s.threads[t].key).held
  {
    var k := s.threads[t].key;
    assert EntryOk(s, k);
    SumAtLeastOne(s.threads, t, InsideOn(k));
  }

  function Bit(b: bool): int {
    if b then 1 else 0
  }

  /** A step of thread `t` that leaves other orders' entries alone and changes its
      own entry, and createLock, by exactly what the thread's move accounts for. */
  ghost predicate Accounted(s: State, t: nat, s': State)
    requires t < |s.threads|
  {
    && |s'.threads| == |s.threads|
    && var th, th' := s.threads[t], s'.threads[t];
    && s'.threads == s.threads[t := th'] && th'.key == th.key
    && Bit(s'.createHeld) - Bit(s.createHeld) == Bit(HoldsCreate(th'.phase)) - Bit(HoldsCreate(th.phase))
    && (forall k :: k != th.key ==> Entry(s', k) == Entry(s, k) && (k in s'.table <==> k in s.table))
    && Entry(s', th.key).refCount - Entry(s, th.key).refCount == Bit(Counted(th'.phase)) - Bit(Counted(th.phase))
    && Bit(Entry(s', th.key).held) - Bit(Entry(s, th.key).held) == Bit(Inside(th'.phase)) - Bit(Inside(th.phase))
    && (th.key in s'.table && Entry(s', th.key).refCount == 0 ==>
          || AtEdge(th'.phase)
          || (th.key in s.table && Entry(s, th.key).refCount == 0 && !AtEdge(th.phase)))
  }

  lemma AccountedEntry(s: State, t: nat, s': State, k: Key)
    requires Inv(s) && t < |s.threads| && Accounted(s, t, s')
    ensures EntryOk(s', k)
  {
    var th, th' := s.threads[t], s'.threads[t];
    assert EntryOk(s, k);
    SumUpdate(s.threads, t, th', CountedOn(k));
    SumUpdate(s.threads, t, th', InsideOn(k));
    if k in s'.table && Entry(s', k).refCount == 0 {
      if th'.key == k && AtEdge(th'.phase) {
        assert s'.threads[t].key == k;
      } else {
        var u :| 0 <= u < |s.threads| && s.threads[u].key == k && AtEdge(s.threads[u].phase);
        assert u != t && s'.threads[u] == s.threads[u];
      }
    }
  }

  lemma AccountedInv(s: State, t: nat, s': State)
    requires Inv(s) && t < |s.threads| && Accounted(s, t, s')
    requires TableOk(s') && OrdersOk(s')
    requires forall u :: 0 <= u < |s'.threads| ==> ThreadOk(s', s'.threads[u])
    ensures Inv(s')
  {
    SumUpdate(s.threads, t, s'.threads[t], CreateWeight());
    forall k: Key
      ensures EntryOk(s', k)
    {
      AccountedEntry(s, t, s', k);
    }
  }

  /** What the invariant says about a thread and the threads beside it. */
  ghost predicate Alone(s: State, t: nat)
    requires t < |s.threads|
  {
    var th := s.threads[t];
    && Entry(s, th.key).refCount >= 0
    && (HoldsCreate(th.phase) ==> s.createHeld)
    && (Inside(th.phase) ==> Entry(s, th.key).held)
    && (forall u :: 0 <= u < |s.threads| && u != t ==>
          && (HoldsCreate(th.phase) ==> !HoldsCreate(s.threads[u].phase))
          && (Inside(th.phase) && s.threads[u].key == th.key ==> !Inside(s.threads[u].phase)))
    && (forall u :: 0 <= u < |s.threads| && s.threads[u].key == th.key && Counted(s.threads[u].phase) ==>
          Entry(s, th.key).refCount > 0)
  }

  lemma InvAlone(s: State, t: nat)
    requires Inv(s) && t < |s.threads|
    ensures Alone(s, t)
  {
    var th := s.threads[t];
    assert EntryOk(s, th.key);
    SumNonNegative(s.threads, CountedOn(th.key));
    if HoldsCreate(th.phase) { CreatorHolds(s, t); }
    if Inside(th.phase) { HeldInside(s, t); }
    forall u | 0 <= u < |s.threads| && u != t
      ensures HoldsCreate(th.phase) ==> !HoldsCreate(s.threads[u].phase)
      ensures Inside(th.phase) && s.threads[u].key == th.key ==> !Inside(s.threads[u].phase)
    {
      if HoldsCreate(th.phase) { OneCreator(s, t, u); }
      if Inside(th.phase) && s.threads[u].key == th.key { OneInside(s, t, u); }
    }
    forall u | 0 <= u < |s.threads| && s.threads[u].key == th.key && Counted(s.threads[u].phase)
      ensures Entry(s, th.key).refCount > 0
    {
      SumAtLeastOne(s.threads, u, CountedOn(th.key));
    }
  }

  /** Writing the mutex of order `k` changes that order's entry only. */
  lemma WriteMutex(s: State, k: Key, mu: Mutex)
    requires TableOk(s) && k in s.table
    ensures var s' := MapMutex(s, s.table[k], mu);
            && s'.table == s.table && |s'.heap| == |s.heap| && s'.threads == s.threads
            && Entry(s', k) == mu
            && forall l :: l != k ==> Entry(s', l) == Entry(s, l)
  {
  }

  /** A step that writes the thread's own mutex. */
  lemma WriteAccounted(s: State, t: nat, mu: Mutex, th': Thread)
    requires TableOk(s) && t < |s.threads|
    requires var th := s.threads[t]; th.key in s.table && th'.key == th.key
    requires var th, old' := s.threads[t], Entry(s, s.threads[t].key);
             && (HoldsCreate(th'.phase) <==> HoldsCreate(th.phase))
             && mu.refCount - old'.refCount == Bit(Counted(th'.phase)) - Bit(Counted(th.phase))
             && Bit(mu.held) - Bit(old'.held) == Bit(Inside(th'.phase)) - Bit(Inside(th.phase))
             && (mu.refCount == 0 ==> AtEdge(th'.phase) || (old'.refCount == 0 && !AtEdge(th.phase)))
    ensures var s' := Goto(MapMutex(s, s.table[s.threads[t].key], mu), t, th');
            Accounted(s, t, s') && TableOk(s')
  {
    WriteMutex(s, s.threads[t].key, mu);
    var mid := MapMutex(s, s.table[s.threads[t].key], mu);
    var s' := Goto(mid, t, th');
    assert s'.table == mid.table && s'.heap == mid.heap;
    assert forall k :: Entry(s', k) == Entry(mid, k);
  }

  predicate WritesMutex(p: Phase) {
    p.Counting? || p.Waiting? || p.Unlocking? || p.Dropping?
  }

  lemma LockWriteAccounted(s: State, t: nat, s': State)
    requires TableOk(s) && t < |s.threads| && ThreadOk(s, s.threads[t]) && Alone(s, t)
    requires LockStep(s, t, s') && WritesMutex(s.threads[t].phase)
    ensures Accounted(s, t, s') && TableOk(s')
  {
    var th := s.threads[t];
    var mu := Entry(s, th.key);
    if th.phase.Counting? {
      WriteAccounted(s, t, mu.(refCount := mu.refCount + 1), th.(phase := Leaving));
    } else {
      WriteAccounted(s, t, mu.(held := true), th.(phase := Reading));
    }
  }

  lemma UnlockWriteAccounted(s: State, t: nat, s': State)
    requires TableOk(s) && t < |s.threads| && ThreadOk(s, s.threads[t]) && Alone(s, t)
    requires UnlockStep(s, t, s') && WritesMutex(s.threads[t].phase)
    ensures Accounted(s, t, s') && TableOk(s')
  {
    var th := s.threads[t];
    var mu := Entry(s, th.key);
    if th.phase.Unlocking? {
      WriteAccounted(s, t, mu.(held := false), th.(phase := Returning));
    } else {
      WriteAccounted(s, t, mu.(refCount := mu.refCount - 1), th.(phase := Pruning));
    }
  }

  /** A step that only moves the thread and changes createLock. */
  lemma MoveFrame(s: State, t: nat, s': State)
    requires t < |s.threads| && ThreadOk(s, s.threads[t]) && Alone(s, t)
    requires LockStep(s, t, s') || UnlockStep(s, t, s')
    requires var p := s.threads[t].phase; !p.Storing? && !p.Pruning? && !WritesMutex(p)
    ensures s'.table == s.table && s'.heap == s.heap && |s'.threads| == |s.threads|
    ensures var th, th' := s.threads[t], s'.threads[t];
            && s'.threads == s.threads[t := th'] && th'.key == th.key && !AtEdge(th.phase)
            && Bit(s'.createHeld) - Bit(s.createHeld) == Bit(HoldsCreate(th'.phase)) - Bit(HoldsCreate(th.phase))
            && (Counted(th'.phase) <==> Counted(th.phase)) && (Inside(th'.phase) <==> Inside(th.phase))
  {
    hide TableOk;
  }

  lemma MoveAccounted(s: State, t: nat, s': State)
    requires TableOk(s) && t < |s.threads| && ThreadOk(s, s.threads[t]) && Alone(s, t)
    requires LockStep(s, t, s') || UnlockStep(s, t, s')
    requires var p := s.threads[t].phase; !p.Storing? && !p.Pruning? && !WritesMutex(p)
    ensures Accounted(s, t, s') && TableOk(s')
  {
    hide LockStep, UnlockStep, Alone, ThreadOk;
    MoveFrame(s, t, s');
    assert forall k :: Entry(s', k) == Entry(s, k);
  }

  lemma StoreAccounted(s: State, t: nat, s': State)
    requires TableOk(s) && t < |s.threads| && ThreadOk(s, s.threads[t]) && Alone(s, t)
    requires LockStep(s, t, s') && s.threads[t].phase.Storing?
    ensures Accounted(s, t, s') && TableOk(s')
  {
  }

  lemma PruneAccounted(s: State, t: nat, s': State)
    requires TableOk(s) && t < |s.threads| && ThreadOk(s, s.threads[t]) && Alone(s, t)
    requires Entry(s, s.threads[t].key).refCount == 0 ==> !Entry(s, s.threads[t].key).held
    requires UnlockStep(s, t, s') && s.threads[t].phase.Pruning?
    ensures Accounted(s, t, s') && TableOk(s')
  {
  }

  lemma LockStepThread(s: State, t: nat, s': State)
    requires t < |s.threads| && ThreadOk(s, s.threads[t])
    requires LockStep(s, t, s')
    ensures t < |s'.threads| && ThreadOk(s', s'.threads[t])
  {
    hide MutexAt;
  }

  lemma LockStepFrame(s: State, t: nat, s': State)
    requires t < |s.threads| && LockStep(s, t, s')
    ensures |s'.threads| == |s.threads| && s'.threads == s.threads[t := s'.threads[t]] && s'.orders == s.orders
    ensures s'.table == s.table || (s.threads[t].phase.Storing? && s'.table == s.table[s.threads[t].key := |s.heap|])
  {
  }

  lemma LockStepThreads(s: State, t: nat, s': State, u: nat)
    requires TableOk(s) && t < |s.threads| && ThreadOk(s, s.threads[t]) && Alone(s, t)
    requires LockStep(s, t, s')
    requires u < |s.threads| && ThreadOk(s, s.threads[u])
    ensures u < |s'.threads| && ThreadOk(s', s'.threads[u])
  {
    hide LockStep, TableOk;
    if u == t {
      LockStepThread(s, t, s');
    } else {
      LockStepFrame(s, t, s');
    }
  }

  lemma UnlockStepThread(s: State, t: nat, s': State)
    requires t < |s.threads| && ThreadOk(s, s.threads[t]) && Alone(s, t) && TableOk(s)
    requires UnlockStep(s, t, s')
    ensures t < |s'.threads| && ThreadOk(s', s'.threads[t])
  {
  }

  lemma UnlockStepFrame(s: State, t: nat, s': State)
    requires t < |s.threads| && UnlockStep(s, t, s')
    ensures |s'.threads| == |s.threads| && s'.threads == s.threads[t := s'.threads[t]] && s'.orders == s.orders
    ensures s'.table == s.table
            || (s.threads[t].phase.Pruning? && MutexAt(s, s.threads[t].found).refCount == 0 && s'.table == s.table - {s.threads[t].key})
  {
  }

  lemma UnlockStepThreads(s: State, t: nat, s': State, u: nat)
    requires TableOk(s) && t < |s.threads| && ThreadOk(s, s.threads[t]) && Alone(s, t)
    requires UnlockStep(s, t, s')
    requires u < |s.threads| && ThreadOk(s, s.threads[u])
    ensures u < |s'.threads| && ThreadOk(s', s'.threads[u])
  {
    hide UnlockStep, TableOk;
    if u == t {
      UnlockStepThread(s, t, s');
    } else {
      UnlockStepFrame(s, t, s');
    }
  }

  lemma BodyStepAccounted(s: State, t: nat, s': State)
    requires TableOk(s) && t < |s.threads| && ThreadOk(s, s.threads[t]) && OrdersOk(s)
    requires BodyStep(s, t, s')
    ensures Accounted(s, t, s') && TableOk(s') && OrdersOk(s')
  {
    assert s'.table == s.table && s'.heap == s.heap;
    assert forall k :: Entry(s', k) == Entry(s, k);
  }

  lemma BodyStepThreads(s: State, t: nat, s': State, u: nat)
    requires t < |s.threads| && ThreadOk(s, s.threads[t]) && Alone(s, t)
    requires BodyStep(s, t, s')
    requires u < |s.threads| && ThreadOk(s, s.threads[u])
    ensures u < |s'.threads| && ThreadOk(s', s'.threads[u])
  {
  }

  /** A mutex nobody is counted on is not held: whoever is inside is counted. */
  lemma PruningFree(s: State, t: nat)
    requires Inv(s) && t < |s.threads|
    ensures Entry(s, s.threads[t].key).refCount == 0 ==> !Entry(s, s.threads[t].key).held
  {
    var k := s.threads[t].key;
    assert EntryOk(s, k);
    if Entry(s, k).held {
      var u := SumWitness(s.threads, InsideOn(k));
      SumAtLeastOne(s.threads, u, CountedOn(k));
    }
  }

  lemma StepAccounted(s: State, t: nat, s': State)
    requires Inv(s) && ThreadStep(s, t, s')
    ensures Accounted(s, t, s') && TableOk(s') && OrdersOk(s')
  {
    hide Accounted, EntryOk, TableOk;
    var th := s.threads[t];
    assert ThreadOk(s, th);
    InvAlone(s, t);
    if BodyStep(s, t, s') {
      BodyStepAccounted(s, t, s');
    } else if th.phase.Storing? {
      StoreAccounted(s, t, s');
    } else if th.phase.Pruning? {
      PruningFree(s, t);
      PruneAccounted(s, t, s');
    } else if WritesMutex(th.phase) {
      if LockStep(s, t, s') { LockWriteAccounted(s, t, s'); } else { UnlockWriteAccounted(s, t, s'); }
    } else {
      MoveAccounted(s, t, s');
    }
  }

  lemma StepThreads(s: State, t: nat, s': State, u: nat)
    requires Inv(s) && ThreadStep(s, t, s') && u < |s.threads|
    ensures u < |s'.threads| && ThreadOk(s', s'.threads[u])
  {
    hide BodyStep, LockStep, UnlockStep, Alone, ThreadOk, TableOk, EntryOk;
    InvAlone(s, t);
    assert ThreadOk(s, s.threads[t]) && ThreadOk(s, s.threads[u]);
    if BodyStep(s, t, s') {
      BodyStepThreads(s, t, s', u);
    } else if LockStep(s, t, s') {
      LockStepThreads(s, t, s', u);
    } else {
      UnlockStepThreads(s, t, s', u);
    }
  }

  /** Every action of every thread keeps the invariant. */
  lemma ThreadStepInv(s: State, t: nat, s': State)
    requires Inv(s) && ThreadStep(s, t, s')
    ensures Inv(s')
  {
    StepAccounted(s, t, s');
    forall u | 0 <= u < |s'.threads|
      ensures ThreadOk(s', s'.threads[u])
    {
      StepThreads(s, t, s', u);
    }
    AccountedInv(s, t, s');
  }

  lemma CallStepInv(s: State, t: nat, k: Key, s': State)
    requires Inv(s) && CallStep(s, t, k, s')
    ensures Inv(s')
  {
    Moved(s.threads, t, s'.threads[t]);
    forall l: Key
      ensures EntryOk(s', l)
    {
      assert EntryOk(s, l) && Entry(s', l) == Entry(s, l);
      if l in s'.table && Entry(s', l).refCount == 0 {
        var u :| 0 <= u < |s.threads| && s.threads[u].key == l && AtEdge(s.threads[u].phase);
        assert u != t && s'.threads[u] == s.threads[u];
      }
    }
    forall u | 0 <= u < |s'.threads|
      ensures ThreadOk(s', s'.threads[u])
    {
      assert ThreadOk(s, s.threads[u]);
    }
  }

  lemma SpawnStepInv(s: State, th: Thread, s': State)
    requires Inv(s) && SpawnStep(s, th, s')
    ensures Inv(s')
  {
    SumAppend(s.threads, th, CreateWeight());
    forall l: Key
      ensures EntryOk(s', l)
    {
      assert EntryOk(s, l) && Entry(s', l) == Entry(s, l);
      SumAppend(s.threads, th, CountedOn(l));
      SumAppend(s.threads, th, InsideOn(l));
      if l in s'.table && Entry(s', l).refCount == 0 {
        var u :| 0 <= u < |s.threads| && s.threads[u].key == l && AtEdge(s.threads[u].phase);
        assert s'.threads[u] == s.threads[u];
      }
    }
    forall u | 0 <= u < |s'.threads|
      ensures ThreadOk(s', s'.threads[u])
    {
      if u < |s.threads| { assert ThreadOk(s, s.threads[u]); }
    }
  }

  lemma ArrivalStepInv(s: State, s': State)
    requires Inv(s) && ArrivalStep(s, s')
    ensures Inv(s')
  {
    if t: nat, k: Key :| CallStep(s, t, k, s') {
      CallStepInv(s, t, k, s');
    } else if th: Thread :| SpawnStep(s, th, s') {
      SpawnStepInv(s, th, s');
    } else {
      var k: Key, o: Order :| OrderStep(s, k, o, s');
      forall l: Key ensures EntryOk(s', l) { assert EntryOk(s, l); assert Entry(s', l) == Entry(s, l); }
      forall u | 0 <= u < |s'.threads| ensures ThreadOk(s', s'.threads[u]) { assert ThreadOk(s, s.threads[u]); }
    }
  }

  /** The invariant holds in every state of every run. */
  lemma {:induction false} RunInv(run: seq<State>, i: nat)
    requires IsRun(run) && i < |run|
    ensures Inv(run[i])
  {
    if i == 0 {
      InitInv(run[0]);
    } else {
      RunInv(run, i - 1);
      assert Next(run[i - 1], run[i - 1 + 1]);
      if ArrivalStep(run[i - 1], run[i]) {
        ArrivalStepInv(run[i - 1], run[i]);
      } else {
        var t: nat :| ThreadStep(run[i - 1], t, run[i]);
        ThreadStepInv(run[i - 1], t, run[i]);
      }
    }
  }

  // ----- What every run satisfies -----

  /** Mutual exclusion: at most one thread is between lock and unlock for an order,
      and all threads that wait for an order or are inside use one mutex object. */
  lemma MutualExclusion(run: seq<State>, i: nat, t: nat, u: nat)
    requires IsRun(run) && i < |run|
    requires t < |run[i].threads| && u < |run[i].threads| && t != u
    requires run[i].threads[t].key == run[i].threads[u].key
    ensures !(Inside(run[i].threads[t].phase) && Inside(run[i].threads[u].phase))
    ensures Counted(run[i].threads[t].phase) && Counted(run[i].threads[u].phase) ==>
              run[i].threads[t].locked == run[i].threads[u].locked
  {
    RunInv(run, i);
    assert ThreadOk(run[i], run[i].threads[t]) && ThreadOk(run[i], run[i].threads[u]);
    if Inside(run[i].threads[t].phase) { OneInside(run[i], t, u); }
  }

  /** UnlockOrder always finds an entry, and it is the mutex this thread locked and
      still holds: the early return is never taken and no mutex is unlocked twice. */
  lemma UnlockFindsItsMutex(run: seq<State>, i: nat, t: nat)
    requires IsRun(run) && i < |run| && t < |run[i].threads|
    ensures var s, th := run[i], run[i].threads[t];
            && th.phase != Lost && th.phase != Crashed
            && (th.phase == Releasing ==> th.key in s.table && s.table[th.key] == th.locked)
            && (th.phase == Unlocking ==> th.found == th.locked < |s.heap| && s.heap[th.found].held)
  {
    var s, th := run[i], run[i].threads[t];
    RunInv(run, i);
    assert ThreadOk(s, th);
    if Inside(th.phase) { HeldInside(s, t); }
  }

  /** refCount is the number of threads between their increment and their decrement,
      and an order is in the table exactly while some thread is attached to it. */
  lemma TableLifecycle(run: seq<State>, i: nat, k: Key)
    requires IsRun(run) && i < |run|
    ensures var s := run[i];
            && Entry(s, k).refCount == Sum(s.threads, CountedOn(k))
            && (k in s.table <==> exists t :: 0 <= t < |s.threads| && s.threads[t].key == k && Attached(s.threads[t].phase))
            && (!s.createHeld ==> (k in s.table <==> Entry(s, k).refCount > 0))
  {
    var s := run[i];
    RunInv(run, i);
    assert EntryOk(s, k);
    SumNonNegative(s.threads, CountedOn(k));
    if k in s.table {
      if Entry(s, k).refCount == 0 {
        var t: nat :| t < |s.threads| && s.threads[t].key == k && AtEdge(s.threads[t].phase);
        CreatorHolds(s, t);
      } else {
        var t := SumWitness(s.threads, CountedOn(k));
        assert Attached(s.threads[t].phase);
      }
    }
    if t :| 0 <= t < |s.threads| && s.threads[t].key == k && Attached(s.threads[t].phase) {
      assert ThreadOk(s, s.threads[t]);
    }
  }

  /** When every thread is idle the table is empty: no entry is leaked. */
  lemma EmptyWhenIdle(run: seq<State>, i: nat)
    requires IsRun(run) && i < |run|
    requires forall t :: 0 <= t < |run[i].threads| ==> run[i].threads[t].phase == Idle
    ensures run[i].table == map[] && !run[i].createHeld
  {
    var s := run[i];
    forall k | k in s.table
      ensures false
    {
      TableLifecycle(run, i, k);
    }
    RunInv(run, i);
    SumZero(s.threads, CreateWeight());
  }

  /** However many duplicate success callbacks race, an order is completed at most
      once, and exactly once if it is no longer pending. */
  lemma AtMostOnceCompletion(run: seq<State>, i: nat, k: Key)
    requires IsRun(run) && i < |run| && k in run[i].orders
    ensures run[i].orders[k].completions <= 1
    ensures run[i].orders[k].completions == 1 <==> !run[i].orders[k].pending
  {
    RunInv(run, i);
  }

  // ----- Which orders are completed -----

  /** Only Epay orders have been completed, and only they are about to be. */
  ghost predicate EpayOnly(s: State) {
    && (forall k :: k in s.orders && s.orders[k].completions > 0 ==> s.orders[k].epay)
    && (forall t :: 0 <= t < |s.threads| && s.threads[t].phase.Checking? ==>
          s.threads[t].key in s.orders && s.orders[s.threads[t].key].epay)
  }

  lemma LockStepPhase(s: State, t: nat, s': State)
    requires t < |s.threads| && LockStep(s, t, s')
    ensures t < |s'.threads| && !s'.threads[t].phase.Checking?
  {
    hide MutexAt;
  }

  lemma UnlockStepPhase(s: State, t: nat, s': State)
    requires t < |s.threads| && UnlockStep(s, t, s')
    ensures t < |s'.threads| && !s'.threads[t].phase.Checking?
  {
    hide MutexAt;
  }

  lemma BodyStepEpayOnly(s: State, t: nat, s': State)
    requires EpayOnly(s) && t < |s.threads| && BodyStep(s, t, s')
    ensures EpayOnly(s')
  {
    assert s.threads[t].phase.Checking? ==> s.orders[s.threads[t].key].epay;
  }

  lemma ThreadStepEpayOnly(s: State, t: nat, s': State)
    requires EpayOnly(s) && ThreadStep(s, t, s')
    ensures EpayOnly(s')
  {
    hide LockStep, UnlockStep, BodyStep;
    if BodyStep(s, t, s') {
      BodyStepEpayOnly(s, t, s');
    } else if LockStep(s, t, s') {
      LockStepPhase(s, t, s');
      LockStepFrame(s, t, s');
    } else {
      UnlockStepPhase(s, t, s');
      UnlockStepFrame(s, t, s');
    }
  }

  lemma {:induction false} RunEpayOnly(run: seq<State>, i: nat)
    requires IsRun(run) && i < |run|
    ensures EpayOnly(run[i])
  {
    if i > 0 {
      RunEpayOnly(run, i - 1);
      assert Next(run[i - 1], run[i - 1 + 1]);
      if !ArrivalStep(run[i - 1], run[i]) {
        var t: nat :| ThreadStep(run[i - 1], t, run[i]);
        ThreadStepEpayOnly(run[i - 1], t, run[i]);
      }
    }
  }

  /** No order of another payment provider is ever completed by an Epay callback. */
  lemma OnlyEpayCompleted(run: seq<State>, i: nat, k: Key)
    requires IsRun(run) && i < |run| && k in run[i].orders && run[i].orders[k].completions > 0
    ensures run[i].orders[k].epay
  {
    RunEpayOnly(run, i);
  }

  lemma PendingIsUncompleted(s: State, k: Key)
    requires Inv(s) && k in s.orders && s.orders[k].pending
    ensures s.orders[k].completions == 0
  {
  }

  lemma RunExtends(run: seq<State>, t: nat, s': State)
    requires IsRun(run) && ThreadStep(run[|run| - 1], t, s')
    ensures IsRun(run + [s'])
  {
    hide Init, ThreadStep;
    var longer := run + [s'];
    assert SomeThreadSteps(run[|run| - 1], s');
    forall i | 0 <= i < |longer| - 1 ensures Next(longer[i], longer[i + 1]) {
      if i < |run| - 1 { assert Next(run[i], run[i + 1]); }
    }
  }

  /** Every reachable callback that is about to read a pending Epay order can go on to
      complete it: the run has a continuation in which it is completed, exactly once. */
  lemma CanComplete(run: seq<State>, t: nat) returns (more: seq<State>)
    requires IsRun(run) && t < |run[|run| - 1].threads|
    requires var s := run[|run| - 1];
             var th := s.threads[t];
             th.phase == Reading && th.key in s.orders && s.orders[th.key].epay && s.orders[th.key].pending
    ensures IsRun(run + more)
    ensures var k := run[|run| - 1].threads[t].key;
            var s' := (run + more)[|run + more| - 1];
            k in s'.orders && s'.orders[k].completions == 1 && !s'.orders[k].pending
  {
    var s := run[|run| - 1];
    var th := s.threads[t];
    RunInv(run, |run| - 1);
    var o := s.orders[th.key];
    var checking := Goto(s, t, th.(phase := Checking, sawPending := true));
    var done := Goto(checking, t, checking.threads[t].(phase := Releasing))
                .(orders := s.orders[th.key := o.(pending := false, completions := o.completions + 1)]);
    assert BodyStep(s, t, checking);
    assert BodyStep(checking, t, done);
    hide BodyStep, LockStep, UnlockStep, IsRun, Inv;
    RunExtends(run, t, checking);
    RunExtends(run + [checking], t, done);
    more := [checking, done];
    assert run + more == run + [checking] + [done];
    assert o.completions == 0 by { PendingIsUncompleted(s, th.key); }
  }

  // ----- Progress -----

  predicate Blocked(s: State, th: Thread) {
    || ((th.phase.Arriving? || th.phase.Returning?) && s.createHeld)
    || (th.phase.Waiting? && MutexAt(s, th.locked).held)
  }

  /** Only the two mutexes block a thread. */
  lemma CanMove(s: State, t: nat)
    requires t < |s.threads|
    requires var th := s.threads[t];
             th.phase != Idle && th.phase != Lost && th.phase != Crashed && !Blocked(s, th)
    ensures exists s' :: ThreadStep(s, t, s')
  {
    var th := s.threads[t];
    var mu := MutexAt(s, th.locked);
    var mf := MutexAt(s, th.found);
    var s' := match th.phase
      case Arriving => Goto(s, t, th.(phase := Loading)).(createHeld := true)
      case Loading =>
        if th.key in s.table then Goto(s, t, th.(phase := Counting, locked := s.table[th.key]))
        else Goto(s, t, th.(phase := Storing))
      case Storing =>
        Goto(s, t, th.(phase := Counting, locked := |s.heap|))
        .(table := s.table[th.key := |s.heap|], heap := s.heap + [Mutex(0, false)])
      case Counting => Goto(MapMutex(s, th.locked, mu.(refCount := mu.refCount + 1)), t, th.(phase := Leaving))
      case Leaving => Goto(s, t, th.(phase := Waiting)).(createHeld := false)
      case Waiting => Goto(MapMutex(s, th.locked, mu.(held := true)), t, th.(phase := Reading))
      case Reading =>
        if th.key in s.orders && s.orders[th.key].epay
        then Goto(s, t, th.(phase := Checking, sawPending := s.orders[th.key].pending))
        else Goto(s, t, th.(phase := Releasing))
      case Checking => Goto(s, t, th.(phase := Releasing))
      case Releasing =>
        if th.key in s.table then Goto(s, t, th.(phase := Unlocking, found := s.table[th.key]))
        else Goto(s, t, th.(phase := Lost))
      case Unlocking =>
        if mf.held then Goto(MapMutex(s, th.found, mf.(held := false)), t, th.(phase := Returning))
        else Goto(s, t, th.(phase := Crashed))
      case Returning => Goto(s, t, th.(phase := Dropping)).(createHeld := true)
      case Dropping => Goto(MapMutex(s, th.found, mf.(refCount := mf.refCount - 1)), t, th.(phase := Pruning))
      case Pruning =>
        if mf.refCount == 0 then Goto(s, t, th.(phase := Finishing)).(table := s.table - {th.key})
        else Goto(s, t, th.(phase := Finishing))
      case Finishing => Goto(s, t, th.(phase := Idle)).(createHeld := false)
      case _ => s;
    assert ThreadStep(s, t, s');
  }

  /** No deadlock: while some thread is not idle, some thread can act. */
  lemma NoDeadlock(run: seq<State>, i: nat, t: nat)
    requires IsRun(run) && i < |run| && t < |run[i].threads|
    requires run[i].threads[t].phase != Idle
    ensures exists u, s' :: ThreadStep(run[i], u, s')
  {
    var s := run[i];
    RunInv(run, i);
    assert ThreadOk(s, s.threads[t]);
    var u := t;
    if Blocked(s, s.threads[t]) {
      if s.createHeld && !s.threads[t].phase.Waiting? {
        u := SumWitness(s.threads, CreateWeight());
      } else {
        assert EntryOk(s, s.threads[t].key);
        u := SumWitness(s.threads, InsideOn(s.threads[t].key));
      }
    }
    assert ThreadOk(s, s.threads[u]);
    CanMove(s, u);
    var s' :| ThreadStep(s, u, s');
  }

  /** Actions a thread has left until it is idle. */
  function Remaining(p: Phase): nat {
    match p
    case Idle => 0
    case Arriving => 14
    case Loading => 13
    case Storing => 12
    case Counting => 11
    case Leaving => 10
    case Waiting => 9
    case Reading => 8
    case Checking => 7
    case Releasing => 6
    case Unlocking => 5
    case Returning => 4
    case Dropping => 3
    case Pruning => 2
    case Finishing => 1
    case Lost => 0
    case Crashed => 0
  }

  ghost function Work(): Thread -> int {
    (th: Thread) => Remaining(th.phase)
  }

  ghost predicate MovesThread(s: State, t: nat, s': State)
    requires t < |s.threads|
  {
    && |s'.threads| == |s.threads| && s'.threads == s.threads[t := s'.threads[t]]
    && Remaining(s'.threads[t].phase) < Remaining(s.threads[t].phase)
  }

  lemma LockStepMoves(s: State, t: nat, s': State)
    requires t < |s.threads| && LockStep(s, t, s')
    ensures MovesThread(s, t, s')
  {
  }

  lemma BodyStepMoves(s: State, t: nat, s': State)
    requires t < |s.threads| && BodyStep(s, t, s')
    ensures MovesThread(s, t, s')
  {
  }

  lemma UnlockStepMoves(s: State, t: nat, s': State)
    requires t < |s.threads| && UnlockStep(s, t, s')
    ensures MovesThread(s, t, s')
  {
  }

  lemma StepShortensWork(s: State, t: nat, s': State)
    requires ThreadStep(s, t, s')
    ensures Sum(s'.threads, Work()) < Sum(s.threads, Work())
  {
    if LockStep(s, t, s') {
      LockStepMoves(s, t, s');
    } else if BodyStep(s, t, s') {
      BodyStepMoves(s, t, s');
    } else {
      UnlockStepMoves(s, t, s');
    }
    SumUpdate(s.threads, t, s'.threads[t], Work());
  }

  ghost predicate ThreadsOnly(run: seq<State>) {
    forall i :: 0 <= i < |run| - 1 ==> SomeThreadSteps(run[i], run[i + 1])
  }

  /** No livelock: without new callbacks every schedule is finite. */
  lemma {:induction false} SchedulesAreFinite(run: seq<State>)
    requires |run| > 0 && ThreadsOnly(run)
    ensures |run| - 1 <= Sum(run[0].threads, Work())
  {
    SumNonNegative(run[0].threads, Work());
    if |run| > 1 {
      assert SomeThreadSteps(run[0], run[0 + 1]);
      var t: nat :| ThreadStep(run[0], t, run[1]);
      StepShortensWork(run[0], t, run[1]);
      assert ThreadsOnly(run[1..]) by {
        forall i | 0 <= i < |run[1..]| - 1
          ensures SomeThreadSteps(run[1..][i], run[1..][i + 1])
        {
          assert SomeThreadSteps(run[i + 1], run[i + 1 + 1]);
        }
      }
      SchedulesAreFinite(run[1..]);
    }
  }

  /** A reachable state that no thread can leave has only idle threads and an empty
      table; with the bound above, every schedule drains the table. */
  lemma StuckOnlyWhenDrained(run: seq<State>, i: nat)
    requires IsRun(run) && i < |run|
    requires forall u, s' :: !ThreadStep(run[i], u, s')
    ensures run[i].table == map[]
    ensures forall t :: 0 <= t < |run[i].threads| ==> run[i].threads[t].phase == Idle
  {
    forall t | 0 <= t < |run[i].threads|
      ensures run[i].threads[t].phase == Idle
    {
      if run[i].threads[t].phase != Idle { NoDeadlock(run, i, t); }
    }
    EmptyWhenIdle(run, i);
  }
}
