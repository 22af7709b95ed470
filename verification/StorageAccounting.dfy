/** The storage counters under interleaving: any number of threads create and close
    body storages, and every atomic counter operation, lock and availability check is
    a step of its own. Cache clean-up and statistics resets are not steps. */
module StorageAccounting {
  import opened Counting
  import opened DiskCache

  datatype Kind = Disk | Memory

  datatype Storage = Storage(kind: Kind, size: nat, closed: bool, muHeld: bool)

  /** Each phase names the action the thread does next. */
  datatype Phase =
    | Idle
    | CheckStream  // CreateBodyStorageFromReader: availability for the declared length
    | CheckBytes   // CreateBodyStorage: availability for the size
    | Opening      // create and fill the cache file
    | CountUp      // AddInt64(count, 1)
    | SizeUp       // AddInt64(bytes, size), then the storage is returned
    | LockMu       // Close: mu.Lock()
    | Swap         // CompareAndSwap(closed, 0, 1)
    | CountDown    // AddInt64(count, -1)
    | ClampCount   // the count went negative: StoreInt64(count, 0)
    | SizeDown     // AddInt64(bytes, -size)
    | ClampSize    // the bytes went negative: StoreInt64(bytes, 0)
    | UnlockMu     // mu.Unlock()

  /** `declared` is the request's content length; `id` the storage being closed. */
  datatype Thread = Thread(phase: Phase, kind: Kind, size: nat, declared: int, streamed: bool, id: nat)

  datatype Counters = Counters(count: int, bytes: int)

  datatype State = State(disk: Counters, memory: Counters, storages: seq<Storage>, threads: seq<Thread>)

  function Of(s: State, k: Kind): (c: Counters) {
    if k == Disk then s.disk else s.memory
  }

  function WithCounters(s: State, k: Kind, c: Counters): (s': State) {
    if k == Disk then s.(disk := c) else s.(memory := c)
  }

  function Goto(s: State, t: nat, th: Thread): (s': State)
    requires t < |s.threads|
  {
    s.(threads := s.threads[t := th])
  }

  // ----- The steps -----

  predicate Init(s: State) {
    s.disk == Counters(0, 0) && s.memory == Counters(0, 0) && s.storages == []
    && forall t :: 0 <= t < |s.threads| ==> s.threads[t].phase == Idle
  }

  /** One action of a create call. A create may also give up before it counts anything:
      the body is too large, or reading it fails. */
  predicate CreateStep(c: Config, s: State, t: nat, s': State)
    requires t < |s.threads|
  {
    var th := s.threads[t];
    match th.phase
    case CheckStream =>
      || s' == Goto(s, t, th.(phase := Idle))
      || (if c.enabled && th.declared > 0 && th.declared >= c.threshold && Available(c, s.disk.bytes, th.declared)
          then s' == Goto(s, t, th.(phase := Opening, kind := Disk))
          else s' == Goto(s, t, th.(phase := CheckBytes, streamed := false)))
    case CheckBytes =>
      if c.enabled && th.size >= c.threshold && Available(c, s.disk.bytes, th.size)
      then s' == Goto(s, t, th.(phase := Opening, kind := Disk))
      else s' == Goto(s, t, th.(phase := CountUp, kind := Memory))
    case Opening =>
      || s' == Goto(s, t, th.(phase := CountUp))
      || (if th.streamed then s' == Goto(s, t, th.(phase := Idle))
          else s' == Goto(s, t, th.(phase := CountUp, kind := Memory)))
    case CountUp =>
      var n := Of(s, th.kind);
      s' == WithCounters(Goto(s, t, th.(phase := SizeUp)), th.kind, n.(count := n.count + 1))
    case SizeUp =>
      var n := Of(s, th.kind);
      s' == WithCounters(Goto(s, t, th.(phase := Idle)), th.kind, n.(bytes := n.bytes + th.size))
            .(storages := s.storages + [Storage(th.kind, th.size, false, false)])
    case _ => false
  }

  /** One action of a close call. Only the disk counters are clamped. */
  predicate CloseStep(s: State, t: nat, s': State)
    requires t < |s.threads|
  {
    var th := s.threads[t];
    && th.id < |s.storages|
    && var st := s.storages[th.id];
       match th.phase
       case LockMu =>
         !st.muHeld && s' == Goto(s, t, th.(phase := Swap)).(storages := s.storages[th.id := st.(muHeld := true)])
       case Swap =>
         if st.closed then s' == Goto(s, t, th.(phase := UnlockMu))
         else s' == Goto(s, t, th.(phase := CountDown, kind := st.kind, size := st.size))
                    .(storages := s.storages[th.id := st.(closed := true)])
       case CountDown =>
         var n := Of(s, th.kind);
         s' == WithCounters(Goto(s, t, th.(phase := if th.kind == Disk && n.count - 1 < 0 then ClampCount else SizeDown)),
                            th.kind, n.(count := n.count - 1))
       case ClampCount =>
         s' == WithCounters(Goto(s, t, th.(phase := SizeDown)), th.kind, Of(s, th.kind).(count := 0))
       case SizeDown =>
         var n := Of(s, th.kind);
         s' == WithCounters(Goto(s, t, th.(phase := if th.kind == Disk && n.bytes - th.size < 0 then ClampSize else UnlockMu)),
                            th.kind, n.(bytes := n.bytes - th.size))
       case ClampSize =>
         s' == WithCounters(Goto(s, t, th.(phase := UnlockMu)), th.kind, Of(s, th.kind).(bytes := 0))
       case UnlockMu =>
         s' == Goto(s, t, th.(phase := Idle)).(storages := s.storages[th.id := st.(muHeld := false)])
       case _ => false
  }

  /** A call arrives on an idle thread: a create from a reader or from bytes, or a close
      of any storage there has ever been, as often as callers like. */
  predicate CallStep(s: State, t: nat, th: Thread, s': State) {
    && t < |s.threads| && s.threads[t].phase == Idle && s' == Goto(s, t, th)
    && ((th.phase == CheckStream && th.streamed) || (th.phase == CheckBytes && !th.streamed)
        || (th.phase == LockMu && th.id < |s.storages|))
  }

  predicate SpawnStep(s: State, th: Thread, s': State) {
    th.phase == Idle && s' == s.(threads := s.threads + [th])
  }

  ghost predicate Next(c: Config, s: State, s': State) {
    || (exists t: nat :: t < |s.threads| && CreateStep(c, s, t, s'))
    || (exists t: nat :: t < |s.threads| && CloseStep(s, t, s'))
    || (exists t: nat, th: Thread :: CallStep(s, t, th, s'))
    || (exists th: Thread :: SpawnStep(s, th, s'))
  }

  ghost predicate IsRun(c: Config, run: seq<State>) {
    |run| > 0 && Init(run[0])
    && forall i :: 0 <= i < |run| - 1 ==> Next(c, run[i], run[i + 1])
  }

  // ----- The invariant: counters are open storages plus operations under way -----

  ghost function OpenCount(k: Kind): Storage -> int {
    (st: Storage) => if st.kind == k && !st.closed then 1 else 0
  }

  ghost function OpenBytes(k: Kind): Storage -> int {
    (st: Storage) => if st.kind == k && !st.closed then st.size else 0
  }

  /** What a thread has already added, or not yet taken off, beyond the open storages. */
  ghost function PendingCount(k: Kind): Thread -> int {
    (th: Thread) => if th.kind == k && (th.phase == SizeUp || th.phase == CountDown) then 1 else 0
  }

  ghost function PendingBytes(k: Kind): Thread -> int {
    (th: Thread) => if th.kind == k && (th.phase == CountDown || th.phase == SizeDown) then th.size else 0
  }

  ghost predicate Accounted(s: State, k: Kind) {
    && Of(s, k).count == Sum(s.storages, OpenCount(k)) + Sum(s.threads, PendingCount(k))
    && Of(s, k).bytes == Sum(s.storages, OpenBytes(k)) + Sum(s.threads, PendingBytes(k))
  }

  ghost predicate Inv(s: State) {
    && (forall k: Kind :: Accounted(s, k))
    && (forall t :: 0 <= t < |s.threads| ==> s.threads[t].phase != ClampCount && s.threads[t].phase != ClampSize)
  }

  lemma InitInv(s: State)
    requires Init(s)
    ensures Inv(s)
  {
    forall k: Kind
      ensures Accounted(s, k)
    {
      SumZero(s.threads, PendingCount(k));
      SumZero(s.threads, PendingBytes(k));
    }
  }

  /** Before a thread takes its share off a counter, the counter covers it. */
  lemma CounterCovers(s: State, t: nat)
    requires Inv(s) && t < |s.threads|
    ensures var th := s.threads[t];
            && Of(s, th.kind).count >= PendingCount(th.kind)(th)
            && Of(s, th.kind).bytes >= PendingBytes(th.kind)(th)
  {
    var k := s.threads[t].kind;
    assert Accounted(s, k);
    SumNonNegative(s.storages, OpenCount(k));
    SumNonNegative(s.storages, OpenBytes(k));
    SumAtLeastOne(s.threads, t, PendingCount(k));
    SumAtLeastOne(s.threads, t, PendingBytes(k));
  }

  /** What moving a thread does to both kinds' pending sums. */
  lemma ThreadMoves(ts: seq<Thread>, t: nat, th: Thread, k: Kind)
    requires t < |ts|
    ensures Sum(ts[t := th], PendingCount(k)) == Sum(ts, PendingCount(k)) - PendingCount(k)(ts[t]) + PendingCount(k)(th)
    ensures Sum(ts[t := th], PendingBytes(k)) == Sum(ts, PendingBytes(k)) - PendingBytes(k)(ts[t]) + PendingBytes(k)(th)
  {
    SumUpdate(ts, t, th, PendingCount(k));
    SumUpdate(ts, t, th, PendingBytes(k));
  }

  /** The counters of kind `k` move by what thread `t` had pending, what it has pending
      now, and what the open storages gained. */
  ghost predicate Balanced(s: State, t: nat, s': State, k: Kind, openedCount: int, openedBytes: int)
    requires t < |s.threads|
  {
    && |s'.threads| == |s.threads| && s'.threads == s.threads[t := s'.threads[t]]
    && Of(s', k).count - Of(s, k).count
       == openedCount + PendingCount(k)(s'.threads[t]) - PendingCount(k)(s.threads[t])
    && Of(s', k).bytes - Of(s, k).bytes
       == openedBytes + PendingBytes(k)(s'.threads[t]) - PendingBytes(k)(s.threads[t])
  }

  /** Checking and opening only move the thread. */
  lemma DecideBalanced(c: Config, s: State, t: nat, s': State, k: Kind)
    requires t < |s.threads| && CreateStep(c, s, t, s')
    requires s.threads[t].phase != CountUp && s.threads[t].phase != SizeUp
    ensures s'.storages == s.storages && Balanced(s, t, s', k, 0, 0)
    ensures s'.threads[t].phase != ClampCount && s'.threads[t].phase != ClampSize
  {
    assert s' == Goto(s, t, s'.threads[t]);
    assert Of(s', k) == Of(s, k);
  }

  lemma CountUpBalanced(c: Config, s: State, t: nat, s': State, k: Kind)
    requires t < |s.threads| && CreateStep(c, s, t, s') && s.threads[t].phase == CountUp
    ensures s'.storages == s.storages && Balanced(s, t, s', k, 0, 0) && s'.threads[t].phase == SizeUp
  {
  }

  lemma SizeUpBalanced(c: Config, s: State, t: nat, s': State, k: Kind)
    requires t < |s.threads| && CreateStep(c, s, t, s') && s.threads[t].phase == SizeUp
    ensures var made := Storage(s.threads[t].kind, s.threads[t].size, false, false);
            s'.storages == s.storages + [made] && Balanced(s, t, s', k, OpenCount(k)(made), OpenBytes(k)(made))
    ensures s'.threads[t].phase == Idle
  {
  }

  lemma CreateBalanced(c: Config, s: State, t: nat, s': State, k: Kind)
    requires t < |s.threads| && CreateStep(c, s, t, s')
    ensures var th := s.threads[t];
            var made := Storage(th.kind, th.size, false, false);
            if th.phase == SizeUp
            then s'.storages == s.storages + [made] && Balanced(s, t, s', k, OpenCount(k)(made), OpenBytes(k)(made))
            else s'.storages == s.storages && Balanced(s, t, s', k, 0, 0)
    ensures |s'.threads| == |s.threads| && s'.threads[t].phase != ClampCount && s'.threads[t].phase != ClampSize
  {
    hide CreateStep, Of;
    if s.threads[t].phase == SizeUp {
      SizeUpBalanced(c, s, t, s', k);
    } else if s.threads[t].phase == CountUp {
      CountUpBalanced(c, s, t, s', k);
    } else {
      DecideBalanced(c, s, t, s', k);
    }
  }

  predicate TakesOff(p: Phase) {
    p == CountDown || p == SizeDown
  }

  /** Taking a share off a counter that covers it: no clamp, storages untouched. */
  lemma TakeOffBalanced(s: State, t: nat, s': State, k: Kind)
    requires t < |s.threads| && CloseStep(s, t, s') && TakesOff(s.threads[t].phase)
    requires var th := s.threads[t];
             && Of(s, th.kind).count >= PendingCount(th.kind)(th)
             && Of(s, th.kind).bytes >= PendingBytes(th.kind)(th)
    ensures s'.storages == s.storages && Balanced(s, t, s', k, 0, 0)
    ensures s'.threads[t].phase != ClampCount && s'.threads[t].phase != ClampSize
  {
  }

  /** Locking, unlocking and the compare-and-swap leave the counters alone; the swap closes
      an open storage and takes over its kind and size. */
  lemma SwapFrame(s: State, t: nat, s': State)
    requires t < |s.threads| && CloseStep(s, t, s') && !TakesOff(s.threads[t].phase)
    requires s.threads[t].phase != ClampCount && s.threads[t].phase != ClampSize
    ensures s'.disk == s.disk && s'.memory == s.memory
    ensures |s'.threads| == |s.threads| && s'.threads == s.threads[t := s'.threads[t]]
    ensures var th, th', id := s.threads[t], s'.threads[t], s.threads[t].id;
            && id < |s.storages| == |s'.storages| && s'.storages == s.storages[id := s'.storages[id]]
            && var st, st' := s.storages[id], s'.storages[id];
            && st'.kind == st.kind && st'.size == st.size
            && (th.phase == LockMu || th.phase == Swap || th.phase == UnlockMu)
            && th'.phase == (match th.phase case LockMu => Swap case Swap => (if st.closed then UnlockMu else CountDown) case _ => Idle)
            && st'.closed == (st.closed || th.phase == Swap)
            && (th'.phase == CountDown ==> th'.kind == st.kind && th'.size == st.size)
  {
    hide WithCounters, Of;
  }

  /** What the swap closes becomes this thread's to take off. */
  lemma SwapBalanced(s: State, t: nat, s': State, k: Kind)
    requires t < |s.threads| && CloseStep(s, t, s') && !TakesOff(s.threads[t].phase)
    requires s.threads[t].phase != ClampCount && s.threads[t].phase != ClampSize
    ensures var id := s.threads[t].id;
            && id < |s.storages| == |s'.storages| && s'.storages == s.storages[id := s'.storages[id]]
            && Balanced(s, t, s', k, OpenCount(k)(s'.storages[id]) - OpenCount(k)(s.storages[id]),
                        OpenBytes(k)(s'.storages[id]) - OpenBytes(k)(s.storages[id]))
    ensures s'.threads[t].phase != ClampCount && s'.threads[t].phase != ClampSize
  {
    hide CloseStep;
    SwapFrame(s, t, s');
  }

  lemma CloseBalanced(s: State, t: nat, s': State, k: Kind)
    requires t < |s.threads| && CloseStep(s, t, s')
    requires var th := s.threads[t];
             && th.phase != ClampCount && th.phase != ClampSize
             && Of(s, th.kind).count >= PendingCount(th.kind)(th)
             && Of(s, th.kind).bytes >= PendingBytes(th.kind)(th)
    ensures var id := s.threads[t].id;
            && id < |s.storages| == |s'.storages| && s'.storages == s.storages[id := s'.storages[id]]
            && Balanced(s, t, s', k, OpenCount(k)(s'.storages[id]) - OpenCount(k)(s.storages[id]),
                        OpenBytes(k)(s'.storages[id]) - OpenBytes(k)(s.storages[id]))
    ensures s'.threads[t].phase != ClampCount && s'.threads[t].phase != ClampSize
  {
    assert s.threads[t].id < |s.storages|;
    hide CloseStep, Balanced, Of;
    if TakesOff(s.threads[t].phase) {
      TakeOffBalanced(s, t, s', k);
    } else {
      SwapBalanced(s, t, s', k);
    }
  }

  lemma CreateStepInv(c: Config, s: State, t: nat, s': State)
    requires Inv(s) && t < |s.threads| && CreateStep(c, s, t, s')
    ensures Inv(s')
  {
    hide CreateStep, Of;
    var th := s.threads[t];
    var made := Storage(th.kind, th.size, false, false);
    forall k: Kind
      ensures Accounted(s', k)
    {
      assert Accounted(s, k);
      CreateBalanced(c, s, t, s', k);
      ThreadMoves(s.threads, t, s'.threads[t], k);
      SumAppend(s.storages, made, OpenCount(k));
      SumAppend(s.storages, made, OpenBytes(k));
    }
    CreateBalanced(c, s, t, s', Disk);
  }

  lemma CloseStepInv(s: State, t: nat, s': State)
    requires Inv(s) && t < |s.threads| && CloseStep(s, t, s')
    ensures Inv(s')
  {
    hide CloseStep, Of;
    var id := s.threads[t].id;
    CounterCovers(s, t);
    forall k: Kind
      ensures Accounted(s', k)
    {
      assert Accounted(s, k);
      CloseBalanced(s, t, s', k);
      ThreadMoves(s.threads, t, s'.threads[t], k);
      SumUpdate(s.storages, id, s'.storages[id], OpenCount(k));
      SumUpdate(s.storages, id, s'.storages[id], OpenBytes(k));
    }
    CloseBalanced(s, t, s', Disk);
  }

  lemma CallStepInv(s: State, t: nat, th: Thread, s': State)
    requires Inv(s) && CallStep(s, t, th, s')
    ensures Inv(s')
  {
    forall k: Kind
      ensures Accounted(s', k)
    {
      assert Accounted(s, k);
      ThreadMoves(s.threads, t, th, k);
    }
  }

  lemma SpawnStepInv(s: State, th: Thread, s': State)
    requires Inv(s) && SpawnStep(s, th, s')
    ensures Inv(s')
  {
    forall k: Kind
      ensures Accounted(s', k)
    {
      assert Accounted(s, k);
      SumAppend(s.threads, th, PendingCount(k));
      SumAppend(s.threads, th, PendingBytes(k));
    }
  }

  lemma {:induction false} RunInv(c: Config, run: seq<State>, i: nat)
    requires IsRun(c, run) && i < |run|
    ensures Inv(run[i])
  {
    if i == 0 {
      InitInv(run[0]);
    } else {
      var s, s' := run[i - 1], run[i - 1 + 1];
      RunInv(c, run, i - 1);
      assert Next(c, s, s');
      if t: nat :| t < |s.threads| && CreateStep(c, s, t, s') {
        CreateStepInv(c, s, t, s');
      } else if t: nat :| t < |s.threads| && CloseStep(s, t, s') {
        CloseStepInv(s, t, s');
      } else if t: nat, th: Thread :| CallStep(s, t, th, s') {
        CallStepInv(s, t, th, s');
      } else {
        var th: Thread :| SpawnStep(s, th, s');
        SpawnStepInv(s, th, s');
      }
    }
  }

  // ----- What every run satisfies -----

  /** Whenever no create or close is under way, each pair of counters is exactly the
      number and total size of the open storages of its kind. */
  lemma QuiescentCountersExact(c: Config, run: seq<State>, i: nat, k: Kind)
    requires IsRun(c, run) && i < |run|
    requires forall t :: 0 <= t < |run[i].threads| ==> run[i].threads[t].phase == Idle
    ensures Of(run[i], k).count == Sum(run[i].storages, OpenCount(k))
    ensures Of(run[i], k).bytes == Sum(run[i].storages, OpenBytes(k))
  {
    RunInv(c, run, i);
    assert Accounted(run[i], k);
    SumZero(run[i].threads, PendingCount(k));
    SumZero(run[i].threads, PendingBytes(k));
  }

  /** No counter is ever negative and no clamp ever fires, in any interleaving and however
      often storages are closed. */
  lemma CountersNeverNegative(c: Config, run: seq<State>, i: nat, k: Kind)
    requires IsRun(c, run) && i < |run|
    ensures Of(run[i], k).count >= 0 && Of(run[i], k).bytes >= 0
    ensures forall t :: 0 <= t < |run[i].threads| ==>
              run[i].threads[t].phase != ClampCount && run[i].threads[t].phase != ClampSize
  {
    RunInv(c, run, i);
    assert Accounted(run[i], k);
    SumNonNegative(run[i].storages, OpenCount(k));
    SumNonNegative(run[i].storages, OpenBytes(k));
    SumNonNegative(run[i].threads, PendingCount(k));
    SumNonNegative(run[i].threads, PendingBytes(k));
  }

  // ----- What a call achieves -----

  lemma RunExtends(c: Config, run: seq<State>, s': State)
    requires IsRun(c, run) && Next(c, run[|run| - 1], s')
    ensures IsRun(c, run + [s'])
  {
    hide Next, Init;
    var longer := run + [s'];
    forall i | 0 <= i < |longer| - 1 ensures Next(c, longer[i], longer[i + 1]) {
      if i < |run| - 1 { assert Next(c, run[i], run[i + 1]); }
    }
  }

  lemma CreateExtends(c: Config, run: seq<State>, t: nat, s': State)
    requires IsRun(c, run) && t < |run[|run| - 1].threads| && CreateStep(c, run[|run| - 1], t, s')
    ensures IsRun(c, run + [s'])
  {
    hide CreateStep, Init;
    assert Next(c, run[|run| - 1], s');
    RunExtends(c, run, s');
  }

  lemma CloseExtends(c: Config, run: seq<State>, t: nat, s': State)
    requires IsRun(c, run) && t < |run[|run| - 1].threads| && CloseStep(run[|run| - 1], t, s')
    ensures IsRun(c, run + [s'])
  {
    hide CloseStep, Init;
    assert Next(c, run[|run| - 1], s');
    RunExtends(c, run, s');
  }

  lemma CallExtends(c: Config, run: seq<State>, t: nat, th: Thread, s': State)
    requires IsRun(c, run) && CallStep(run[|run| - 1], t, th, s')
    ensures IsRun(c, run + [s'])
  {
    hide CallStep, Init;
    assert Next(c, run[|run| - 1], s');
    RunExtends(c, run, s');
  }

  /** A body goes to disk when the cache is on, it is not below the threshold and it fits
      beside what is there; otherwise it stays in memory. */
  function Medium(c: Config, usage: int, size: nat): (k: Kind) {
    if c.enabled && size >= c.threshold && usage + size <= c.limit then Disk else Memory
  }

  /** One more open storage of that kind and size, counted as such, and nothing else. */
  ghost predicate StoredOne(s: State, s': State, k: Kind, size: nat) {
    && s'.storages == s.storages + [Storage(k, size, false, false)]
    && s'.disk == (if k == Disk then Counters(s.disk.count + 1, s.disk.bytes + size) else s.disk)
    && s'.memory == (if k == Memory then Counters(s.memory.count + 1, s.memory.bytes + size) else s.memory)
  }

  lemma CountingStores(c: Config, run: seq<State>, t: nat) returns (more: seq<State>)
    requires IsRun(c, run) && t < |run[|run| - 1].threads| && run[|run| - 1].threads[t].phase == CountUp
    ensures IsRun(c, run + more) && more != []
    ensures var s := run[|run| - 1]; StoredOne(s, more[|more| - 1], s.threads[t].kind, s.threads[t].size)
  {
    var s := run[|run| - 1];
    var th := s.threads[t];
    var n := Of(s, th.kind);
    var counted := WithCounters(Goto(s, t, th.(phase := SizeUp)), th.kind, n.(count := n.count + 1));
    var n' := Of(counted, th.kind);
    var stored := WithCounters(Goto(counted, t, counted.threads[t].(phase := Idle)), th.kind, n'.(bytes := n'.bytes + th.size))
                  .(storages := s.storages + [Storage(th.kind, th.size, false, false)]);
    assert CreateStep(c, s, t, counted);
    assert CreateStep(c, counted, t, stored);
    hide IsRun, CreateStep;
    CreateExtends(c, run, t, counted);
    CreateExtends(c, run + [counted], t, stored);
    more := [counted, stored];
    assert run + more == run + [counted] + [stored];
  }

  /** From every reachable state an idle thread can create a storage for a body of any size,
      which is then open, of the right kind, and counted. */
  lemma CreateStores(c: Config, run: seq<State>, t: nat, size: nat) returns (more: seq<State>)
    requires IsRun(c, run) && t < |run[|run| - 1].threads| && run[|run| - 1].threads[t].phase == Idle
    ensures IsRun(c, run + more) && more != []
    ensures var s := run[|run| - 1]; StoredOne(s, more[|more| - 1], Medium(c, s.disk.bytes, size), size)
  {
    var s := run[|run| - 1];
    var k := Medium(c, s.disk.bytes, size);
    var call := s.threads[t].(phase := CheckBytes, size := size, streamed := false);
    var called := Goto(s, t, call);
    var first := Goto(called, t, call.(phase := if k == Disk then Opening else CountUp, kind := k));
    var ready := Goto(first, t, first.threads[t].(phase := CountUp));
    assert CallStep(s, t, call, called);
    assert CreateStep(c, called, t, first);
    assert k == Disk ==> CreateStep(c, first, t, ready);
    assert k == Memory ==> ready == first;
    hide IsRun, CreateStep, CallStep;
    CallExtends(c, run, t, call, called);
    CreateExtends(c, run + [called], t, first);
    var sofar := if k == Disk then [called, first, ready] else [called, first];
    assert IsRun(c, run + sofar) by {
      assert run + [called] + [first] == run + [called, first];
      if k == Disk {
        CreateExtends(c, run + [called] + [first], t, ready);
        assert run + [called] + [first] + [ready] == run + sofar;
      }
    }
    var rest := CountingStores(c, run + sofar, t);
    more := sofar + rest;
    assert run + more == run + sofar + rest;
  }

  /** One storage closed and its share taken off, and nothing else. */
  ghost predicate ReleasedOne(s: State, s': State, id: nat)
    requires id < |s.storages|
  {
    var st := s.storages[id];
    && s'.storages == s.storages[id := st.(closed := true)]
    && s'.disk == (if st.kind == Disk then Counters(s.disk.count - 1, s.disk.bytes - st.size) else s.disk)
    && s'.memory == (if st.kind == Memory then Counters(s.memory.count - 1, s.memory.bytes - st.size) else s.memory)
  }

  lemma OpenIsCovered(s: State, id: nat)
    requires Inv(s) && id < |s.storages| && !s.storages[id].closed
    ensures Of(s, s.storages[id].kind).count >= 1 && Of(s, s.storages[id].kind).bytes >= s.storages[id].size
  {
    var k := s.storages[id].kind;
    assert Accounted(s, k);
    var closed := s.storages[id].(closed := true);
    SumUpdate(s.storages, id, closed, OpenCount(k));
    SumUpdate(s.storages, id, closed, OpenBytes(k));
    SumNonNegative(s.storages[id := closed], OpenCount(k));
    SumNonNegative(s.storages[id := closed], OpenBytes(k));
    SumNonNegative(s.threads, PendingCount(k));
    SumNonNegative(s.threads, PendingBytes(k));
  }

  /** The state after each action of a close. */
  function Closing(s: State, t: nat, id: nat, i: nat): (s': State)
    requires t < |s.threads| && id < |s.storages|
  {
    var st := s.storages[id];
    var call := s.threads[t].(phase := LockMu, id := id);
    var n := Of(s, st.kind);
    var closer := call.(kind := st.kind, size := st.size);
    if i == 0 then s
    else if i == 1 then Goto(s, t, call)
    else if i == 2 then Goto(s, t, call.(phase := Swap)).(storages := s.storages[id := st.(muHeld := true)])
    else if i == 3 then Goto(s, t, closer.(phase := CountDown)).(storages := s.storages[id := st.(muHeld := true, closed := true)])
    else if i == 4 then
      WithCounters(Goto(s, t, closer.(phase := SizeDown)), st.kind, n.(count := n.count - 1))
      .(storages := s.storages[id := st.(muHeld := true, closed := true)])
    else if i == 5 then
      WithCounters(Goto(s, t, closer.(phase := UnlockMu)), st.kind, Counters(n.count - 1, n.bytes - st.size))
      .(storages := s.storages[id := st.(muHeld := true, closed := true)])
    else
      WithCounters(Goto(s, t, closer.(phase := Idle)), st.kind, Counters(n.count - 1, n.bytes - st.size))
      .(storages := s.storages[id := st.(muHeld := false, closed := true)])
  }

  lemma ClosingSteps(s: State, t: nat, id: nat, i: nat)
    requires t < |s.threads| && id < |s.storages| && 1 <= i <= 5
    requires !s.storages[id].closed && !s.storages[id].muHeld
    requires Of(s, s.storages[id].kind).count >= 1 && Of(s, s.storages[id].kind).bytes >= s.storages[id].size
    ensures CloseStep(Closing(s, t, id, i), t, Closing(s, t, id, i + 1))
  {
  }

  /** From every reachable state an idle thread can close an open storage nobody else is
      closing; its share is then off the counters. */
  lemma CloseReleases(c: Config, run: seq<State>, t: nat, id: nat) returns (more: seq<State>)
    requires IsRun(c, run) && t < |run[|run| - 1].threads| && run[|run| - 1].threads[t].phase == Idle
    requires var s := run[|run| - 1]; id < |s.storages| && !s.storages[id].closed && !s.storages[id].muHeld
    ensures IsRun(c, run + more) && more != []
    ensures ReleasedOne(run[|run| - 1], more[|more| - 1], id)
  {
    var s := run[|run| - 1];
    RunInv(c, run, |run| - 1);
    OpenIsCovered(s, id);
    var called := Closing(s, t, id, 1);
    assert CallStep(s, t, called.threads[t], called);
    CallExtends(c, run, t, called.threads[t], called);
    more := [called];
    assert ReleasedOne(s, Closing(s, t, id, 6), id);
    hide IsRun, CloseStep, CallStep, Inv, Of, ReleasedOne;
    for i := 1 to 6
      invariant more != [] && more[|more| - 1] == Closing(s, t, id, i)
      invariant IsRun(c, run + more)
    {
      ClosingSteps(s, t, id, i);
      assert |Closing(s, t, id, i).threads| == |s.threads|;
      CloseExtends(c, run + more, t, Closing(s, t, id, i + 1));
      assert run + more + [Closing(s, t, id, i + 1)] == run + (more + [Closing(s, t, id, i + 1)]);
      more := more + [Closing(s, t, id, i + 1)];
    }
  }

  // ----- The disk limit -----

  predicate Creating(p: Phase) {
    p == CheckStream || p == CheckBytes || p == Opening || p == CountUp || p == SizeUp
  }

  /** Creates are serial: at most one thread is creating. */
  ghost predicate Serial(s: State) {
    forall t, u | 0 <= t < |s.threads| && 0 <= u < |s.threads| && t != u ::
      !(Creating(s.threads[t].phase) && Creating(s.threads[u].phase))
  }

  /** No streamed body is longer than its declared length. */
  ghost predicate Honest(s: State) {
    forall t :: 0 <= t < |s.threads| && s.threads[t].phase == CheckStream ==>
      s.threads[t].size <= s.threads[t].declared
  }

  /** Bytes a create has been granted on disk but not yet added to the counter. */
  ghost function Granted(): Thread -> int {
    (th: Thread) =>
      if th.kind == Disk && (th.phase == Opening || th.phase == CountUp || th.phase == SizeUp) then th.size else 0
  }

  ghost predicate WithinLimit(c: Config, s: State) {
    s.disk.bytes + Sum(s.threads, Granted()) <= if c.limit > 0 then c.limit else 0
  }

  lemma SoleCreator(s: State, t: nat)
    requires t < |s.threads| && Serial(s) && Creating(s.threads[t].phase)
    ensures Sum(s.threads, Granted()) == Granted()(s.threads[t])
  {
    var idle := s.threads[t].(phase := Idle);
    var others := s.threads[t := idle];
    SumUpdate(s.threads, t, idle, Granted());
    assert forall u :: 0 <= u < |others| ==> !Creating(others[u].phase);
    SumZero(others, Granted());
  }

  lemma CreateWithinLimit(c: Config, s: State, t: nat, s': State)
    requires Inv(s) && Serial(s) && Honest(s) && WithinLimit(c, s)
    requires t < |s.threads| && CreateStep(c, s, t, s')
    ensures WithinLimit(c, s')
  {
    SumUpdate(s.threads, t, s'.threads[t], Granted());
    SoleCreator(s, t);
  }

  lemma CloseNeverGrows(s: State, t: nat, s': State)
    requires t < |s.threads| && CloseStep(s, t, s')
    requires s.threads[t].phase != ClampCount && s.threads[t].phase != ClampSize
    ensures s'.disk.bytes <= s.disk.bytes
    ensures |s'.threads| == |s.threads| && s'.threads == s.threads[t := s'.threads[t]]
    ensures Granted()(s'.threads[t]) == Granted()(s.threads[t])
  {
  }

  lemma CloseWithinLimit(c: Config, s: State, t: nat, s': State)
    requires Inv(s) && WithinLimit(c, s)
    requires t < |s.threads| && CloseStep(s, t, s')
    ensures WithinLimit(c, s')
  {
    hide CloseStep;
    CloseNeverGrows(s, t, s');
    SumUpdate(s.threads, t, s'.threads[t], Granted());
  }

  /** With serial creates and honest content lengths, disk usage never exceeds the limit,
      whatever closes run beside the creates. */
  lemma {:induction false} DiskUsageWithinLimit(c: Config, run: seq<State>, i: nat)
    requires IsRun(c, run) && i < |run|
    requires forall j :: 0 <= j <= i ==> Serial(run[j]) && Honest(run[j])
    ensures WithinLimit(c, run[i])
    ensures run[i].disk.bytes <= if c.limit > 0 then c.limit else 0
  {
    SumNonNegative(run[i].threads, Granted());
    if i == 0 {
      SumZero(run[0].threads, Granted());
    } else {
      var s, s' := run[i - 1], run[i - 1 + 1];
      DiskUsageWithinLimit(c, run, i - 1);
      RunInv(c, run, i - 1);
      assert Next(c, s, s');
      hide CreateStep, CloseStep, Inv, Serial, Honest;
      if t: nat :| t < |s.threads| && CreateStep(c, s, t, s') {
        CreateWithinLimit(c, s, t, s');
      } else if t: nat :| t < |s.threads| && CloseStep(s, t, s') {
        CloseWithinLimit(c, s, t, s');
      } else if t: nat, th: Thread :| CallStep(s, t, th, s') {
        SumUpdate(s.threads, t, th, Granted());
      } else {
        var th: Thread :| SpawnStep(s, th, s');
        SumAppend(s.threads, th, Granted());
      }
    }
  }

  // ----- When the limit holds -----

  ghost function CreatingWeight(): Thread -> int {
    (th: Thread) => if Creating(th.phase) then 1 else 0
  }

  /** A run up to `i` in which at most `n` threads create at once and, if asked for, content
      lengths are honest. */
  ghost predicate Allowed(c: Config, run: seq<State>, i: nat, n: nat, honest: bool) {
    && IsRun(c, run) && i < |run|
    && (forall j :: 0 <= j <= i ==> Sum(run[j].threads, CreatingWeight()) <= n)
    && (honest ==> forall j :: 0 <= j <= i ==> Honest(run[j]))
  }

  /** No such run ever has more on disk than the limit. */
  ghost predicate KeepsLimit(c: Config, n: nat, honest: bool) {
    forall run: seq<State>, i: nat :: Allowed(c, run, i, n, honest) ==> run[i].disk.bytes <= if c.limit > 0 then c.limit else 0
  }

  /** Nothing of positive size ever goes to disk: the cache is off, there is no room, or
      only bodies beyond the limit would go there. */
  predicate NoRoom(c: Config) {
    !c.enabled || c.limit <= 0 || c.threshold > c.limit
  }

  lemma AtMostOneIsSerial(s: State)
    requires Sum(s.threads, CreatingWeight()) <= 1
    ensures Serial(s)
  {
    forall t: nat, u: nat | t < u < |s.threads|
      ensures !(Creating(s.threads[t].phase) && Creating(s.threads[u].phase))
    {
      if Creating(s.threads[t].phase) && Creating(s.threads[u].phase) {
        SumAtLeastTwo(s.threads, t, u, CreatingWeight());
      }
    }
  }

  lemma NoneIsHonest(s: State)
    requires Sum(s.threads, CreatingWeight()) <= 0
    ensures Honest(s)
  {
    forall t: nat | t < |s.threads| ensures s.threads[t].phase != CheckStream {
      if s.threads[t].phase == CheckStream { SumAtLeastOne(s.threads, t, CreatingWeight()); }
    }
  }

  /** Nothing is on disk, and nothing of positive size is on its way there. */
  ghost predicate DiskEmpty(s: State) {
    s.disk.bytes == 0 && forall t :: 0 <= t < |s.threads| ==> Granted()(s.threads[t]) == 0
  }

  lemma NoRoomCreateStep(c: Config, s: State, t: nat, s': State)
    requires NoRoom(c) && DiskEmpty(s) && t < |s.threads| && CreateStep(c, s, t, s')
    ensures DiskEmpty(s')
  {
    assert Granted()(s.threads[t]) == 0;
  }

  lemma {:induction false} NoRoomRun(c: Config, run: seq<State>, i: nat)
    requires NoRoom(c) && IsRun(c, run) && i < |run|
    ensures DiskEmpty(run[i])
  {
    if i > 0 {
      var s, s' := run[i - 1], run[i - 1 + 1];
      NoRoomRun(c, run, i - 1);
      RunInv(c, run, i - 1);
      CountersNeverNegative(c, run, i, Disk);
      assert Next(c, s, s');
      hide CreateStep, CloseStep, Inv, Of;
      if t: nat :| t < |s.threads| && CreateStep(c, s, t, s') {
        NoRoomCreateStep(c, s, t, s');
      } else if t: nat :| t < |s.threads| && CloseStep(s, t, s') {
        CountersNeverNegative(c, run, i - 1, Disk);
        CloseNeverGrows(s, t, s');
      }
    }
  }

  // ----- Runs that exceed it -----

  /** The states of a race: both threads check, then both create. */
  ghost function Race(limit: nat, i: nat): State {
    var p := if i == 0 then Idle else if i <= 2 then CheckBytes else if i <= 4 then Opening
             else if i == 5 then CountUp else if i == 6 then SizeUp else Idle;
    var q := if i <= 1 then Idle else if i <= 3 then CheckBytes else if i <= 7 then Opening
             else if i == 8 then CountUp else if i == 9 then SizeUp else Idle;
    var one := Storage(Disk, limit, false, false);
    State(Counters(if i <= 5 then 0 else if i <= 8 then 1 else 2, if i <= 6 then 0 else if i <= 9 then limit else 2 * limit),
          Counters(0, 0),
          if i <= 6 then [] else if i <= 9 then [one] else [one, one],
          [Thread(p, Disk, limit, limit, false, 0), Thread(q, Disk, limit, limit, false, 0)])
  }

  lemma RaceStep(c: Config, i: nat)
    requires !NoRoom(c) && i < 10
    ensures Next(c, Race(c.limit, i), Race(c.limit, i + 1))
  {
    var s, s' := Race(c.limit, i), Race(c.limit, i + 1);
    if i < 2 {
      assert CallStep(s, i, s'.threads[i], s');
    } else {
      var t := if i == 2 || 4 <= i <= 6 then 0 else 1;
      assert CreateStep(c, s, t, s');
    }
  }

  lemma RaceAllowed(limit: nat, i: nat)
    ensures Sum(Race(limit, i).threads, CreatingWeight()) <= 2 && Honest(Race(limit, i))
  {
    var ts := Race(limit, i).threads;
    assert ts == [] + [ts[0]] + [ts[1]];
    SumAppend([], ts[0], CreatingWeight());
    SumAppend([] + [ts[0]], ts[1], CreatingWeight());
  }

  /** Under every config with room, two creates that both check before either counts end
      with twice the limit on disk. */
  lemma RaceExceedsLimit(c: Config) returns (run: seq<State>)
    requires !NoRoom(c)
    ensures |run| == 11 && Allowed(c, run, 10, 2, true) && run[10].disk.bytes == 2 * c.limit
  {
    hide Next, Honest;
    run := seq(11, i requires 0 <= i => Race(c.limit, i));
    forall i | 0 <= i < |run| - 1
      ensures Next(c, run[i], run[i + 1])
    {
      RaceStep(c, i);
    }
    forall i | 0 <= i < |run| ensures Sum(run[i].threads, CreatingWeight()) <= 2 && Honest(run[i]) {
      RaceAllowed(c.limit, i);
    }
  }

  /** One streamed create whose body is one byte longer than its declared length. */
  ghost function Overrun(limit: nat, i: nat): State {
    var p := if i == 0 then Idle else if i == 1 then CheckStream else if i == 2 then Opening
             else if i == 3 then CountUp else if i == 4 then SizeUp else Idle;
    State(Counters(if i <= 3 then 0 else 1, if i <= 4 then 0 else limit + 1), Counters(0, 0),
          if i <= 4 then [] else [Storage(Disk, limit + 1, false, false)],
          [Thread(p, Disk, limit + 1, limit, true, 0)])
  }

  lemma OverrunStep(c: Config, i: nat)
    requires !NoRoom(c) && i < 5
    ensures Next(c, Overrun(c.limit, i), Overrun(c.limit, i + 1))
  {
    var s, s' := Overrun(c.limit, i), Overrun(c.limit, i + 1);
    if i == 0 {
      assert CallStep(s, 0, s'.threads[0], s');
    } else {
      assert CreateStep(c, s, 0, s');
    }
  }

  /** Under every config with room, a single create whose body is longer than declared ends
      above the limit. */
  lemma OverrunExceedsLimit(c: Config) returns (run: seq<State>)
    requires !NoRoom(c)
    ensures |run| == 6 && Allowed(c, run, 5, 1, false) && run[5].disk.bytes == c.limit + 1
  {
    hide Next, Honest;
    run := seq(6, i requires 0 <= i => Overrun(c.limit, i));
    forall i | 0 <= i < |run| - 1
      ensures Next(c, run[i], run[i + 1])
    {
      OverrunStep(c, i);
    }
    forall i | 0 <= i < |run| ensures Sum(run[i].threads, CreatingWeight()) <= 1 {
      assert run[i].threads == [] + [run[i].threads[0]];
      SumAppend([], run[i].threads[0], CreatingWeight());
    }
  }

  lemma KeptBySerial(c: Config, n: nat, honest: bool)
    requires n == 0 || (n == 1 && honest)
    ensures KeepsLimit(c, n, honest)
  {
    hide IsRun, Serial, Honest;
    forall run: seq<State>, i: nat | Allowed(c, run, i, n, honest)
      ensures run[i].disk.bytes <= if c.limit > 0 then c.limit else 0
    {
      forall j | 0 <= j <= i ensures Serial(run[j]) && Honest(run[j]) {
        AtMostOneIsSerial(run[j]);
        if n == 0 { NoneIsHonest(run[j]); }
      }
      DiskUsageWithinLimit(c, run, i);
    }
  }

  /** The limit holds over every run if and only if nothing goes to disk anyway, or creates
      are serial and content lengths honest, or nothing is created at all. */
  lemma LimitIff(c: Config, n: nat, honest: bool)
    ensures KeepsLimit(c, n, honest) <==> NoRoom(c) || n == 0 || (n == 1 && honest)
  {
    hide IsRun, Honest;
    if NoRoom(c) {
      forall run: seq<State>, i: nat | Allowed(c, run, i, n, honest)
        ensures run[i].disk.bytes <= if c.limit > 0 then c.limit else 0
      {
        NoRoomRun(c, run, i);
      }
    } else if n == 0 || (n == 1 && honest) {
      KeptBySerial(c, n, honest);
    } else if n == 1 || !honest {
      var run := OverrunExceedsLimit(c);
      assert Allowed(c, run, 5, n, honest);
    } else {
      var run := RaceExceedsLimit(c);
      assert Allowed(c, run, 10, n, honest);
    }
  }
}
