/** Billing of asynchronous video tasks: the quota charged at submission is re-priced
    when a poll reports success and refunded when one reports failure. The poll works
    on the stored task row and the user's balance; every database call may fail. */
module VideoBilling {
  import opened Wrappers

  datatype Status = NotStart | Submitted | Queued | InProgress | Success | Failure | Empty | Unknown

  /** What an upstream answer carries for pricing. */
  datatype Usage = Usage(
    totalTokens: int,
    hasModelName: bool,          // the answer names a model
    modelRatio: Option<real>,    // None: no ratio configured (fixed price)
    group: Option<real>,         // None: no group known; else the group's ratio
    ownGroupRatio: Option<real>) // the group's ratio for itself, when configured

  datatype Result = Result(status: Status, usage: Usage)

  /** Which of the poll's database calls succeed. */
  datatype Env = Env(chargeOk: bool, returnOk: bool, updateOk: bool, refundOk: bool)

  /** The stored task row and the balance of its user. */
  datatype Account = Account(status: Status, quota: int, balance: int)

  // ----- Pricing -----

  function Truncate(x: real): (n: int) {
    if x >= 0.0 then x.Floor else -((-x).Floor)
  }

  /** The quota a success should cost, when the answer allows re-pricing. */
  function ActualQuota(u: Usage): (q: Option<int>) {
    if u.totalTokens > 0 && u.hasModelName && u.modelRatio.Some? && u.modelRatio.value > 0.0 && u.group.Some? then
      var groupRatio := if u.ownGroupRatio.Some? then u.ownGroupRatio.value else u.group.value;
      Some(Truncate(u.totalTokens as real * u.modelRatio.value * groupRatio))
    else None
  }

  /** By how much a success changes the quota of the row: the difference to the actual
      quota, unless the user's balance could not be changed accordingly. */
  function Adjustment(quota: int, u: Usage, env: Env): (delta: int) {
    match ActualQuota(u)
    case None => 0
    case Some(actual) =>
      var delta := actual - quota;
      if delta > 0 then (if env.chargeOk then delta else 0)
      else if delta < 0 then (if env.returnOk then delta else 0)
      else 0
  }

  // ----- One poll -----

  /** An empty upstream status counts as a failure. */
  function Effective(s: Status): (e: Status) {
    if s == Empty then Failure else s
  }

  predicate Known(s: Status) {
    s == Submitted || s == Queued || s == InProgress || s == Success || s == Failure
  }

  /** What a failure gives back: the whole quota, once, and only if the row was stored.
      The balance cannot be increased by a negative amount. */
  function Refund(a: Account, env: Env): (amount: int) {
    if a.quota > 0 && a.status != Failure && env.updateOk && env.refundOk then a.quota else 0
  }

  function PollOn(a: Account, r: Result, env: Env): (a': Account) {
    var status := Effective(r.status);
    if !Known(status) then a
    else
      var delta := if status == Success then Adjustment(a.quota, r.usage, env) else 0;
      var refund := if status == Failure then Refund(a, env) else 0;
      var row := if env.updateOk then a.(status := status, quota := a.quota + delta) else a;
      row.(balance := a.balance - delta + refund)
  }

  class Ledger {
    var status: Status
    var quota: int
    var balance: int

    ghost function Model(): (a: Account)
      reads this
    {
      Account(status, quota, balance)
    }

    constructor (status: Status, quota: int, balance: int)
      ensures Model() == Account(status, quota, balance)
    {
      this.status, this.quota, this.balance := status, quota, balance;
    }

    method DecreaseUserQuota(amount: int, dbOk: bool) returns (ok: bool)
      modifies this`balance
      ensures ok <==> amount >= 0 && dbOk
      ensures balance == if ok then old(balance) - amount else old(balance)
    {
      ok := amount >= 0 && dbOk;
      if ok {
        balance := balance - amount;
      }
    }

    method IncreaseUserQuota(amount: int, dbOk: bool) returns (ok: bool)
      modifies this`balance
      ensures ok <==> amount >= 0 && dbOk
      ensures balance == if ok then old(balance) + amount else old(balance)
    {
      ok := amount >= 0 && dbOk;
      if ok {
        balance := balance + amount;
      }
    }

    /** The status switch of a poll; `task` fields are the in-memory copy of the row. */
    method UpdateVideoSingleTask(result: Result, env: Env) returns (known: bool)
      modifies this
      ensures Model() == PollOn(old(Model()), result, env)
      ensures known <==> Known(Effective(result.status))
    {
      var taskStatus, taskQuota := status, quota;
      var shouldRefund := false;
      var preQuota, preStatus := taskQuota, taskStatus;
      var reported := if result.status == Empty then Failure else result.status;

      taskStatus := reported;
      match reported {
        case Submitted =>
        case Queued =>
        case InProgress =>
        case Success =>
          var actual := ActualQuota(result.usage);
          if actual.Some? {
            var quotaDelta := actual.value - taskQuota;
            if quotaDelta > 0 {
              var ok := DecreaseUserQuota(quotaDelta, env.chargeOk);
              if ok {
                taskQuota := actual.value;
              }
            } else if quotaDelta < 0 {
              var ok := IncreaseUserQuota(-quotaDelta, env.returnOk);
              if ok {
                taskQuota := actual.value;
              }
            }
          }
        case Failure =>
          if preQuota != 0 {
            if preStatus != Failure {
              shouldRefund := true;
            }
          }
        case _ =>
          return false;
      }
      if env.updateOk {
        status, quota := taskStatus, taskQuota;
      } else {
        shouldRefund := false;
      }
      if shouldRefund {
        var _ := IncreaseUserQuota(preQuota, env.refundOk);
      }
      return true;
    }
  }

  // ----- Conservation -----

  /** What the user should have paid in net, going by the row. */
  function Due(a: Account): (amount: int) {
    if a.status == Failure then 0 else a.quota
  }

  /** `start` is the balance before the video job was charged at submission. */
  predicate Conserved(a: Account, start: int) {
    start - a.balance == Due(a)
  }

  /** What a caller can check before a poll: nothing is lost or charged twice. */
  predicate Safe(a: Account, r: Result, env: Env) {
    var status := Effective(r.status);
    if !Known(status) then true
    else if !env.updateOk then status == Success ==> Adjustment(a.quota, r.usage, env) == 0
    else if a.status == Failure then status == Failure || a.quota == 0
    else status == Failure ==> a.quota == 0 || (a.quota > 0 && env.refundOk)
  }

  /** A poll conserves the user's money exactly when it is safe: a row that could not be
      stored must not have been re-priced, a refund must go through, and a task that has
      failed must not come back to life. */
  lemma PollConservesIff(a: Account, start: int, r: Result, env: Env)
    requires Conserved(a, start)
    ensures Conserved(PollOn(a, r, env), start) <==> Safe(a, r, env)
  {
  }

  /** A success prices the answer when it counts tokens, names a model with a positive ratio
      and a group is known. */
  predicate Priced(u: Usage) {
    u.totalTokens > 0 && u.hasModelName && u.modelRatio.Some? && u.modelRatio.value > 0.0 && u.group.Some?
  }

  /** Tokens times model ratio times the group's ratio, its ratio for itself coming first. */
  function Price(u: Usage): (p: real)
    requires Priced(u)
  {
    u.totalTokens as real * u.modelRatio.value * (if u.ownGroupRatio.Some? then u.ownGroupRatio.value else u.group.value)
  }

  /** `q` is `x` without its fraction. */
  predicate WholePart(q: int, x: real) {
    if x >= 0.0 then q as real <= x < q as real + 1.0 else q as real - 1.0 < x <= q as real
  }

  /** A stored success whose balance call goes through leaves the whole part of the price as the
      quota of the row, and the user has paid the difference; one that is not priced changes
      neither, and a failed balance call leaves both as they were. */
  lemma SuccessReprices(a: Account, r: Result, env: Env)
    requires r.status == Success && env.updateOk
    ensures var a' := PollOn(a, r, env);
            && a'.status == Success
            && a'.balance - a.balance == a.quota - a'.quota
            && (!Priced(r.usage) ==> a'.quota == a.quota)
            && (Priced(r.usage) && env.chargeOk && env.returnOk ==> WholePart(a'.quota, Price(r.usage)))
            && (Priced(r.usage) && !env.chargeOk && !env.returnOk ==> a'.quota == a.quota)
  {
  }

  /** A failure, also an empty status, is stored as one and gives the whole quota back, once. */
  lemma FailureRefunds(a: Account, r: Result, env: Env)
    requires (r.status == Failure || r.status == Empty) && env.updateOk && env.refundOk && a.quota >= 0
    ensures var a' := PollOn(a, r, env);
            && a'.status == Failure && a'.quota == a.quota
            && a'.balance == a.balance + (if a.status == Failure then 0 else a.quota)
  {
  }

  /** A report of progress is stored and costs nothing; an unknown status changes nothing. */
  lemma ProgressIsFree(a: Account, r: Result, env: Env)
    requires r.status != Success && r.status != Failure && r.status != Empty
    ensures var a' := PollOn(a, r, env);
            && a'.balance == a.balance && a'.quota == a.quota
            && a'.status == if env.updateOk && (r.status == Submitted || r.status == Queued || r.status == InProgress)
                            then r.status else a.status
  {
  }

  /** When the channel of a task is gone, its row is set to failed in bulk; nobody is
      refunded. */
  function BulkFail(a: Account): (a': Account) {
    a.(status := Failure)
  }

  /** That path loses the charge of every task that was charged and had not failed yet,
      and a later failure poll does not repair it. */
  lemma BulkFailLosesCharge(a: Account, start: int, r: Result, env: Env)
    requires Conserved(a, start) && Effective(r.status) == Failure
    ensures Conserved(BulkFail(a), start) <==> Due(a) == 0
    ensures PollOn(BulkFail(a), r, env).balance == a.balance
  {
  }

  // ----- Runs of polls -----

  datatype Poll = Poll(result: Result, env: Env)

  ghost function RunPolls(a: Account, polls: seq<Poll>): Account {
    if polls == [] then a
    else PollOn(RunPolls(a, polls[..|polls| - 1]), polls[|polls| - 1].result, polls[|polls| - 1].env)
  }

  /** Task rows are stored, refunds of failed tasks go through, and prices are not negative;
      extra charges and returns may fail. */
  ghost predicate Reliable(polls: seq<Poll>) {
    forall i :: 0 <= i < |polls| ==>
      && polls[i].env.updateOk && polls[i].env.refundOk
      && (ActualQuota(polls[i].result.usage).Some? ==> ActualQuota(polls[i].result.usage).value >= 0)
  }

  /** Once a failure has been reported, every later report is a failure too. */
  ghost predicate FailureIsFinal(polls: seq<Poll>) {
    forall i, j :: 0 <= i < j < |polls| && Effective(polls[i].result.status) == Failure
                   && Known(Effective(polls[j].result.status)) ==>
                     Effective(polls[j].result.status) == Failure
  }

  lemma {:induction false} FailedMeansReported(a: Account, polls: seq<Poll>)
    requires a.status != Failure && Reliable(polls)
    ensures RunPolls(a, polls).status == Failure ==>
              exists i :: 0 <= i < |polls| && Effective(polls[i].result.status) == Failure
  {
    if polls != [] {
      var n := |polls| - 1;
      FailedMeansReported(a, polls[..n]);
      if RunPolls(a, polls).status == Failure && Effective(polls[n].result.status) != Failure {
        var i :| 0 <= i < |polls[..n]| && Effective(polls[..n][i].result.status) == Failure;
        assert Effective(polls[i].result.status) == Failure;
      }
    }
  }

  /** Over every sequence of polls of a freshly charged task, the net amount charged is the
      quota on the row, or nothing once the job has failed, even if extra charges fail. */
  lemma {:induction false} RunConserves(a: Account, start: int, polls: seq<Poll>)
    requires a.status != Failure && a.quota >= 0 && Conserved(a, start)
    requires Reliable(polls) && FailureIsFinal(polls)
    ensures Conserved(RunPolls(a, polls), start) && RunPolls(a, polls).quota >= 0
  {
    if polls != [] {
      var n := |polls| - 1;
      RunConserves(a, start, polls[..n]);
      var before := RunPolls(a, polls[..n]);
      if before.status == Failure {
        FailedMeansReported(a, polls[..n]);
        var i :| 0 <= i < |polls[..n]| && Effective(polls[..n][i].result.status) == Failure;
        assert Effective(polls[i].result.status) == Failure;
      }
      PollConservesIff(before, start, polls[n].result, polls[n].env);
    }
  }

  /** Repeating a success report, with every call going through, changes the balance exactly
      when the first report's price adjustment had not gone through. */
  lemma RepeatedSuccess(a: Account, r: Result, env: Env, again: Env)
    requires r.status == Success && env.updateOk
    requires again.chargeOk && again.returnOk && again.updateOk && again.refundOk
    ensures var once := PollOn(a, r, env);
            PollOn(once, r, again).balance == once.balance
            <==> (ActualQuota(r.usage).Some? ==>
                    && (ActualQuota(r.usage).value > a.quota ==> env.chargeOk)
                    && (ActualQuota(r.usage).value < a.quota ==> env.returnOk))
  {
  }
}
