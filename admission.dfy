/**
 * The executor's admission logic as a pure state machine. A state records the registry of
 * task classes, the admitted (running) tasks with the quota each holds, the wait queue, and
 * the elastic slots that were taken without admitting a task. The free slots of a quota are
 * not stored: they are its value minus the slots held by running tasks and the slots lost,
 * which is the conservation law the executor keeps.
 */
module Admission {
  import opened Exceptions
  import opened Quotas

  /** The class of a Runnable: the key quotas are registered under. */
  type TaskClass = string

  /** A submitted Runnable: its class and an identity. */
  datatype Task = Task(cls: TaskClass, id: nat)

  datatype Policy = Optimism | Pessimism

  /** The submitter registered for a class, bound to its reserve and elastic quotas. */
  datatype Submitter = Submitter(reserve: Quota, elastic: Quota)

  /** A `ComparableTask` in the wait queue. */
  datatype Queued = Queued(task: Task, key: int)

  /** A task handed to the worker pool (its `Decorator`) with the quota it must give back. */
  datatype Admitted = Admitted(task: Task, quota: Quota)

  datatype Sched = Sched(
    policy: Policy,
    threadSize: int,
    reserved: int,
    registry: map<TaskClass, Submitter>,
    running: seq<Admitted>,
    queue: multiset<Queued>,
    leaked: multiset<Quota>,    // elastic slots acquired by a submission that was then queued
    reserves: seq<Quota>,       // reserve quotas of every successful registration, in order
    pool: set<Quota>)           // every quota of every successful registration

  const MaxInt: int := 0x7fff_ffff

  const NoResource := "No resource for reserve"
  const NoneReserve := "None-reserve task will never be executed in pessimism."
  const Unquotaed := "Unquotaed task can not be executed in pessimism."

  // ---------------------------------------------------------------------------
  // Counting

  /** Number of running tasks holding a slot of q. */
  function HeldBy(running: seq<Admitted>, q: Quota): nat {
    if running == [] then 0
    else HeldBy(running[..|running| - 1], q) + (if running[|running| - 1].quota == q then 1 else 0)
  }

  /** Free slots of q in state s. */
  function Remaining(s: Sched, q: Quota): int {
    q.value - HeldBy(s.running, q) - s.leaked[q]
  }

  /** Sum of the values of the quotas in qs. */
  function SumValues(qs: seq<Quota>): int {
    if qs == [] then 0 else SumValues(qs[..|qs| - 1]) + qs[|qs| - 1].value
  }

  predicate Distinct(qs: seq<Quota>) {
    forall i, j :: 0 <= i < j < |qs| ==> qs[i] != qs[j]
  }

  function Tasks(running: seq<Admitted>): (ts: seq<Task>)
    ensures |ts| == |running|
    ensures forall i :: 0 <= i < |running| ==> ts[i] == running[i].task
  {
    if running == [] then [] else Tasks(running[..|running| - 1]) + [running[|running| - 1].task]
  }

  function RemoveAt<T>(s: seq<T>, i: nat): seq<T>
    requires i < |s|
  {
    s[..i] + s[i + 1..]
  }

  lemma {:induction false} HeldByConcat(a: seq<Admitted>, b: seq<Admitted>, q: Quota)
    ensures HeldBy(a + b, q) == HeldBy(a, q) + HeldBy(b, q)
  {
    if b != [] {
      HeldByConcat(a, b[..|b| - 1], q);
      assert (a + b)[..|a + b| - 1] == a + b[..|b| - 1];
    } else {
      assert a + b == a;
    }
  }

  /** Admitting a task takes one slot of its quota and no other. */
  lemma HeldBySnoc(running: seq<Admitted>, a: Admitted, q: Quota)
    ensures HeldBy(running + [a], q) == HeldBy(running, q) + (if a.quota == q then 1 else 0)
  {
    assert (running + [a])[..|running|] == running;
  }

  /** Completing the task at i gives back one slot of its quota and no other. */
  lemma HeldByRemove(running: seq<Admitted>, i: nat, q: Quota)
    requires i < |running|
    ensures HeldBy(running, q) == HeldBy(RemoveAt(running, i), q) + (if running[i].quota == q then 1 else 0)
  {
    assert running == running[..i] + [running[i]] + running[i + 1..];
    HeldByConcat(running[..i] + [running[i]], running[i + 1..], q);
    HeldByConcat(running[..i], running[i + 1..], q);
    HeldBySnoc(running[..i], running[i], q);
  }

  lemma {:induction false} HeldByMember(running: seq<Admitted>, q: Quota)
    requires HeldBy(running, q) > 0
    ensures exists i :: 0 <= i < |running| && running[i].quota == q
  {
    var last := |running| - 1;
    if running[last].quota != q {
      HeldByMember(running[..last], q);
      var i :| 0 <= i < last && running[..last][i].quota == q;
      assert running[i].quota == q;
    }
  }

  // ---------------------------------------------------------------------------
  // The invariant

  /** Registration bookkeeping: the reserved tally is the sum of the registered reserves and
      stays within the pool; every quota reachable from the state was registered. */
  ghost predicate Bookkeeping(s: Sched) {
    && 0 < s.threadSize <= MaxInt
    && 0 <= s.reserved <= s.threadSize
    && s.reserved == SumValues(s.reserves)
    && Distinct(s.reserves)
    && (forall i :: 0 <= i < |s.reserves| ==> s.reserves[i] in s.pool)
    && (forall c :: c in s.registry ==> s.registry[c].reserve in s.reserves && s.registry[c].elastic in s.pool)
    && (forall i :: 0 <= i < |s.running| ==> s.running[i].quota in s.pool)
    && (forall q :: q in s.leaked ==> q in s.pool)
  }

  /** Conservation: every registered quota has between 0 and value free slots. */
  ghost predicate Conserved(s: Sched) {
    forall q :: q in s.pool ==> 0 <= q.value && 0 <= Remaining(s, q)
  }

  /** What each policy admits and queues. */
  ghost predicate PolicyShape(s: Sched) {
    match s.policy
    case Pessimism =>
      && s.leaked == multiset{}
      && (forall c :: c in s.registry ==> s.registry[c].reserve.value > 0)
      && (forall i :: 0 <= i < |s.running| ==> s.running[i].quota in s.reserves)
      && (forall e :: e in s.queue ==> e.task.cls in s.registry && 0 < e.key <= s.threadSize)
    case Optimism =>
      forall e :: e in s.queue ==> e.key == -1 || e.key == 0
  }

  ghost predicate Inv(s: Sched) {
    Bookkeeping(s) && Conserved(s) && PolicyShape(s)
  }

  /** A new executor: nothing registered, running or queued. */
  function Initial(threadSize: int, policy: Policy): Sched {
    Sched(policy, threadSize, 0, map[], [], multiset{}, multiset{}, [], {})
  }

  lemma InitialInv(threadSize: int, policy: Policy)
    requires 0 < threadSize <= MaxInt
    ensures Inv(Initial(threadSize, policy))
  {
  }

  // ---------------------------------------------------------------------------
  // Transitions

  /** `quota(cls, reserve, elastic)`: refuses a reserve larger than the unreserved threads;
      otherwise adds it to the tally, and then (under PESSIMISM) refuses a zero reserve. */
  function Register(s: Sched, cls: TaskClass, reserve: Quota, elastic: Quota): (r: (Outcome, Sched))
    ensures r.1.policy == s.policy && r.1.threadSize == s.threadSize
    ensures r.1.running == s.running && r.1.queue == s.queue && r.1.leaked == s.leaked
  {
    if reserve.value > s.threadSize - s.reserved then
      (Fail(IllegalArgument(NoResource)), s)
    else
      var tallied := s.(reserved := s.reserved + reserve.value);
      if s.policy == Pessimism && reserve.value == 0 then
        (Fail(IllegalArgument(NoneReserve)), tallied)
      else
        (Pass, Bound(s, cls, reserve, elastic))
  }

  /** `execute(task)`: the registered submitter of the task's class, or the policy's default. */
  function Execute(s: Sched, task: Task): (r: (Outcome, Sched))
    ensures r.1.policy == s.policy && r.1.threadSize == s.threadSize && r.1.reserved == s.reserved
    ensures r.1.registry == s.registry && r.1.reserves == s.reserves && r.1.pool == s.pool
  {
    if task.cls !in s.registry then
      match s.policy
      case Pessimism => (Fail(RejectedExecution(Unquotaed)), s)
      case Optimism => (Pass, s.(queue := s.queue + multiset{Queued(task, -1)}))
    else
      var sub := s.registry[task.cls];
      if Remaining(s, sub.reserve) > 0 then
        (Pass, s.(running := s.running + [Admitted(task, sub.reserve)]))
      else
        match s.policy
        case Pessimism => (Pass, s.(queue := s.queue + multiset{Queued(task, sub.reserve.value)}))
        case Optimism =>
          if Remaining(s, sub.elastic) > 0 && s.threadSize > s.reserved then
            (Pass, s.(running := s.running + [Admitted(task, sub.elastic)]))
          else if Remaining(s, sub.elastic) > 0 then
            (Pass, s.(queue := s.queue + multiset{Queued(task, 0)}, leaked := s.leaked + multiset{sub.elastic}))
          else
            (Pass, s.(queue := s.queue + multiset{Queued(task, 0)}))
  }

  /** The `finally` of `Decorator.run`, first half: the task at i gives its slot back. */
  function Release(s: Sched, i: nat): (t: Sched)
    requires i < |s.running|
    ensures t == s.(running := t.running)
    ensures |t.running| == |s.running| - 1
    ensures multiset(t.running) + multiset{s.running[i]} == multiset(s.running)
  {
    assert s.running == s.running[..i] + [s.running[i]] + s.running[i + 1..];
    s.(running := RemoveAt(s.running, i))
  }

  /** e has a smallest key among the queued tasks: what `PriorityBlockingQueue.take()` returns
      under `compareTo` = `quota - o.quota`. */
  predicate IsHead(e: Queued, queue: multiset<Queued>) {
    e in queue && forall o :: o in queue ==> e.key <= o.key
  }

  /** A completion: release, then (when something is queued) take the head `next` and send
      it through `execute` again. */
  function Complete(s: Sched, i: nat, next: Option<Queued>): (r: (Outcome, Sched))
    requires i < |s.running|
    ensures r.1.registry == s.registry && r.1.reserved == s.reserved && r.1.pool == s.pool
  {
    var released := Release(s, i);
    match next
    case None => (Pass, released)
    case Some(e) => Execute(released.(queue := released.queue - multiset{e}), e.task)
  }

  // ---------------------------------------------------------------------------
  // The invariant is kept

  lemma RemainingAfterAdmit(s: Sched, a: Admitted)
    ensures forall q :: Remaining(s.(running := s.running + [a]), q) == Remaining(s, q) - (if a.quota == q then 1 else 0)
  {
    forall q ensures Remaining(s.(running := s.running + [a]), q) == Remaining(s, q) - (if a.quota == q then 1 else 0) {
      HeldBySnoc(s.running, a, q);
    }
  }

  /** Losing the slots in lost takes them from their quotas and from no other. */
  lemma RemainingAfterLoss(s: Sched, t: Sched, lost: multiset<Quota>)
    requires t.running == s.running && t.leaked == s.leaked + lost
    ensures forall q :: Remaining(t, q) == Remaining(s, q) - lost[q]
  {
  }

  lemma RemainingAfterRelease(s: Sched, i: nat)
    requires i < |s.running|
    ensures forall q :: Remaining(Release(s, i), q) == Remaining(s, q) + (if s.running[i].quota == q then 1 else 0)
  {
    forall q ensures Remaining(Release(s, i), q) == Remaining(s, q) + (if s.running[i].quota == q then 1 else 0) {
      HeldByRemove(s.running, i, q);
    }
  }

  lemma {:induction false} ValueAtMostSum(qs: seq<Quota>, i: nat)
    requires i < |qs|
    requires forall k :: 0 <= k < |qs| ==> qs[k].value >= 0
    ensures qs[i].value <= SumValues(qs)
  {
    if i < |qs| - 1 {
      ValueAtMostSum(qs[..|qs| - 1], i);
    } else {
      SumNonNegative(qs[..|qs| - 1]);
    }
  }

  lemma {:induction false} SumNonNegative(qs: seq<Quota>)
    requires forall k :: 0 <= k < |qs| ==> qs[k].value >= 0
    ensures SumValues(qs) >= 0
  {
    if qs != [] {
      SumNonNegative(qs[..|qs| - 1]);
    }
  }

  /** Under the invariant every registered reserve fits in the pool. */
  lemma ReserveWithinPool(s: Sched, c: TaskClass)
    requires Inv(s) && c in s.registry
    ensures 0 <= s.registry[c].reserve.value <= s.threadSize
  {
    var r := s.registry[c].reserve;
    var i :| 0 <= i < |s.reserves| && s.reserves[i] == r;
    forall k | 0 <= k < |s.reserves| ensures s.reserves[k].value >= 0 {
      assert s.reserves[k] in s.pool;
    }
    ValueAtMostSum(s.reserves, i);
  }

  /** Admitting a task on a registered quota with a free slot keeps the invariant. */
  lemma AdmitKeepsInv(s: Sched, a: Admitted)
    requires Inv(s) && a.quota in s.pool && Remaining(s, a.quota) > 0
    requires s.policy == Pessimism ==> a.quota in s.reserves
    ensures Inv(s.(running := s.running + [a]))
  {
    var t := s.(running := s.running + [a]);
    RemainingAfterAdmit(s, a);
    assert Bookkeeping(t);
    assert Conserved(t);
    assert PolicyShape(t);
  }

  /** Queueing a task (and possibly losing an elastic slot) keeps the invariant when the key
      fits the policy. */
  lemma EnqueueKeepsInv(s: Sched, e: Queued, lost: multiset<Quota>)
    requires Inv(s)
    requires s.policy == Pessimism ==> lost == multiset{} && e.task.cls in s.registry && 0 < e.key <= s.threadSize
    requires s.policy == Optimism ==> e.key == -1 || e.key == 0
    requires forall q :: q in lost ==> q in s.pool && Remaining(s, q) >= lost[q]
    ensures Inv(s.(queue := s.queue + multiset{e}, leaked := s.leaked + lost))
  {
    var t := s.(queue := s.queue + multiset{e}, leaked := s.leaked + lost);
    assert Bookkeeping(t);
    forall q | q in t.pool ensures 0 <= q.value && 0 <= Remaining(t, q) {
      assert Remaining(t, q) == Remaining(s, q) - lost[q];
    }
    assert PolicyShape(t);
  }

  /** The state a successful `quota(...)` leaves. */
  function Bound(s: Sched, cls: TaskClass, reserve: Quota, elastic: Quota): Sched {
    s.(reserved := s.reserved + reserve.value,
       registry := s.registry[cls := Submitter(reserve, elastic)],
       reserves := s.reserves + [reserve],
       pool := s.pool + {reserve, elastic})
  }

  lemma BindKeepsReserves(s: Sched, cls: TaskClass, reserve: Quota, elastic: Quota)
    requires Bookkeeping(s) && reserve !in s.pool
    ensures var t := Bound(s, cls, reserve, elastic);
      t.reserved == SumValues(t.reserves) && Distinct(t.reserves)
  {
    var t := Bound(s, cls, reserve, elastic);
    assert t.reserves[..|t.reserves| - 1] == s.reserves;
    assert t.reserved == SumValues(t.reserves);
    forall i, j | 0 <= i < j < |t.reserves| ensures t.reserves[i] != t.reserves[j] {
      if j == |s.reserves| {
        assert t.reserves[i] == s.reserves[i] && s.reserves[i] in s.pool;
      }
    }
  }

  lemma BindKeepsMembership(s: Sched, cls: TaskClass, reserve: Quota, elastic: Quota)
    requires Bookkeeping(s)
    ensures var t := Bound(s, cls, reserve, elastic);
      && (forall i :: 0 <= i < |t.reserves| ==> t.reserves[i] in t.pool)
      && (forall c :: c in t.registry ==> t.registry[c].reserve in t.reserves && t.registry[c].elastic in t.pool)
  {
    var t := Bound(s, cls, reserve, elastic);
    forall i | 0 <= i < |t.reserves| ensures t.reserves[i] in t.pool {
      if i < |s.reserves| {
        assert t.reserves[i] == s.reserves[i];
      }
    }
    forall c | c in t.registry
      ensures t.registry[c].reserve in t.reserves && t.registry[c].elastic in t.pool
    {
      if c != cls {
        assert t.registry[c] == s.registry[c];
        assert s.registry[c].reserve in s.reserves;
      } else {
        assert t.reserves[|s.reserves|] == reserve;
      }
    }
  }

  lemma BindKeepsBookkeeping(s: Sched, cls: TaskClass, reserve: Quota, elastic: Quota)
    requires Bookkeeping(s) && reserve !in s.pool && reserve.value >= 0
    requires reserve.value <= s.threadSize - s.reserved
    ensures Bookkeeping(Bound(s, cls, reserve, elastic))
  {
    BindKeepsReserves(s, cls, reserve, elastic);
    BindKeepsMembership(s, cls, reserve, elastic);
  }

  lemma BindKeepsPolicyShape(s: Sched, cls: TaskClass, reserve: Quota, elastic: Quota)
    requires PolicyShape(s)
    requires s.policy == Pessimism ==> reserve.value > 0
    ensures PolicyShape(Bound(s, cls, reserve, elastic))
  {
    var t := Bound(s, cls, reserve, elastic);
    if s.policy == Pessimism {
      forall c | c in t.registry ensures t.registry[c].reserve.value > 0 {
        if c != cls {
          assert t.registry[c] == s.registry[c];
        }
      }
      forall i | 0 <= i < |t.running| ensures t.running[i].quota in t.reserves {
        assert s.running[i].quota in s.reserves;
      }
    }
  }

  lemma BindKeepsConserved(s: Sched, cls: TaskClass, reserve: Quota, elastic: Quota)
    requires Inv(s) && reserve !in s.pool && elastic !in s.pool
    requires reserve.value >= 0 && elastic.value >= 0
    ensures Conserved(Bound(s, cls, reserve, elastic))
  {
    var t := Bound(s, cls, reserve, elastic);
    assert s.leaked + multiset{} == s.leaked;
    RemainingAfterLoss(s, t, multiset{});
    UntouchedQuotaIsFree(s, reserve);
    UntouchedQuotaIsFree(s, elastic);
  }

  /** A registration with fresh, distinct quotas keeps the invariant. */
  lemma RegisterKeepsInv(s: Sched, cls: TaskClass, reserve: Quota, elastic: Quota)
    requires Inv(s)
    requires reserve != elastic && reserve !in s.pool && elastic !in s.pool
    requires reserve.value >= 0 && elastic.value >= 0
    ensures Inv(Register(s, cls, reserve, elastic).1)
  {
    if reserve.value <= s.threadSize - s.reserved && !(s.policy == Pessimism && reserve.value == 0) {
      var t := Bound(s, cls, reserve, elastic);
      assert Register(s, cls, reserve, elastic).1 == t;
      BindKeepsBookkeeping(s, cls, reserve, elastic);
      BindKeepsConserved(s, cls, reserve, elastic);
      BindKeepsPolicyShape(s, cls, reserve, elastic);
    } else if reserve.value <= s.threadSize - s.reserved {
      assert Register(s, cls, reserve, elastic).1 == s;
    }
  }

  /** `quota(...)` refuses a reserve larger than the unreserved threads and then changes
      nothing; otherwise it adds the reserve to the tally even when PESSIMISM goes on to refuse
      a zero reserve. Only a successful call binds the class. Nothing runs or is queued. */
  lemma RegisterOutcome(s: Sched, cls: TaskClass, reserve: Quota, elastic: Quota)
    ensures var r := Register(s, cls, reserve, elastic);
      && (r.0 == Fail(IllegalArgument(NoResource)) <==> reserve.value > s.threadSize - s.reserved)
      && (r.0 == Fail(IllegalArgument(NoResource)) ==> r.1 == s)
      && (r.0 != Fail(IllegalArgument(NoResource)) ==> r.1.reserved == s.reserved + reserve.value)
      && (r.0.Pass? <==> reserve.value <= s.threadSize - s.reserved && !(s.policy == Pessimism && reserve.value == 0))
      && (r.0.Pass? ==> r.1.registry == s.registry[cls := Submitter(reserve, elastic)])
      && (r.0.Fail? ==> r.1.registry == s.registry)
    ensures reserve.value <= s.threadSize - s.reserved && s.policy == Pessimism && reserve.value == 0 ==>
      Register(s, cls, reserve, elastic) == (Fail(IllegalArgument(NoneReserve)), s)
  {
  }

  /** `execute` fails only for an unregistered class under PESSIMISM, and then changes
      nothing; otherwise the task is either admitted or queued, never dropped, and no lost
      slot is recovered. */
  lemma ExecuteAccountsForTask(s: Sched, task: Task)
    ensures Execute(s, task).0.Fail? <==> s.policy == Pessimism && task.cls !in s.registry
    ensures Execute(s, task).0.Fail? ==> Execute(s, task).1 == s
    ensures Execute(s, task).0.Pass? ==>
      |Execute(s, task).1.running| + |Execute(s, task).1.queue| == |s.running| + |s.queue| + 1
    ensures Execute(s, task).0.Pass? ==>
      || (exists q :: Execute(s, task).1.running == s.running + [Admitted(task, q)]
                      && Execute(s, task).1.queue == s.queue)
      || (exists k :: Execute(s, task).1.queue == s.queue + multiset{Queued(task, k)}
                      && Execute(s, task).1.running == s.running)
    ensures s.leaked <= Execute(s, task).1.leaked
  {
    var t := Execute(s, task).1;
    if task.cls !in s.registry {
      if s.policy == Optimism {
        assert t.queue == s.queue + multiset{Queued(task, -1)} && t.running == s.running;
      }
    } else {
      var sub := s.registry[task.cls];
      if Remaining(s, sub.reserve) > 0 {
        assert t.running == s.running + [Admitted(task, sub.reserve)] && t.queue == s.queue;
      } else if s.policy == Pessimism {
        assert t.queue == s.queue + multiset{Queued(task, sub.reserve.value)} && t.running == s.running;
      } else if Remaining(s, sub.elastic) > 0 && s.threadSize > s.reserved {
        assert t.running == s.running + [Admitted(task, sub.elastic)] && t.queue == s.queue;
      } else {
        assert t.queue == s.queue + multiset{Queued(task, 0)} && t.running == s.running;
      }
    }
  }

  /** Taking a task out of the queue keeps the invariant. */
  lemma DequeueKeepsInv(s: Sched, e: Queued)
    requires Inv(s)
    ensures Inv(s.(queue := s.queue - multiset{e}))
  {
    var t := s.(queue := s.queue - multiset{e});
    assert forall q :: Remaining(t, q) == Remaining(s, q);
    assert PolicyShape(t);
  }

  /** Every submission keeps the invariant. */
  lemma ExecuteKeepsInv(s: Sched, task: Task)
    requires Inv(s)
    ensures Inv(Execute(s, task).1)
  {
    if task.cls !in s.registry {
      if s.policy == Optimism {
        EnqueueKeepsInv(s, Queued(task, -1), multiset{});
        assert s.leaked + multiset{} == s.leaked;
      }
    } else {
      var sub := s.registry[task.cls];
      ReserveWithinPool(s, task.cls);
      if Remaining(s, sub.reserve) > 0 {
        AdmitKeepsInv(s, Admitted(task, sub.reserve));
      } else if s.policy == Pessimism {
        EnqueueKeepsInv(s, Queued(task, sub.reserve.value), multiset{});
        assert s.leaked + multiset{} == s.leaked;
      } else if Remaining(s, sub.elastic) > 0 && s.threadSize > s.reserved {
        AdmitKeepsInv(s, Admitted(task, sub.elastic));
      } else if Remaining(s, sub.elastic) > 0 {
        EnqueueKeepsInv(s, Queued(task, 0), multiset{sub.elastic});
      } else {
        EnqueueKeepsInv(s, Queued(task, 0), multiset{});
        assert s.leaked + multiset{} == s.leaked;
      }
    }
  }

  /** The release half of a completion keeps the invariant. */
  lemma ReleaseKeepsInv(s: Sched, i: nat)
    requires Inv(s) && i < |s.running|
    ensures Inv(Release(s, i))
  {
    RemainingAfterRelease(s, i);
    var t := Release(s, i);
    forall k | 0 <= k < |t.running| ensures t.running[k] in s.running[..i] + s.running[i + 1..] {
    }
    assert forall k :: 0 <= k < |t.running| ==> t.running[k] in s.running;
    assert Bookkeeping(t);
    assert PolicyShape(t);
  }

  /** A completion keeps the invariant, whatever it takes from the queue. */
  lemma CompleteKeepsInv(s: Sched, i: nat, next: Option<Queued>)
    requires Inv(s) && i < |s.running|
    requires next.Some? ==> next.value in s.queue
    ensures Inv(Complete(s, i, next).1)
  {
    ReleaseKeepsInv(s, i);
    if next.Some? {
      var t := Release(s, i);
      ExecuteKeepsInv(t.(queue := t.queue - multiset{next.value}), next.value.task);
    }
  }

  // ---------------------------------------------------------------------------
  // Properties of the two policies

  /** A registered quota not yet held or lost by anyone has all its slots free. */
  lemma UntouchedQuotaIsFree(s: Sched, q: Quota)
    requires Bookkeeping(s) && q !in s.pool
    ensures Remaining(s, q) == q.value
  {
    if HeldBy(s.running, q) > 0 {
      HeldByMember(s.running, q);
    }
  }

  /** `quota(...)` keeps `0 <= reserved <= threadSize`, whatever it is given. */
  lemma ReservedWithinThreads(s: Sched, cls: TaskClass, reserve: Quota, elastic: Quota)
    requires Inv(s) && reserve.value >= 0
    ensures 0 <= Register(s, cls, reserve, elastic).1.reserved <= s.threadSize
    ensures s.reserved <= Register(s, cls, reserve, elastic).1.reserved
  {
  }

  /** The wait queue always has a smallest key to hand out. */
  lemma {:induction false} MinKeyExists(queue: multiset<Queued>)
    requires queue != multiset{}
    ensures exists e :: IsHead(e, queue)
    decreases |queue|
  {
    var x :| x in queue;
    var rest := queue - multiset{x};
    assert queue == rest + multiset{x};
    if rest == multiset{} {
      assert queue == multiset{x};
      assert IsHead(x, queue);
    } else {
      MinKeyExists(rest);
      var h :| IsHead(h, rest);
      var m := if x.key <= h.key then x else h;
      forall o | o in queue ensures m.key <= o.key {
        if o != x {
          assert o in rest;
        }
      }
      assert IsHead(m, queue);
    }
  }

  /** The quota of a running task always has a slot to give back, so the decorator's
      `release()` never reports an invalid release. */
  lemma ReleaseSucceeds(s: Sched, i: nat)
    requires Inv(s) && i < |s.running|
    ensures Remaining(s, s.running[i].quota) < s.running[i].quota.value
  {
    HeldByRemove(s.running, i, s.running[i].quota);
  }

  /** Under PESSIMISM a task taken from the queue is never rejected when it is executed again:
      only registered classes are queued. */
  lemma ResubmissionNeverRejected(s: Sched, e: Queued)
    requires Inv(s) && s.policy == Pessimism && e in s.queue
    ensures Execute(s.(queue := s.queue - multiset{e}), e.task).0 == Pass
  {
  }

  /** Occurrences of q in qs. */
  function Occ(qs: seq<Quota>, q: Quota): nat {
    if qs == [] then 0 else Occ(qs[..|qs| - 1], q) + (if qs[|qs| - 1] == q then 1 else 0)
  }

  /** Slots held by the running tasks, summed over the quotas qs. */
  function SumHeld(running: seq<Admitted>, qs: seq<Quota>): nat {
    if qs == [] then 0 else SumHeld(running, qs[..|qs| - 1]) + HeldBy(running, qs[|qs| - 1])
  }

  lemma {:induction false} SumHeldSnoc(running: seq<Admitted>, a: Admitted, qs: seq<Quota>)
    ensures SumHeld(running + [a], qs) == SumHeld(running, qs) + Occ(qs, a.quota)
  {
    if qs != [] {
      SumHeldSnoc(running, a, qs[..|qs| - 1]);
      HeldBySnoc(running, a, qs[|qs| - 1]);
    }
  }

  lemma {:induction false} OccDistinct(qs: seq<Quota>, q: Quota)
    requires Distinct(qs)
    ensures Occ(qs, q) == if q in qs then 1 else 0
  {
    if qs != [] {
      var init := qs[..|qs| - 1];
      OccDistinct(init, q);
      assert q in qs <==> q in init || q == qs[|qs| - 1];
    }
  }

  /** When every running task holds one of the distinct quotas qs, summing the holders of
      each quota counts every running task once. */
  lemma {:induction false} CountRunning(running: seq<Admitted>, qs: seq<Quota>)
    requires Distinct(qs)
    requires forall i :: 0 <= i < |running| ==> running[i].quota in qs
    ensures SumHeld(running, qs) == |running|
  {
    if running == [] {
      SumHeldEmpty(qs);
    } else {
      var init := running[..|running| - 1];
      var last := running[|running| - 1];
      assert running == init + [last];
      CountRunning(init, qs);
      SumHeldSnoc(init, last, qs);
      OccDistinct(qs, last.quota);
    }
  }

  lemma {:induction false} SumHeldEmpty(qs: seq<Quota>)
    ensures SumHeld([], qs) == 0
  {
    if qs != [] {
      SumHeldEmpty(qs[..|qs| - 1]);
    }
  }

  lemma {:induction false} SumHeldBound(running: seq<Admitted>, qs: seq<Quota>)
    requires forall i :: 0 <= i < |qs| ==> HeldBy(running, qs[i]) <= qs[i].value
    ensures SumHeld(running, qs) <= SumValues(qs)
  {
    if qs != [] {
      SumHeldBound(running, qs[..|qs| - 1]);
    }
  }

  /** Under PESSIMISM at most `reserved` tasks are handed to the pool at any time, and
      `reserved` is at most the pool size. */
  lemma PessimismBound(s: Sched)
    requires Inv(s) && s.policy == Pessimism
    ensures |s.running| <= s.reserved <= s.threadSize
  {
    CountRunning(s.running, s.reserves);
    forall i | 0 <= i < |s.reserves| ensures HeldBy(s.running, s.reserves[i]) <= s.reserves[i].value {
      assert s.reserves[i] in s.pool;
    }
    SumHeldBound(s.running, s.reserves);
  }

  /** The OPTIMISM elastic leak: with the reserve used up and the elastic quota free, a class
      submitted while every thread is reserved takes an elastic slot, is queued anyway, and the
      slot is gone: nothing running holds it and no completion will give it back. */
  lemma ElasticSlotLeaks(s: Sched, task: Task)
    requires Inv(s) && s.policy == Optimism && task.cls in s.registry
    requires Remaining(s, s.registry[task.cls].reserve) == 0
    requires Remaining(s, s.registry[task.cls].elastic) > 0
    requires s.threadSize <= s.reserved
    ensures var t := Execute(s, task).1;
      && t.running == s.running
      && t.queue == s.queue + multiset{Queued(task, 0)}
      && Remaining(t, s.registry[task.cls].elastic) == Remaining(s, s.registry[task.cls].elastic) - 1
      && t.leaked[s.registry[task.cls].elastic] == s.leaked[s.registry[task.cls].elastic] + 1
  {
  }

  /** A completion never gives a lost slot back. */
  lemma LeaksAreNeverReturned(s: Sched, i: nat, next: Option<Queued>)
    requires i < |s.running|
    ensures s.leaked <= Complete(s, i, next).1.leaked
  {
    if next.Some? {
      var r := Release(s, i);
      ExecuteAccountsForTask(r.(queue := r.queue - multiset{next.value}), next.value.task);
    }
  }

  /** `compareTo` as Java computes it: the key difference, wrapped to 32 bits. */
  function CompareTo(a: Queued, b: Queued): (c: int)
    ensures -0x8000_0000 <= c <= MaxInt
    ensures -0x8000_0000 <= a.key - b.key <= MaxInt ==> c == a.key - b.key
  {
    Wrap32(a.key - b.key)
  }

  function Wrap32(x: int): int {
    (x + 0x8000_0000) % 0x1_0000_0000 - 0x8000_0000
  }

  /** The keys a queue can hold never make `compareTo` overflow, so the queue's order is the
      order of the keys. */
  lemma CompareToOrdersKeys(s: Sched, a: Queued, b: Queued)
    requires Inv(s) && a in s.queue && b in s.queue
    ensures CompareTo(a, b) < 0 <==> a.key < b.key
    ensures CompareTo(a, b) == 0 <==> a.key == b.key
  {
    assert -1 <= a.key <= MaxInt && -1 <= b.key <= MaxInt;
  }

  /** Under OPTIMISM the unregistered tasks (key -1) leave the queue before any quota-bearing
      task (key 0). */
  lemma UnregisteredDrainFirst(s: Sched, e: Queued, t: Task)
    requires Inv(s) && s.policy == Optimism && IsHead(e, s.queue) && Queued(t, -1) in s.queue
    ensures e.key == -1
  {
  }

  /** Under OPTIMISM a completion that takes an unregistered task puts it straight back with
      key -1 and admits nothing: the queue is as before, so while such a task waits no
      quota-bearing task is ever taken from the queue. */
  lemma QueueStuckBehindUnregistered(s: Sched, i: nat, e: Queued)
    requires Inv(s) && s.policy == Optimism && i < |s.running|
    requires IsHead(e, s.queue) && e.key == -1 && e.task.cls !in s.registry
    ensures Complete(s, i, Some(e)) == (Pass, Release(s, i))
  {
    var r := Release(s, i);
    assert e == Queued(e.task, -1);
    assert r.queue - multiset{e} + multiset{Queued(e.task, -1)} == r.queue;
  }

  /** Under PESSIMISM a completion frees a slot of its class's reserve, so a head of the
      same class is admitted on it at once. */
  lemma CompletionAdmitsSameClass(s: Sched, i: nat, e: Queued)
    requires Inv(s) && s.policy == Pessimism && i < |s.running|
    requires IsHead(e, s.queue) && s.registry[e.task.cls].reserve == s.running[i].quota
    ensures Complete(s, i, Some(e)).1.running == RemoveAt(s.running, i) + [Admitted(e.task, s.running[i].quota)]
    ensures Complete(s, i, Some(e)).1.queue == s.queue - multiset{e}
  {
    RemainingAfterRelease(s, i);
    ReleaseSucceeds(s, i);
  }
}
