// Parallel examination of a directory's children: the worker pool's collect
// against the sequential loop, in every interleaving.
module Collect {
  import opened Base
  import opened Containers

  /** The outcome for one path: a value (found or not), or an exception. */
  datatype Outcome<T> = Value(value: T) | Thrown

  /** The sequential loop. */
  function Sequential<T>(stat: nat -> Outcome<T>, n: nat): Option<seq<T>> {
    if n == 0 then Some([])
    else
      match Sequential(stat, n - 1)
      case None => None
      case Some(before) => if stat(n - 1).Thrown? then None else Some(before + [stat(n - 1).value])
  }

  /** `hands` are the jobs that workers hold; which worker holds which is immaterial. */
  datatype Pool<T> = Pool(
    workers: nat,
    count: nat,
    submitted: nat,
    received: nat,
    jobs: Queue<nat>,
    hands: seq<nat>,
    results: Queue<nat>,
    arrived: seq<nat>,
    pending: map<nat, T>,
    failed: bool)
  {
    function Window(): nat { workers * 4 }

    predicate MaySubmit() { !failed && submitted < count && submitted - received < Window() }
  }

  datatype Action = Submit | TakeJob | FinishJob(k: nat) | Receive

  function Start<T>(workers: nat, count: nat): Pool<T> {
    Pool(workers, count, 0, 0, Queue([], workers * 4, false), [], Queue([], workers * 4, false), [], map[], false)
  }

  /** Wanted: what the thread would do next. It blocks if the queue does not allow it. */
  predicate Wanted<T>(p: Pool<T>, a: Action) {
    match a
    case Submit => p.MaySubmit()
    case TakeJob => |p.hands| < p.workers
    case FinishJob(k) => k < |p.hands|
    case Receive => !p.failed && !p.MaySubmit() && p.received < p.count
  }

  predicate Enabled<T>(p: Pool<T>, a: Action) {
    Wanted(p, a) &&
    match a
    case Submit => p.jobs.MayPush()
    case TakeJob => p.jobs.MayPop() && p.jobs.items != []
    case FinishJob(k) => p.results.MayPush()
    case Receive => p.results.MayPop() && p.results.items != []
  }

  function Step<T>(stat: nat -> Outcome<T>, p: Pool<T>, a: Action): Pool<T>
    requires Enabled(p, a)
  {
    match a
    case Submit => p.(jobs := p.jobs.Push(p.submitted).0, submitted := p.submitted + 1)
    case TakeJob => p.(jobs := p.jobs.Pop().0, hands := p.hands + [p.jobs.items[0]])
    case FinishJob(k) => p.(results := p.results.Push(p.hands[k]).0, hands := p.hands[..k] + p.hands[k + 1..])
    case Receive =>
      var i := p.results.items[0];
      var q := p.(results := p.results.Pop().0, received := p.received + 1, arrived := p.arrived + [i]);
      if stat(i).Thrown? then q.(failed := true) else q.(pending := p.pending[i := stat(i).value])
  }

  function Execute<T>(stat: nat -> Outcome<T>, p: Pool<T>, actions: seq<Action>): Pool<T> {
    if actions == [] then p
    else
      var before := Execute(stat, p, actions[..|actions| - 1]);
      if Enabled(before, actions[|actions| - 1]) then Step(stat, before, actions[|actions| - 1]) else before
  }

  // ---------------------------------------------------------------- invariant

  function UpTo(n: nat): seq<nat> { seq(n, i => i) }

  /** Every submitted index is in exactly one place. */
  ghost predicate Placed<T>(p: Pool<T>) {
    multiset(p.jobs.items) + multiset(p.hands) + multiset(p.results.items) + multiset(p.arrived)
      == multiset(UpTo(p.submitted))
  }

  ghost predicate PoolInv<T>(stat: nat -> Outcome<T>, p: Pool<T>) {
    && p.workers > 0 && p.jobs.limit == p.results.limit == p.Window() && !p.jobs.closed && !p.results.closed
    && |p.hands| <= p.workers
    && p.received <= p.submitted <= p.count && p.submitted - p.received <= p.Window()
    && |p.arrived| == p.received
    && Placed(p)
    && (forall i :: i in p.pending ==> stat(i) == Value(p.pending[i]))
    && (!p.failed ==> forall i :: i in p.arrived ==> i in p.pending)
    && (p.failed ==> exists i :: 0 <= i < p.count && stat(i).Thrown?)
  }

  lemma UpToNext(n: nat)
    ensures multiset(UpTo(n + 1)) == multiset(UpTo(n)) + multiset{n}
  {
    assert UpTo(n + 1) == UpTo(n) + [n];
  }

  /** What is in flight is what was submitted and not received. */
  lemma InFlight<T>(stat: nat -> Outcome<T>, p: Pool<T>)
    requires PoolInv(stat, p)
    ensures |p.jobs.items| + |p.hands| + |p.results.items| == p.submitted - p.received
  {
    assert |multiset(UpTo(p.submitted))| == p.submitted;
  }

  lemma InRange(n: nat, i: nat)
    requires i in multiset(UpTo(n))
    ensures i < n
  {
    assert i in UpTo(n);
  }

  lemma SubmitKeeps<T>(stat: nat -> Outcome<T>, p: Pool<T>)
    requires PoolInv(stat, p) && Enabled(p, Submit)
    ensures PoolInv(stat, Step(stat, p, Submit))
  {
    UpToNext(p.submitted);
  }

  lemma TakeKeeps<T>(stat: nat -> Outcome<T>, p: Pool<T>)
    requires PoolInv(stat, p) && Enabled(p, TakeJob)
    ensures PoolInv(stat, Step(stat, p, TakeJob))
  {
    assert p.jobs.items == [p.jobs.items[0]] + p.jobs.items[1..];
  }

  lemma FinishKeeps<T>(stat: nat -> Outcome<T>, p: Pool<T>, k: nat)
    requires PoolInv(stat, p) && Enabled(p, FinishJob(k))
    ensures PoolInv(stat, Step(stat, p, FinishJob(k)))
  {
    assert p.hands == p.hands[..k] + [p.hands[k]] + p.hands[k + 1..];
  }

  lemma ReceivePlaces<T>(stat: nat -> Outcome<T>, p: Pool<T>)
    requires PoolInv(stat, p) && Enabled(p, Receive)
    ensures Placed(Step(stat, p, Receive)) && p.results.items[0] < p.submitted && p.received < p.submitted
  {
    var i := p.results.items[0];
    InFlight(stat, p);
    assert p.results.items == [i] + p.results.items[1..];
    assert i in multiset(p.results.items);
    assert i in multiset(UpTo(p.submitted));
    InRange(p.submitted, i);
  }

  /** The counts and the results that were handed in. */
  lemma ReceiveRecords<T>(stat: nat -> Outcome<T>, p: Pool<T>)
    requires PoolInv(stat, p) && Enabled(p, Receive)
    ensures var q := Step(stat, p, Receive);
            && |q.arrived| == q.received && (forall i :: i in q.pending ==> stat(i) == Value(q.pending[i]))
            && (!q.failed ==> forall i :: i in q.arrived ==> i in q.pending)
  {
    hide Placed;
    var i := p.results.items[0];
    var q := Step(stat, p, Receive);
    if stat(i).Value? {
      forall j | j in q.arrived ensures j in q.pending {
        assert j in p.arrived || j == i;
      }
    }
  }

  lemma ReceiveKeeps<T>(stat: nat -> Outcome<T>, p: Pool<T>)
    requires PoolInv(stat, p) && Enabled(p, Receive)
    ensures PoolInv(stat, Step(stat, p, Receive))
  {
    hide Placed;
    ReceivePlaces(stat, p);
    ReceiveRecords(stat, p);
  }

  lemma StepKeeps<T>(stat: nat -> Outcome<T>, p: Pool<T>, a: Action)
    requires PoolInv(stat, p) && Enabled(p, a)
    ensures PoolInv(stat, Step(stat, p, a)) && Step(stat, p, a).count == p.count
  {
    match a
    case Submit => SubmitKeeps(stat, p);
    case TakeJob => TakeKeeps(stat, p);
    case FinishJob(k) => FinishKeeps(stat, p, k);
    case Receive => ReceiveKeeps(stat, p);
  }

  /** Neither a submission nor a finished job ever waits for room: the jobs in
      flight never exceed the capacity of either queue. */
  lemma NeverFull<T>(stat: nat -> Outcome<T>, p: Pool<T>)
    requires PoolInv(stat, p)
    ensures Wanted(p, Submit) ==> p.jobs.MayPush()
    ensures forall k :: Wanted(p, FinishJob(k)) ==> p.results.MayPush()
  {
    InFlight(stat, p);
  }

  /** Until everything was received, or an exception was, some thread can move. */
  lemma NeverStuck<T>(stat: nat -> Outcome<T>, p: Pool<T>) returns (a: Action)
    requires PoolInv(stat, p) && !p.failed && p.received < p.count
    ensures Enabled(p, a)
  {
    NeverFull(stat, p);
    InFlight(stat, p);
    a := if p.MaySubmit() then Submit
         else if p.results.items != [] then Receive
         else if p.hands != [] then FinishJob(0)
         else TakeJob;
  }

  /** Steps that are still to be taken. */
  function Work<T>(p: Pool<T>): int {
    4 * (p.count - p.submitted) + 3 * |p.jobs.items| + 2 * |p.hands| + |p.results.items|
  }

  /** Every step of any thread uses up work, so no schedule goes on forever. */
  lemma StepWorks<T>(stat: nat -> Outcome<T>, p: Pool<T>, a: Action)
    requires PoolInv(stat, p) && Enabled(p, a)
    ensures 0 <= Work(Step(stat, p, a)) < Work(p)
  {
    hide Placed;
    StepKeeps(stat, p, a);
  }

  lemma {:induction false} AlwaysInv<T>(stat: nat -> Outcome<T>, p: Pool<T>, actions: seq<Action>)
    requires PoolInv(stat, p)
    ensures PoolInv(stat, Execute(stat, p, actions)) && Execute(stat, p, actions).count == p.count
  {
    hide PoolInv, Step, Enabled;
    if actions != [] {
      var n := |actions| - 1;
      AlwaysInv(stat, p, actions[..n]);
      if Enabled(Execute(stat, p, actions[..n]), actions[n]) {
        StepKeeps(stat, Execute(stat, p, actions[..n]), actions[n]);
      }
    }
  }

  // ------------------------------------------------------------------- results

  /** The pending results in index order. */
  function Collected<T>(p: Pool<T>): seq<T>
    requires forall i :: 0 <= i < p.count ==> i in p.pending
  {
    seq(p.count, i requires 0 <= i < p.count => p.pending[i])
  }

  lemma {:induction false} SequentialIs<T>(stat: nat -> Outcome<T>, n: nat)
    ensures Sequential(stat, n).None? <==> exists i :: 0 <= i < n && stat(i).Thrown?
    ensures Sequential(stat, n).Some? ==>
              |Sequential(stat, n).value| == n
              && forall i :: 0 <= i < n ==> stat(i) == Value(Sequential(stat, n).value[i])
  {
    if n > 0 {
      SequentialIs(stat, n - 1);
    }
  }

  lemma AllArrived<T>(stat: nat -> Outcome<T>, p: Pool<T>)
    requires PoolInv(stat, p) && p.received == p.count && !p.failed
    ensures forall i :: 0 <= i < p.count ==> i in p.pending
  {
    InFlight(stat, p);
    assert p.jobs.items == [] && p.hands == [] && p.results.items == [];
    forall i | 0 <= i < p.count ensures i in p.pending {
      assert UpTo(p.submitted)[i] == i;
      assert i in multiset(UpTo(p.submitted));
      assert i in multiset(p.arrived);
    }
  }

  /** In every interleaving, when collect returns it returns the list of the
      sequential loop, and it throws only if the sequential loop throws; and it
      does not stop short of one of the two. */
  lemma CollectIsSequential<T>(stat: nat -> Outcome<T>, workers: nat, count: nat, actions: seq<Action>)
    requires workers > 0
    ensures var p := Execute(stat, Start(workers, count), actions);
            && (p.failed ==> Sequential(stat, count).None?)
            && (!p.failed && p.received == count ==>
                  (forall i :: 0 <= i < count ==> i in p.pending)
                  && p.count == count && Sequential(stat, count) == Some(Collected(p)))
            && (!p.failed && p.received < count ==> exists a: Action :: Enabled(p, a))
  {
    hide Execute, Enabled;
    var s: Pool<T> := Start(workers, count);
    assert PoolInv(stat, s) by {
      assert UpTo(0) == [];
    }
    AlwaysInv(stat, s, actions);
    var p := Execute(stat, s, actions);
    SequentialIs(stat, count);
    if !p.failed {
      if p.received == count {
        AllArrived(stat, p);
        Agree(stat, p);
      } else {
        var a := NeverStuck(stat, p);
      }
    }
  }

  lemma Agree<T>(stat: nat -> Outcome<T>, p: Pool<T>)
    requires forall i :: 0 <= i < p.count ==> i in p.pending
    requires forall i :: i in p.pending ==> stat(i) == Value(p.pending[i])
    ensures Sequential(stat, p.count) == Some(Collected(p))
  {
    SequentialIs(stat, p.count);
    if Sequential(stat, p.count).Some? {
      assert Sequential(stat, p.count).value == Collected(p);
    }
  }
}
