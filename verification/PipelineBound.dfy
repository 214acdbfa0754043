// How large the result store has to be: for every number of threads, exactly the
// limits for which some schedule of some slice gets stuck.
module PipelineBound {
  import opened Base
  import opened Containers
  import opened Pipeline
  import opened PipelineTheorems

  /** No thread can move although the pipeline is not finished. */
  ghost predicate Sticks(p: Pipe) {
    !p.stage.Joined? && forall a: Action :: !Enabled(p, a)
  }

  const Byte: seq<u8> := [1]

  /** The first 1 + stored entries are for the workers, the others inline; there
      are enough to fill the order queue behind the first one. */
  function Jam(order: nat, stored: nat): (jobs: seq<Job>)
    ensures |jobs| == order + 2 && forall i :: 0 <= i < |jobs| ==> jobs[i].Valid()
  {
    seq(order + 2, i => if i <= stored then Small(Byte) else Inline(Byte))
  }

  /** Results of the entries 1 to m. */
  function Stored(m: nat): (r: map<nat, seq<u8>>)
    ensures (forall i :: i in r <==> 1 <= i <= m) && |r| == m
  {
    if m == 0 then map[] else Stored(m - 1)[m := Byte]
  }

  function Least(a: nat, b: nat): nat { if a < b then a else b }

  /** Entry 0 is awaited and still in the first worker's hands; the entries before
      `next` were published, and of these `stored` at most are in the store. */
  function Jammed(start: Pipe, stored: nat, next: nat): Pipe
    requires |start.workers| > 0 && next > 0
  {
    start.(next := next,
           order := start.order.(items := seq(next - 1, i => i + 1)),
           results := start.results.(results := Stored(Least(next - 1, stored))),
           workers := start.workers[0 := Busy(0)],
           serializer := Awaiting(0))
  }

  lemma ExecuteSnoc(p: Pipe, before: seq<Action>, a: Action)
    requires Enabled(Execute(p, before), a)
    ensures Execute(p, before + [a]) == Step(Execute(p, before), a)
    ensures RunOf(p, before) ==> RunOf(p, before + [a])
  {
    hide Enabled, Step;
    var all := before + [a];
    assert all[..|before|] == before;
    if RunOf(p, before) {
      forall i | 0 <= i < |all| ensures Enabled(Execute(p, all[..i]), all[i]) {
        if i < |before| {
          assert all[..i] == before[..i] && all[i] == before[i];
        }
      }
    }
  }

  lemma NothingRun(p: Pipe)
    ensures RunOf(p, []) && Execute(p, []) == p
  {
  }

  /** A fresh pipe with two workers or more, and room in the store for `stored`. */
  ghost predicate CanJam(p: Pipe, stored: nat) {
    && |p.workers| >= 2 && (forall k :: 0 <= k < |p.workers| ==> p.workers[k] == Free)
    && 0 < stored <= p.order.limit + 1 && p.results == Store(map[], stored, false)
    && p.jobs == Jam(p.order.limit, stored) && p.next == 0 && p.stage.Dispatching?
    && p.order.items == [] && !p.order.closed && p.order.limit > 0
    && p.work.items == [] && !p.work.closed && p.work.limit > 0
    && p.serializer.Waiting? && p.buffer.chunks == [] && !p.buffer.closed && p.output.Popping?
  }

  /** The first entry is taken by the first worker and awaited by the serializer. */
  lemma JamBegins(p: Pipe, stored: nat) returns (actions: seq<Action>)
    requires CanJam(p, stored)
    ensures RunOf(p, actions) && Execute(p, actions) == Jammed(p, stored, 1)
  {
    hide RunOf, Execute;
    actions := [];
    NothingRun(p);
    ExecuteSnoc(p, actions, PublishWork);
    actions := actions + [PublishWork];
    ExecuteSnoc(p, actions, PublishOrder);
    actions := actions + [PublishOrder];
    ExecuteSnoc(p, actions, WorkerPop(0));
    actions := actions + [WorkerPop(0)];
    assert Execute(p, actions).workers == p.workers[0 := Busy(0)];
    ExecuteSnoc(p, actions, SerializerPop);
    actions := actions + [SerializerPop];
    assert Execute(p, actions).order.items == [];
  }

  /** A small entry goes through the second worker into the store. */
  lemma JamSmall(p: Pipe, stored: nat, i: nat, before: seq<Action>) returns (actions: seq<Action>)
    requires CanJam(p, stored) && 0 < i <= stored && i <= p.order.limit
    requires RunOf(p, before) && Execute(p, before) == Jammed(p, stored, i)
    ensures RunOf(p, actions) && Execute(p, actions) == Jammed(p, stored, i + 1)
  {
    hide RunOf, Execute;
    actions := JamStores(p, stored, i, before);
    ExecuteSnoc(p, actions, PublishOrder);
    actions := actions + [PublishOrder];
    assert Jammed(p, stored, i + 1).order.items == Jammed(p, stored, i).order.items + [i];
  }

  /** The entry's result is stored before its order marker is published. */
  lemma JamStores(p: Pipe, stored: nat, i: nat, before: seq<Action>) returns (actions: seq<Action>)
    requires CanJam(p, stored) && 0 < i <= stored && i <= p.order.limit + 1
    requires RunOf(p, before) && Execute(p, before) == Jammed(p, stored, i)
    ensures RunOf(p, actions)
    ensures Execute(p, actions) ==
              Jammed(p, stored, i).(stage := Publishing, results := p.results.(results := Stored(i)))
  {
    hide RunOf, Execute;
    actions := before;
    ExecuteSnoc(p, actions, PublishWork);
    actions := actions + [PublishWork];
    ExecuteSnoc(p, actions, WorkerPop(1));
    actions := actions + [WorkerPop(1)];
    assert Execute(p, actions).workers[1] == Busy(i);
    ExecuteSnoc(p, actions, WorkerPut(1));
    actions := actions + [WorkerPut(1)];
    assert Execute(p, actions).workers == p.workers[0 := Busy(0)];
  }

  lemma JamInline(p: Pipe, stored: nat, i: nat, before: seq<Action>) returns (actions: seq<Action>)
    requires CanJam(p, stored) && stored < i <= p.order.limit
    requires RunOf(p, before) && Execute(p, before) == Jammed(p, stored, i)
    ensures RunOf(p, actions) && Execute(p, actions) == Jammed(p, stored, i + 1)
  {
    hide RunOf, Execute;
    ExecuteSnoc(p, before, PublishOrder);
    actions := before + [PublishOrder];
    assert Jammed(p, stored, i + 1).order.items == Jammed(p, stored, i).order.items + [i];
  }

  lemma {:induction false} JamFills(p: Pipe, stored: nat, next: nat) returns (actions: seq<Action>)
    requires CanJam(p, stored) && 0 < next <= p.order.limit + 1
    ensures RunOf(p, actions) && Execute(p, actions) == Jammed(p, stored, next)
    decreases next
  {
    hide RunOf, Execute, CanJam, Jammed;
    if next == 1 {
      actions := JamBegins(p, stored);
    } else {
      JamLimit(p, stored);
      var before := JamFills(p, stored, next - 1);
      if next - 1 <= stored {
        actions := JamSmall(p, stored, next - 1, before);
      } else {
        actions := JamInline(p, stored, next - 1, before);
      }
    }
  }

  lemma JamLimit(p: Pipe, stored: nat)
    requires CanJam(p, stored)
    ensures 0 < stored <= p.order.limit + 1 && 0 < p.order.limit && |p.workers| >= 2
  {
  }

  /** The order queue is full, the store is full, and the awaited result is in the
      hands of a worker that cannot publish it. */
  lemma JamSticks(p: Pipe, stored: nat)
    requires CanJam(p, stored)
    ensures stored <= p.order.limit ==> Sticks(Jammed(p, stored, p.order.limit + 1))
    ensures stored == p.order.limit + 1 ==>
              Sticks(Jammed(p, stored, p.order.limit + 1).(stage := Publishing,
                                                             results := p.results.(results := Stored(stored))))
  {
  }

  lemma Jams(p: Pipe, stored: nat) returns (actions: seq<Action>)
    requires CanJam(p, stored)
    ensures RunOf(p, actions) && Sticks(Execute(p, actions))
  {
    hide RunOf, Execute, CanJam, Jammed, Sticks;
    JamLimit(p, stored);
    actions := JamFills(p, stored, p.order.limit + 1);
    if stored == p.order.limit + 1 {
      actions := JamStores(p, stored, stored, actions);
    }
    JamSticks(p, stored);
  }

  /** Some slice and some schedule get stuck with this limit on the result store. */
  ghost predicate CanStick(ioThread: u32, capacity: u64, percent: nat, storeLimit: nat) {
    exists jobs, actions ::
      && Dispatchable(jobs, ioThread)
      && RunOf(StartWith(jobs, ioThread, capacity, percent, storeLimit), actions)
      && Sticks(Execute(StartWith(jobs, ioThread, capacity, percent, storeLimit), actions))
  }

  lemma CanJamStart(ioThread: u32, capacity: u64, percent: nat, storeLimit: nat)
    requires WorkerCount(ioThread) >= 2 && 0 < storeLimit < OrderCapacity(ioThread) + 2
    ensures var jobs := Jam(OrderCapacity(ioThread), storeLimit);
            Dispatchable(jobs, ioThread) && CanJam(StartWith(jobs, ioThread, capacity, percent, storeLimit), storeLimit)
  {
    CapacitiesPositive(ioThread);
    hide OrderCapacity, WorkCapacity, Waterline;
  }

  lemma RoomyNeverSticks(
      jobs: seq<Job>, ioThread: u32, capacity: u64, percent: nat, storeLimit: nat, actions: seq<Action>)
    requires Dispatchable(jobs, ioThread) && 0 < capacity && percent <= 100
    requires Roomy(StartWith(jobs, ioThread, capacity, percent, storeLimit))
    ensures !Sticks(Execute(StartWith(jobs, ioThread, capacity, percent, storeLimit), actions))
  {
    hide PipeInv, Execute, Enabled, StartWith;
    var p := StartWith(jobs, ioThread, capacity, percent, storeLimit);
    StartInv(jobs, ioThread, capacity, percent, storeLimit);
    AlwaysInv(p, actions);
    var q := Execute(p, actions);
    if !q.stage.Joined? {
      var a := NoDeadlock(q);
    }
  }

  /** The exact size. For every number of threads and every buffer, some slice can
      get stuck exactly when there are two workers or more and the store is bounded
      below the order capacity plus two: one place for each entry in the order
      queue, one for the entry whose marker is about to be published, and one for
      the awaited result. */
  lemma StoreBoundExact(ioThread: u32, capacity: u64, percent: nat, storeLimit: nat)
    requires 0 < capacity && percent <= 100
    ensures CanStick(ioThread, capacity, percent, storeLimit) <==>
              WorkerCount(ioThread) >= 2 && 0 < storeLimit < OrderCapacity(ioThread) + 2
  {
    hide Sticks, RunOf, Execute, Dispatchable, CanJam, Waterline, OrderCapacity, WorkCapacity;
    if WorkerCount(ioThread) >= 2 && 0 < storeLimit < OrderCapacity(ioThread) + 2 {
      var jobs := Jam(OrderCapacity(ioThread), storeLimit);
      CanJamStart(ioThread, capacity, percent, storeLimit);
      var actions := Jams(StartWith(jobs, ioThread, capacity, percent, storeLimit), storeLimit);
    } else if CanStick(ioThread, capacity, percent, storeLimit) {
      var jobs, actions :|
        && Dispatchable(jobs, ioThread)
        && RunOf(StartWith(jobs, ioThread, capacity, percent, storeLimit), actions)
        && Sticks(Execute(StartWith(jobs, ioThread, capacity, percent, storeLimit), actions));
      RoomyNeverSticks(jobs, ioThread, capacity, percent, storeLimit, actions);
    }
  }

  /** The program's bound is never too small; it is exact for two workers and has
      one place to spare for each further one. */
  lemma ProgramBound(ioThread: u32, capacity: u64, percent: nat)
    requires 0 < capacity && percent <= 100
    ensures !CanStick(ioThread, capacity, percent, ResultCapacity(ioThread))
    ensures WorkerCount(ioThread) >= 2 ==>
              forall storeLimit: nat :: 0 < storeLimit ==>
                (CanStick(ioThread, capacity, percent, storeLimit) <==>
                   storeLimit < ResultCapacity(ioThread) - (WorkerCount(ioThread) - 2))
  {
    hide CanStick;
    StoreBoundExact(ioThread, capacity, percent, ResultCapacity(ioThread));
    forall storeLimit: nat | 0 < storeLimit
      ensures CanStick(ioThread, capacity, percent, storeLimit) <==>
                WorkerCount(ioThread) >= 2 && storeLimit < OrderCapacity(ioThread) + 2
    {
      StoreBoundExact(ioThread, capacity, percent, storeLimit);
    }
  }
}
