// The pipeline in every interleaving: ordered output, nothing lost at the close,
// no deadlock, termination.
module PipelineTheorems {
  import opened Base
  import opened Containers
  import opened Pipeline

  // --------------------------------------------------------- what stays the same

  ghost predicate SameQueues(p: Pipe, q: Pipe) {
    && q.jobs == p.jobs && q.work.items == p.work.items && q.results.results == p.results.results
    && q.workers == p.workers
    && forall i: nat :: InPlay(q, i) == InPlay(p, i)
  }

  lemma QueuesStay(p: Pipe, q: Pipe)
    requires SameQueues(p, q) && QueueInv(p) && BusyInv(p) && ResultInv(p) && Covered(p)
    ensures QueueInv(q) && BusyInv(q) && ResultInv(q) && Covered(q)
  {
    hide InPlay;
    forall i: nat | InPlay(q, i) ensures i in q.work.items || i in q.results.results || Held(q, i) {
      assert InPlay(p, i);
      assert Held(p, i) ==> Held(q, i);
    }
  }

  lemma DataStays(p: Pipe, q: Pipe)
    requires OrderInv(p) && OrderInv(q) && DataInv(p) && q.jobs == p.jobs && Emitted(q) == Emitted(p)
    requires q.buffer == p.buffer.(closed := q.buffer.closed) && q.restart == p.restart
    requires q.written == p.written && q.output == p.output && InHand(q) == InHand(p)
    requires q.serializer.Emitting? ==> q.serializer == p.serializer || q.serializer.parts == []
    ensures DataInv(q)
  {
  }

  // --------------------------------------------------------------- dispatcher

  lemma PublishWorkQueues(p: Pipe)
    requires PipeInv(p) && Enabled(p, PublishWork)
    ensures var q := Step(p, PublishWork); QueueInv(q) && BusyInv(q) && ResultInv(q) && Covered(q)
  {
    hide DataInv;
    var q := Step(p, PublishWork);
    assert q.work.items == p.work.items + [p.next];
    forall i: nat ensures InPlay(q, i) <==> InPlay(p, i) || i == p.next {
    }
    forall i: nat | InPlay(q, i) ensures i in q.work.items || i in q.results.results || Held(q, i) {
      if i == p.next {
        assert q.work.items[|p.work.items|] == i;
      } else {
        assert InPlay(p, i);
        assert Held(p, i) ==> Held(q, i);
      }
    }
  }

  lemma PublishWorkKeeps(p: Pipe)
    requires PipeInv(p) && Enabled(p, PublishWork)
    ensures PipeInv(Step(p, PublishWork))
  {
    PublishWorkQueues(p);
    hide BytesOf, Concat, QueueInv, BusyInv, ResultInv, Covered;
  }

  lemma PublishOrderKeeps(p: Pipe)
    requires PipeInv(p) && Enabled(p, PublishOrder)
    ensures PipeInv(Step(p, PublishOrder))
  {
    hide BytesOf, Concat, QueueInv, BusyInv, ResultInv, Covered, DataInv;
    var q := Step(p, PublishOrder);
    QueuesStay(p, q);
    DataStays(p, q);
  }

  lemma FinishInputKeeps(p: Pipe)
    requires PipeInv(p) && Enabled(p, FinishInput)
    ensures PipeInv(Step(p, FinishInput))
  {
    hide BytesOf, Concat, QueueInv, BusyInv, ResultInv, Covered, DataInv;
    var q := Step(p, FinishInput);
    QueuesStay(p, q);
    DataStays(p, q);
  }

  // ------------------------------------------------------------------ workers

  lemma WorkerPopCovers(p: Pipe, k: nat)
    requires PipeInv(p) && Enabled(p, WorkerPop(k))
    ensures Covered(Step(p, WorkerPop(k)))
  {
    hide DataInv, StageInv, OrderInv, QueueInv, BusyInv, ResultInv;
    var q := Step(p, WorkerPop(k));
    forall i: nat | InPlay(q, i) ensures i in q.work.items || i in q.results.results || Held(q, i) {
      assert InPlay(p, i);
      if Held(p, i) {
        var l :| 0 <= l < |p.workers| && p.workers[l] == Busy(i);
        assert q.workers[l] == Busy(i);
      } else if i in p.work.items && i == p.work.items[0] {
        assert q.workers[k] == Busy(i);
      }
    }
  }

  lemma WorkerPopOrders(p: Pipe, k: nat)
    requires PipeInv(p) && Enabled(p, WorkerPop(k))
    ensures QueueInv(Step(p, WorkerPop(k))) && BusyInv(Step(p, WorkerPop(k))) && ResultInv(Step(p, WorkerPop(k)))
  {
    hide DataInv, StageInv, Covered;
    var q := Step(p, WorkerPop(k));
    forall i: nat ensures InPlay(q, i) == InPlay(p, i) {
    }
  }

  lemma WorkerPopKeeps(p: Pipe, k: nat)
    requires PipeInv(p) && Enabled(p, WorkerPop(k))
    ensures PipeInv(Step(p, WorkerPop(k)))
  {
    WorkerPopCovers(p, k);
    WorkerPopOrders(p, k);
    hide BytesOf, Concat, QueueInv, BusyInv, ResultInv, Covered, DataInv;
    DataStays(p, Step(p, WorkerPop(k)));
  }

  lemma WorkerPutCovers(p: Pipe, k: nat)
    requires PipeInv(p) && Enabled(p, WorkerPut(k))
    ensures Covered(Step(p, WorkerPut(k)))
  {
    hide DataInv, OrderInv, QueueInv, ResultInv;
    var q := Step(p, WorkerPut(k));
    forall i: nat | InPlay(q, i) ensures i in q.work.items || i in q.results.results || Held(q, i) {
      assert InPlay(p, i);
      if Held(p, i) && i != p.workers[k].job {
        var l :| 0 <= l < |p.workers| && p.workers[l] == Busy(i);
        assert q.workers[l] == Busy(i);
      }
    }
  }

  lemma WorkerPutOrders(p: Pipe, k: nat)
    requires PipeInv(p) && Enabled(p, WorkerPut(k))
    ensures QueueInv(Step(p, WorkerPut(k))) && BusyInv(Step(p, WorkerPut(k))) && ResultInv(Step(p, WorkerPut(k)))
  {
    hide DataInv, Covered;
    var q := Step(p, WorkerPut(k));
    forall i: nat ensures InPlay(q, i) == InPlay(p, i) {
    }
  }

  lemma WorkerPutKeeps(p: Pipe, k: nat)
    requires PipeInv(p) && Enabled(p, WorkerPut(k))
    ensures PipeInv(Step(p, WorkerPut(k)))
  {
    WorkerPutCovers(p, k);
    WorkerPutOrders(p, k);
    hide BytesOf, Concat, QueueInv, BusyInv, ResultInv, Covered, DataInv;
    DataStays(p, Step(p, WorkerPut(k)));
  }

  // --------------------------------------------------------------- serializer

  /** Cutting an entry into chunks loses none of its bytes. */
  lemma ChunksAreOwn(j: Job)
    ensures Concat(j.Chunks()) == j.Own()
  {
    if !j.Large? && j.bytes != [] {
      assert [j.bytes][1..] == [];
      assert j.bytes + [] == j.bytes;
    }
  }

  lemma BytesNext(jobs: seq<Job>, n: nat)
    requires n < |jobs|
    ensures BytesOf(jobs[..n + 1]) == BytesOf(jobs[..n]) + Concat(jobs[n].Chunks())
  {
    ChunksAreOwn(jobs[n]);
    assert jobs[..n + 1][..n] == jobs[..n];
  }

  /** The serializer takes the chunks of the next entry in hand. */
  lemma DataTaken(p: Pipe, q: Pipe)
    requires OrderInv(p) && OrderInv(q) && DataInv(p) && q.jobs == p.jobs && Emitted(q) == Emitted(p) + 1
    requires q.buffer == p.buffer && q.restart == p.restart && q.written == p.written && q.output == p.output
    requires !p.serializer.Emitting? && Emitted(p) < |p.jobs|
    requires q.serializer == Emitting(p.jobs[Emitted(p)].Chunks())
    ensures DataInv(q)
  {
    hide BytesOf, Concat;
    BytesNext(p.jobs, Emitted(p));
    var e := Emitted(p);
    assert p.jobs[e].Valid();
    var before := p.written + BeingWritten(p) + Concat(p.buffer.chunks);
    assert before + [] == before;
  }

  lemma SerializerPopKeeps(p: Pipe)
    requires PipeInv(p) && Enabled(p, SerializerPop)
    ensures PipeInv(Step(p, SerializerPop))
  {
    hide BytesOf, Concat, QueueInv, BusyInv, ResultInv, Covered, DataInv;
    var q := Step(p, SerializerPop);
    QueuesStay(p, q);
    if p.order.items != [] && !p.jobs[p.order.items[0]].Small? {
      DataTaken(p, q);
    } else {
      DataStays(p, q);
    }
  }

  /** Closing the store loses no result that is still awaited. */
  lemma AwaitedIsThere(p: Pipe)
    requires PipeInv(p) && p.serializer.Awaiting? && p.results.closed
    ensures p.serializer.job in p.results.results
  {
    hide DataInv, BusyInv, ResultInv, QueueInv;
    assert InPlay(p, p.serializer.job);
    assert |p.workers| > 0;
    assert p.workers[0].Exited?;
  }

  lemma SerializerTakeQueues(p: Pipe)
    requires PipeInv(p) && Enabled(p, SerializerTake) && p.serializer.job in p.results.results
    ensures var q := Step(p, SerializerTake); QueueInv(q) && BusyInv(q) && ResultInv(q) && Covered(q)
  {
    hide DataInv;
    var q := Step(p, SerializerTake);
    var e := Emitted(p);
    forall i: nat ensures InPlay(q, i) <==> InPlay(p, i) && i != e {
    }
    forall i: nat | InPlay(q, i) ensures i in q.work.items || i in q.results.results || Held(q, i) {
      assert InPlay(p, i);
      assert Held(p, i) ==> Held(q, i);
    }
  }

  lemma SerializerTakeKeeps(p: Pipe)
    requires PipeInv(p) && Enabled(p, SerializerTake)
    ensures PipeInv(Step(p, SerializerTake))
  {
    if p.results.closed {
      AwaitedIsThere(p);
    }
    SerializerTakeQueues(p);
    TakenBytes(p);
    hide BytesOf, Concat, QueueInv, BusyInv, ResultInv, Covered, DataInv;
    var q := Step(p, SerializerTake);
    DataTaken(p, q);
  }

  lemma TakenBytes(p: Pipe)
    requires PipeInv(p) && p.serializer.Awaiting? && p.serializer.job in p.results.results
    ensures p.results.results[p.serializer.job] == p.jobs[p.serializer.job].bytes
  {
  }

  lemma SerializerPushData(p: Pipe)
    requires OrderInv(p) && DataInv(p) && Enabled(p, SerializerPush) && !p.buffer.closed
    requires p.serializer.parts != [] && OrderInv(Step(p, SerializerPush))
    ensures DataInv(Step(p, SerializerPush))
  {
    hide BytesOf;
    var parts := p.serializer.parts;
    ConcatAppend(p.buffer.chunks, [parts[0]]);
    ConcatOne(parts[0]);
    var before := p.written + BeingWritten(p);
    assert before + (Concat(p.buffer.chunks) + parts[0]) + Concat(parts[1..])
        == before + Concat(p.buffer.chunks) + (parts[0] + Concat(parts[1..]));
  }

  lemma SerializerPushKeeps(p: Pipe)
    requires PipeInv(p) && Enabled(p, SerializerPush)
    ensures PipeInv(Step(p, SerializerPush))
  {
    hide BytesOf, QueueInv, BusyInv, ResultInv, Covered, DataInv;
    var q := Step(p, SerializerPush);
    QueuesStay(p, q);
    if p.serializer.parts != [] {
      SerializerPushData(p);
    } else {
      DataStays(p, q);
    }
  }

  // ------------------------------------------------------------ output and join

  lemma OutputPopData(p: Pipe)
    requires OrderInv(p) && DataInv(p) && Enabled(p, OutputPop) && OrderInv(Step(p, OutputPop))
    ensures DataInv(Step(p, OutputPop))
  {
    hide BytesOf;
    var chunks := p.buffer.chunks;
    if chunks != [] {
      assert p.written + chunks[0] + Concat(chunks[1..]) + InHand(p)
          == p.written + [] + (chunks[0] + Concat(chunks[1..])) + InHand(p);
    }
  }

  lemma OutputWriteData(p: Pipe)
    requires OrderInv(p) && DataInv(p) && p.output.Writing? && OrderInv(Step(p, OutputWrite))
    ensures DataInv(Step(p, OutputWrite))
  {
    hide BytesOf, Concat;
    assert p.written + p.output.chunk + [] == p.written + p.output.chunk;
  }

  lemma OutputKeeps(p: Pipe, a: Action)
    requires PipeInv(p) && Enabled(p, a) && (a.OutputPop? || a.OutputWrite? || a.OutputDecide?)
    ensures PipeInv(Step(p, a))
  {
    hide BytesOf, Concat, QueueInv, BusyInv, ResultInv, Covered;
    var q := Step(p, a);
    QueuesStay(p, q);
    if a.OutputPop? {
      OutputPopData(p);
    } else if a.OutputWrite? {
      OutputWriteData(p);
    }
  }

  lemma JoinKeeps(p: Pipe, a: Action)
    requires PipeInv(p) && Enabled(p, a) && (a.JoinWorkers? || a.JoinSerializer? || a.JoinOutput?)
    ensures PipeInv(Step(p, a))
  {
    hide BytesOf, Concat, QueueInv, BusyInv, ResultInv, Covered, DataInv;
    var q := Step(p, a);
    QueuesStay(p, q);
    DataStays(p, q);
  }

  /** Every step of every thread keeps the invariant. */
  lemma StepKeeps(p: Pipe, a: Action)
    requires PipeInv(p) && Enabled(p, a)
    ensures PipeInv(Step(p, a))
  {
    hide PipeInv, Enabled, Step;
    match a
    case PublishWork => PublishWorkKeeps(p);
    case PublishOrder => PublishOrderKeeps(p);
    case FinishInput => FinishInputKeeps(p);
    case WorkerPop(k) => WorkerPopKeeps(p, k);
    case WorkerPut(k) => WorkerPutKeeps(p, k);
    case SerializerPop => SerializerPopKeeps(p);
    case SerializerTake => SerializerTakeKeeps(p);
    case SerializerPush => SerializerPushKeeps(p);
    case OutputPop => OutputKeeps(p, a);
    case OutputWrite => OutputKeeps(p, a);
    case OutputDecide => OutputKeeps(p, a);
    case JoinWorkers => JoinKeeps(p, a);
    case JoinSerializer => JoinKeeps(p, a);
    case JoinOutput => JoinKeeps(p, a);
  }

  // ------------------------------------------------------------- order, no loss

  lemma WaterlineFits(capacity: u64, percent: nat)
    requires percent <= 100
    ensures Waterline(capacity, percent) <= capacity
  {
    assert capacity * percent % TWO_64 <= capacity * percent <= capacity * 100;
  }

  /** The waterline is the percentage of the capacity, rounded down, as long as the
      product fits in a word, and lower than that where it does not. */
  lemma WaterlineExactly(capacity: u64, percent: nat)
    requires percent <= 100
    ensures capacity * percent < TWO_64 ==>
              100 * Waterline(capacity, percent) <= capacity * percent < 100 * (Waterline(capacity, percent) + 1)
    ensures capacity * percent >= TWO_64 ==> 100 * (Waterline(capacity, percent) + 1) <= capacity * percent
  {
    var product := capacity * percent;
    var q := product % TWO_64;
    assert 100 * (q / 100) <= q < 100 * (q / 100) + 100;
  }

  /** A slice whose entries may be handed to workers only when there are some. */
  ghost predicate Dispatchable(jobs: seq<Job>, ioThread: u32) {
    && (forall i :: 0 <= i < |jobs| ==> jobs[i].Valid())
    && (WorkerCount(ioThread) == 0 ==> forall i :: 0 <= i < |jobs| ==> !jobs[i].Small?)
  }

  lemma StartInv(jobs: seq<Job>, ioThread: u32, capacity: u64, percent: nat, storeLimit: nat)
    requires Dispatchable(jobs, ioThread) && 0 < capacity && percent <= 100
    ensures PipeInv(StartWith(jobs, ioThread, capacity, percent, storeLimit))
  {
    WaterlineFits(capacity, percent);
    hide Waterline, OrderCapacity, WorkCapacity;
    CapacitiesPositive(ioThread);
    assert jobs[..0] == [];
  }

  lemma CapacitiesPositive(ioThread: u32)
    ensures OrderCapacity(ioThread) > 0 && WorkCapacity(ioThread) > 0
  {
  }

  /** What a pipe is built with never changes. */
  predicate SameShape(p: Pipe, q: Pipe) {
    && q.jobs == p.jobs && q.order.limit == p.order.limit && q.results.limit == p.results.limit
    && |q.workers| == |p.workers|
  }

  lemma {:induction false} AlwaysInv(p: Pipe, actions: seq<Action>)
    requires PipeInv(p)
    ensures PipeInv(Execute(p, actions)) && SameShape(p, Execute(p, actions))
  {
    hide PipeInv, Step, Enabled;
    if actions != [] {
      var n := |actions| - 1;
      AlwaysInv(p, actions[..n]);
      var before := Execute(p, actions[..n]);
      if Enabled(before, actions[n]) {
        StepKeeps(before, actions[n]);
        ShapeStays(before, actions[n]);
      }
    }
  }

  lemma ShapeStays(p: Pipe, a: Action)
    requires Enabled(p, a)
    ensures SameShape(p, Step(p, a))
  {
  }

  lemma {:induction false} BytesPrefix(jobs: seq<Job>, n: nat)
    requires n <= |jobs|
    ensures BytesOf(jobs[..n]) <= BytesOf(jobs)
    decreases |jobs|
  {
    if n == |jobs| {
      assert jobs[..n] == jobs;
    } else {
      BytesPrefix(jobs[..|jobs| - 1], n);
      assert jobs[..|jobs| - 1][..n] == jobs[..n];
    }
  }

  lemma WrittenIsPrefix(p: Pipe)
    requires PipeInv(p)
    ensures p.written <= BytesOf(p.jobs)
    ensures p.stage.Joined? ==> p.written == BytesOf(p.jobs)
  {
    hide BytesOf, QueueInv, BusyInv, ResultInv, Covered, InPlay;
    BytesPrefix(p.jobs, Emitted(p));
    var rest := BeingWritten(p) + Concat(p.buffer.chunks) + InHand(p);
    assert p.written + rest == BytesOf(p.jobs[..Emitted(p)]);
    if p.stage.Joined? {
      assert p.jobs[..Emitted(p)] == p.jobs;
    }
  }

  /** In every interleaving and at every moment the bytes given to the output are a
      beginning of the entries' bytes in dispatch order; once the pipeline has been
      joined they are all of them: closing the queues, the store and the buffer
      loses nothing that was accepted. */
  lemma OutputInOrder(jobs: seq<Job>, ioThread: u32, capacity: u64, percent: nat, actions: seq<Action>)
    requires Dispatchable(jobs, ioThread) && 0 < capacity && percent <= 100
    ensures var p := Execute(Start(jobs, ioThread, capacity, percent), actions);
            p.written <= BytesOf(jobs) && (p.stage.Joined? ==> p.written == BytesOf(jobs))
  {
    hide PipeInv, BytesOf, Execute;
    StartInv(jobs, ioThread, capacity, percent, ResultCapacity(ioThread));
    AlwaysInv(Start(jobs, ioThread, capacity, percent), actions);
    WrittenIsPrefix(Execute(Start(jobs, ioThread, capacity, percent), actions));
  }

  // ------------------------------------------------------------- no deadlock

  function Interval(lo: int, hi: int): (r: set<int>)
    requires lo <= hi
    ensures forall x :: x in r <==> lo <= x < hi
    ensures |r| == hi - lo
    decreases hi - lo
  {
    if lo == hi then {} else Interval(lo, hi - 1) + {hi - 1}
  }

  lemma {:induction false} SubsetSize<T>(A: set<T>, B: set<T>)
    requires A <= B
    ensures |A| <= |B|
  {
    if A != {} {
      var x :| x in A;
      SubsetSize(A - {x}, B - {x});
    }
  }

  lemma KeysBetween(results: map<nat, seq<u8>>, lo: int, hi: int)
    requires lo <= hi && forall i :: i in results ==> lo <= i < hi
    ensures |results| <= hi - lo
  {
    var keys: set<int> := set i | i in results.Keys :: i;
    assert keys == results.Keys;
    assert |results.Keys| == |results|;
    SubsetSize(keys, Interval(lo, hi));
  }

  /** A single worker works in order: nothing is stored ahead of what it holds. */
  lemma SoleWorker(p: Pipe)
    requires ResultInv(p) && |p.workers| == 1 && p.workers[0].Busy? && p.workers[0].job == Emitted(p)
    ensures forall i :: i !in p.results.results
  {
  }

  /** The store has room for a full order queue, the entry being published and the
      awaited one; a single worker needs no more than one place. */
  predicate Roomy(p: Pipe) {
    p.results.limit == 0 || |p.workers| <= 1 || p.results.limit >= p.order.limit + 2
  }

  /** The result that the serializer waits for can always be published. */
  lemma AwaitedHasRoom(p: Pipe, k: nat)
    requires PipeInv(p) && Roomy(p) && p.serializer.Awaiting? && p.serializer.job !in p.results.results
    requires k < |p.workers| && p.workers[k] == Busy(p.serializer.job)
    ensures p.results.MayPut()
  {
    hide DataInv, StageInv, Covered, QueueInv;
    var e := Emitted(p);
    if |p.workers| == 1 {
      SoleWorker(p);
      assert p.results.results == map[];
    } else {
      forall i | i in p.results.results ensures e + 1 <= i < Published(p) {
        assert InPlay(p, i);
      }
      KeysBetween(p.results.results, e + 1, Published(p));
    }
  }

  /** While a result is awaited, it is there, or a worker can fetch or publish it. */
  lemma AwaitingProgress(p: Pipe) returns (a: Action)
    requires PipeInv(p) && Roomy(p) && p.serializer.Awaiting?
    ensures Enabled(p, a)
  {
    var e := p.serializer.job;
    if p.results.MayTake(e) {
      a := SerializerTake;
    } else {
      assert InPlay(p, e);
      if Held(p, e) {
        var k :| 0 <= k < |p.workers| && p.workers[k] == Busy(e);
        AwaitedHasRoom(p, k);
        a := WorkerPut(k);
      } else {
        AllFree(p);
        a := WorkerPop(0);
      }
    }
  }

  lemma AllFree(p: Pipe)
    requires PipeInv(p) && p.serializer.Awaiting? && p.serializer.job in p.work.items
    ensures |p.workers| > 0 && p.workers[0].Free? && p.work.MayPop()
  {
    hide DataInv, ResultInv, Covered;
    assert |p.workers| > 0;
    var j :| 0 <= j < |p.work.items| && p.work.items[j] == p.serializer.job;
  }

  lemma EmittingProgress(p: Pipe) returns (a: Action)
    requires PipeInv(p) && p.serializer.Emitting?
    ensures Enabled(p, a)
  {
    hide QueueInv, BusyInv, ResultInv, Covered, BytesOf;
    if p.serializer.parts == [] || p.buffer.MayPush() {
      a := SerializerPush;
    } else {
      assert p.buffer.chunks != [];
      a := if p.output.Writing? then OutputWrite else if p.output.Deciding? then OutputDecide else OutputPop;
    }
  }

  /** Work in the queue or in a worker's hands has not reached the serializer. */
  lemma InPlayBounds(p: Pipe)
    requires PipeInv(p)
    ensures p.work.items != [] ==> Emitted(p) < Published(p)
    ensures forall k :: 0 <= k < |p.workers| && p.workers[k].Busy? ==> Emitted(p) < Published(p)
  {
    hide DataInv, ResultInv, Covered;
    if p.work.items != [] {
      assert InPlay(p, p.work.items[0]);
    }
    forall k | 0 <= k < |p.workers| && p.workers[k].Busy? ensures Emitted(p) < Published(p) {
      assert InPlay(p, p.workers[k].job);
    }
  }

  lemma WaitingProgress(p: Pipe) returns (a: Action)
    requires PipeInv(p) && p.serializer.Waiting?
    ensures Enabled(p, a)
  {
    hide BusyInv, ResultInv, Covered, DataInv;
    if p.order.MayPop() {
      a := SerializerPop;
    } else if p.stage.Publishing? {
      a := PublishOrder;
    } else if p.next == |p.jobs| {
      a := FinishInput;
    } else if !p.jobs[p.next].Small? {
      a := PublishOrder;
    } else {
      a := PublishWork;
      InPlayBounds(p);
    }
  }

  lemma ClosingProgress(p: Pipe) returns (a: Action)
    requires PipeInv(p) && p.serializer.SerializerDone? && !p.stage.Joined?
    ensures Enabled(p, a)
  {
    hide QueueInv, ResultInv, Covered, DataInv;
    if p.stage.JoiningWorkers? {
      if forall k :: 0 <= k < |p.workers| ==> p.workers[k].Exited? {
        a := JoinWorkers;
      } else {
        var k :| 0 <= k < |p.workers| && !p.workers[k].Exited?;
        a := WorkerPop(k);
        InPlayBounds(p);
      }
    } else if p.stage.JoiningSerializer? {
      a := JoinSerializer;
    } else {
      a := match p.output
           case Popping(_) => OutputPop
           case Writing(_) => OutputWrite
           case Deciding => OutputDecide
           case OutputDone => JoinOutput;
    }
  }

  /** Some thread can always move until the pipeline has been joined. */
  lemma NoDeadlock(p: Pipe) returns (a: Action)
    requires PipeInv(p) && Roomy(p) && !p.stage.Joined?
    ensures Enabled(p, a)
  {
    hide PipeInv, Enabled;
    match p.serializer
    case Waiting => a := WaitingProgress(p);
    case Awaiting(_) => a := AwaitingProgress(p);
    case Emitting(_) => a := EmittingProgress(p);
    case SerializerDone => a := ClosingProgress(p);
  }

  // -------------------------------------------------------------- termination

  /** Chunks of the entries from n on. */
  function ChunksFrom(jobs: seq<Job>, n: nat): nat
    requires n <= |jobs|
    decreases |jobs| - n
  {
    if n == |jobs| then 0 else |jobs[n].Chunks()| + ChunksFrom(jobs, n + 1)
  }

  function WorkerWeight(w: Worker): nat {
    if w.Free? then 1 else if w.Busy? then 3 else 0
  }

  function WorkersWeight(ws: seq<Worker>): nat {
    if ws == [] then 0 else WorkerWeight(ws[0]) + WorkersWeight(ws[1..])
  }

  lemma {:induction false} WorkerChanges(ws: seq<Worker>, k: nat, w: Worker)
    requires k < |ws|
    ensures WorkersWeight(ws[k := w]) == WorkersWeight(ws) - WorkerWeight(ws[k]) + WorkerWeight(w)
  {
    var us := ws[k := w];
    if k == 0 {
      assert us[1..] == ws[1..];
    } else {
      WorkerChanges(ws[1..], k - 1, w);
      assert us[1..] == ws[1..][k - 1 := w];
    }
  }

  function SerializerWeight(t: Serializer): nat {
    match t
    case Waiting => 1
    case Awaiting(_) => 3
    case Emitting(parts) => 2 + 5 * |parts|
    case SerializerDone => 0
  }

  function OutputWeight(t: OutputThread): nat {
    match t
    case Popping(_) => 1
    case Writing(_) => 4
    case Deciding => 2
    case OutputDone => 0
  }

  /** Steps that are still to be taken, at most. */
  function Work(p: Pipe): int
    requires OrderInv(p)
  {
    20 * (|p.jobs| - p.next) - 10 * Count(p.stage.Publishing?) + 4 * |p.work.items| + 5 * |p.order.items|
    + WorkersWeight(p.workers) + SerializerWeight(p.serializer) + 5 * ChunksFrom(p.jobs, Emitted(p))
    + 4 * |p.buffer.chunks| + OutputWeight(p.output) + (4 - p.stage.Rank())
  }

  lemma WorkIsNat(p: Pipe)
    requires OrderInv(p)
    ensures Work(p) >= 0
  {
  }

  lemma WorkerWorks(p: Pipe, a: Action)
    requires PipeInv(p) && Enabled(p, a) && (a.WorkerPop? || a.WorkerPut?) && OrderInv(Step(p, a))
    ensures Work(Step(p, a)) < Work(p)
  {
    hide QueueInv, BusyInv, ResultInv, Covered, DataInv, ChunksFrom, WorkersWeight;
    WorkerChanges(p.workers, a.k, Step(p, a).workers[a.k]);
    assert Step(p, a).workers == p.workers[a.k := Step(p, a).workers[a.k]];
  }

  lemma SerializerPopWorks(p: Pipe)
    requires OrderInv(p) && Enabled(p, SerializerPop) && OrderInv(Step(p, SerializerPop))
    ensures Work(Step(p, SerializerPop)) < Work(p)
  {
    hide WorkersWeight;
  }

  lemma SerializerTakeWorks(p: Pipe)
    requires OrderInv(p) && Enabled(p, SerializerTake) && OrderInv(Step(p, SerializerTake))
    requires p.serializer.job in p.results.results
    requires p.results.results[p.serializer.job] == p.jobs[p.serializer.job].bytes
    ensures Work(Step(p, SerializerTake)) < Work(p)
  {
    hide WorkersWeight;
  }

  lemma SerializerPushWorks(p: Pipe)
    requires OrderInv(p) && Enabled(p, SerializerPush) && OrderInv(Step(p, SerializerPush))
    ensures Work(Step(p, SerializerPush)) < Work(p)
  {
    hide WorkersWeight, ChunksFrom, Concat;
  }

  lemma SerializerWorks(p: Pipe, a: Action)
    requires PipeInv(p) && Enabled(p, a) && (a.SerializerPop? || a.SerializerTake? || a.SerializerPush?)
    requires OrderInv(Step(p, a))
    ensures Work(Step(p, a)) < Work(p)
  {
    hide QueueInv, BusyInv, Covered, DataInv, Work, Step, ResultInv;
    if a.SerializerPop? {
      SerializerPopWorks(p);
    } else if a.SerializerPush? {
      SerializerPushWorks(p);
    } else {
      if p.results.closed {
        AwaitedIsThere(p);
      }
      TakenBytes(p);
      SerializerTakeWorks(p);
    }
  }

  lemma OtherWorks(p: Pipe, a: Action)
    requires PipeInv(p) && Enabled(p, a) && OrderInv(Step(p, a))
    requires !a.WorkerPop? && !a.WorkerPut? && !a.SerializerPop? && !a.SerializerTake? && !a.SerializerPush?
    ensures Work(Step(p, a)) < Work(p)
  {
    hide QueueInv, BusyInv, ResultInv, Covered, DataInv, ChunksFrom, WorkersWeight;
  }

  lemma StepWorks(p: Pipe, a: Action)
    requires PipeInv(p) && Enabled(p, a)
    ensures PipeInv(Step(p, a)) && Work(Step(p, a)) < Work(p)
  {
    hide Step, Work, Enabled, QueueInv, BusyInv, ResultInv, Covered, DataInv, OrderInv, StageInv;
    StepKeeps(p, a);
    match a
    case WorkerPop(_) => WorkerWorks(p, a);
    case WorkerPut(_) => WorkerWorks(p, a);
    case SerializerPop => SerializerWorks(p, a);
    case SerializerTake => SerializerWorks(p, a);
    case SerializerPush => SerializerWorks(p, a);
    case _ => OtherWorks(p, a);
  }

  /** Every action in turn is a step that some thread takes. */
  ghost predicate RunOf(p: Pipe, actions: seq<Action>) {
    forall i :: 0 <= i < |actions| ==> Enabled(Execute(p, actions[..i]), actions[i])
  }

  lemma {:induction false} RunShrinks(p: Pipe, actions: seq<Action>)
    requires PipeInv(p) && RunOf(p, actions)
    ensures PipeInv(Execute(p, actions)) && Work(Execute(p, actions)) + |actions| <= Work(p)
  {
    hide Step, Work, Enabled, QueueInv, BusyInv, ResultInv, Covered, DataInv, OrderInv, StageInv;
    if actions != [] {
      var n := |actions| - 1;
      forall i | 0 <= i < n ensures Enabled(Execute(p, actions[..n][..i]), actions[..n][i]) {
        assert actions[..n][..i] == actions[..i];
      }
      RunShrinks(p, actions[..n]);
      StepWorks(Execute(p, actions[..n]), actions[n]);
    }
  }

  /** Every schedule, for every number of threads and any mix of entries, reaches
      the join after a bounded number of steps, with all bytes written in order:
      a run that can go no further has been joined. */
  lemma PipelineFinishes(jobs: seq<Job>, ioThread: u32, capacity: u64, percent: nat, actions: seq<Action>)
    requires Dispatchable(jobs, ioThread) && 0 < capacity && percent <= 100
    requires RunOf(Start(jobs, ioThread, capacity, percent), actions)
    ensures var p := Start(jobs, ioThread, capacity, percent);
            && OrderInv(p) && |actions| <= Work(p)
            && ((forall a: Action :: !Enabled(Execute(p, actions), a)) <==> Execute(p, actions).stage.Joined?)
            && (Execute(p, actions).stage.Joined? ==> Execute(p, actions).written == BytesOf(jobs))
  {
    hide Step, Work, Enabled, BytesOf, Execute, StartWith;
    var p := Start(jobs, ioThread, capacity, percent);
    StartInv(jobs, ioThread, capacity, percent, ResultCapacity(ioThread));
    RunShrinks(p, actions);
    var q := Execute(p, actions);
    WorkIsNat(q);
    OutputInOrder(jobs, ioThread, capacity, percent, actions);
    if q.stage.Joined? {
      JoinedIsOver(q);
    } else {
      AlwaysInv(p, actions);
      StartIsRoomy(jobs, ioThread, capacity, percent);
      var a := NoDeadlock(q);
    }
  }

  /** The capacities of the program leave enough room for every number of threads. */
  lemma StartIsRoomy(jobs: seq<Job>, ioThread: u32, capacity: u64, percent: nat)
    ensures Roomy(Start(jobs, ioThread, capacity, percent))
  {
    hide Waterline, OrderCapacity, WorkCapacity;
  }

  lemma JoinedIsOver(p: Pipe)
    requires PipeInv(p) && p.stage.Joined?
    ensures forall a: Action :: !Enabled(p, a)
  {
    hide QueueInv, BusyInv, ResultInv, Covered, DataInv, OrderInv;
  }
}
