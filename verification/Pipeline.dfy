// The ordered concurrent pipeline of one slice: dispatcher, workers, serializer
// and output thread as a step system over the shared containers.
module Pipeline {
  import opened Base
  import opened Containers

  // ---------------------------------------------------------------- capacities

  function AtLeast(low: nat, x: nat): nat { if x < low then low else x }

  /** The thread count is a 32-bit word, and so are its multiples. */
  function WorkerCount(ioThread: u32): nat { if ioThread > 0 then ioThread - 1 else 0 }

  function OrderCapacity(ioThread: u32): nat { AtLeast(64, (ioThread * 8) % 0x1_0000_0000) }

  function WorkCapacity(ioThread: u32): nat { AtLeast(1, (ioThread * 4) % 0x1_0000_0000) }

  function ResultCapacity(ioThread: u32): nat { OrderCapacity(ioThread) + WorkerCount(ioThread) }

  /** The fill below which a drained output waits, on 64-bit words. */
  function Waterline(capacity: u64, percent: nat): nat {
    (capacity * percent % TWO_64) / 100
  }

  // --------------------------------------------------------------------- state

  /** An entry by how it is dispatched: serialized in place, by a worker, or
      streamed chunk by chunk. A skipped entry has no bytes. */
  datatype Job = Inline(bytes: seq<u8>) | Small(bytes: seq<u8>) | Large(parts: seq<seq<u8>>) {
    /** Only non-empty chunks are pushed. */
    predicate Valid() {
      Large? ==> forall i :: 0 <= i < |parts| ==> parts[i] != []
    }

    function Chunks(): seq<seq<u8>> {
      if Large? then parts else if bytes == [] then [] else [bytes]
    }

    /** What the entry contributes to the slice. */
    function Own(): seq<u8> {
      match this
      case Inline(bytes) => bytes
      case Small(bytes) => bytes
      case Large(parts) => Concat(parts)
    }
  }

  datatype Worker = Free | Busy(job: nat) | Exited

  datatype Serializer = Waiting | Awaiting(job: nat) | Emitting(parts: seq<seq<u8>>) | SerializerDone

  datatype OutputThread = Popping(fill: bool) | Writing(chunk: seq<u8>) | Deciding | OutputDone

  /** The dispatching thread, which also joins the others. */
  datatype Stage = Dispatching | Publishing | JoiningWorkers | JoiningSerializer | JoiningOutput | Joined {
    function Rank(): nat {
      match this
      case Dispatching => 0
      case Publishing => 0
      case JoiningWorkers => 1
      case JoiningSerializer => 2
      case JoiningOutput => 3
      case Joined => 4
    }
  }

  datatype Pipe = Pipe(
    jobs: seq<Job>,
    next: nat,
    stage: Stage,
    work: Queue<nat>,
    order: Queue<nat>,
    results: Store<seq<u8>>,
    workers: seq<Worker>,
    serializer: Serializer,
    buffer: Buffer,
    restart: nat,
    output: OutputThread,
    written: seq<u8>)

  /** A slice's pipeline as it starts, with any limit on the result store. */
  function StartWith(jobs: seq<Job>, ioThread: u32, capacity: u64, percent: nat, storeLimit: nat): Pipe {
    Pipe(jobs, 0, Dispatching, Queue([], WorkCapacity(ioThread), false), Queue([], OrderCapacity(ioThread), false),
         Store(map[], storeLimit, false), seq(WorkerCount(ioThread), _ => Free), Waiting,
         Buffer([], capacity, false), Waterline(capacity, percent),
         Popping(Waterline(capacity, percent) > 0), [])
  }

  function Start(jobs: seq<Job>, ioThread: u32, capacity: u64, percent: nat): Pipe {
    StartWith(jobs, ioThread, capacity, percent, ResultCapacity(ioThread))
  }

  // --------------------------------------------------------------------- steps

  datatype Action =
    | PublishWork | PublishOrder | FinishInput
    | WorkerPop(k: nat) | WorkerPut(k: nat)
    | SerializerPop | SerializerTake | SerializerPush
    | OutputPop | OutputWrite | OutputDecide
    | JoinWorkers | JoinSerializer | JoinOutput

  predicate Enabled(p: Pipe, a: Action) {
    match a
    case PublishWork => p.stage.Dispatching? && p.next < |p.jobs| && p.jobs[p.next].Small? && p.work.MayPush()
    case PublishOrder =>
      && (p.stage.Publishing? || (p.stage.Dispatching? && p.next < |p.jobs| && !p.jobs[p.next].Small?))
      && p.order.MayPush()
    case FinishInput => p.stage.Dispatching? && p.next == |p.jobs|
    case WorkerPop(k) => k < |p.workers| && p.workers[k].Free? && p.work.MayPop()
    case WorkerPut(k) =>
      k < |p.workers| && p.workers[k].Busy? && p.workers[k].job < |p.jobs| && p.jobs[p.workers[k].job].Small?
      && p.results.MayPut()
    case SerializerPop =>
      p.serializer.Waiting? && p.order.MayPop() && (p.order.items != [] ==> p.order.items[0] < |p.jobs|)
    case SerializerTake => p.serializer.Awaiting? && p.results.MayTake(p.serializer.job)
    case SerializerPush =>
      p.serializer.Emitting? && (p.serializer.parts == [] || p.buffer.MayPush())
    case OutputPop => p.output.Popping? && p.buffer.MayPop(if p.output.fill then p.restart else 0)
    case OutputWrite => p.output.Writing?
    case OutputDecide => p.output.Deciding?
    case JoinWorkers => p.stage.JoiningWorkers? && forall k :: 0 <= k < |p.workers| ==> p.workers[k].Exited?
    case JoinSerializer => p.stage.JoiningSerializer? && p.serializer.SerializerDone?
    case JoinOutput => p.stage.JoiningOutput? && p.output.OutputDone?
  }

  /** A refused push or an absent result makes the thread return. */
  function StepDispatch(p: Pipe, a: Action): Pipe
    requires Enabled(p, a) && (a.PublishWork? || a.PublishOrder? || a.FinishInput?)
  {
    match a
    case PublishWork => p.(work := p.work.Push(p.next).0, stage := Publishing)
    case PublishOrder => p.(order := p.order.Push(p.next).0, next := p.next + 1, stage := Dispatching)
    case FinishInput => p.(work := p.work.Close(), order := p.order.Close(), stage := JoiningWorkers)
  }

  function StepWorker(p: Pipe, a: Action): Pipe
    requires Enabled(p, a) && (a.WorkerPop? || a.WorkerPut?)
  {
    match a
    case WorkerPop(k) =>
      var popped := p.work.Pop();
      p.(work := popped.0,
         workers := p.workers[k := if popped.1.Some? then Busy(popped.1.value) else Exited])
    case WorkerPut(k) =>
      var i := p.workers[k].job;
      var put := p.results.Put(i, p.jobs[i].bytes);
      p.(results := put.0, workers := p.workers[k := if put.1 then Free else Exited])
  }

  function StepSerializer(p: Pipe, a: Action): Pipe
    requires Enabled(p, a) && (a.SerializerPop? || a.SerializerTake? || a.SerializerPush?)
  {
    match a
    case SerializerPop =>
      var popped := p.order.Pop();
      p.(order := popped.0,
         serializer := if popped.1.None? then SerializerDone
                       else
                         var i := popped.1.value;
                         if p.jobs[i].Small? then Awaiting(i) else Emitting(p.jobs[i].Chunks()))
    case SerializerTake =>
      var taken := p.results.Take(p.serializer.job);
      p.(results := taken.0,
         serializer := if taken.1.None? then SerializerDone else Emitting(Small(taken.1.value).Chunks()))
    case SerializerPush =>
      var parts := p.serializer.parts;
      if parts == [] then p.(serializer := Waiting)
      else
        var pushed := p.buffer.Push(parts[0]);
        p.(buffer := pushed.0, serializer := if pushed.1 then Emitting(parts[1..]) else SerializerDone)
  }

  function StepOutput(p: Pipe, a: Action): Pipe
    requires Enabled(p, a) && (a.OutputPop? || a.OutputWrite? || a.OutputDecide?)
  {
    match a
    case OutputPop =>
      var popped := p.buffer.Pop(if p.output.fill then p.restart else 0);
      p.(buffer := popped.0, output := if popped.1 == [] then OutputDone else Writing(popped.1))
    case OutputWrite => p.(written := p.written + p.output.chunk, output := Deciding)
    case OutputDecide => p.(output := Popping(p.restart > 0 && p.buffer.Total() == 0))
  }

  function Step(p: Pipe, a: Action): Pipe
    requires Enabled(p, a)
  {
    match a
    case PublishWork => StepDispatch(p, a)
    case PublishOrder => StepDispatch(p, a)
    case FinishInput => StepDispatch(p, a)
    case WorkerPop(_) => StepWorker(p, a)
    case WorkerPut(_) => StepWorker(p, a)
    case SerializerPop => StepSerializer(p, a)
    case SerializerTake => StepSerializer(p, a)
    case SerializerPush => StepSerializer(p, a)
    case OutputPop => StepOutput(p, a)
    case OutputWrite => StepOutput(p, a)
    case OutputDecide => StepOutput(p, a)
    case JoinWorkers => p.(stage := JoiningSerializer, results := p.results.Close())
    case JoinSerializer => p.(stage := JoiningOutput, buffer := p.buffer.Close())
    case JoinOutput => p.(stage := Joined)
  }

  function Execute(p: Pipe, actions: seq<Action>): Pipe {
    if actions == [] then p
    else
      var before := Execute(p, actions[..|actions| - 1]);
      if Enabled(before, actions[|actions| - 1]) then Step(before, actions[|actions| - 1]) else before
  }

  // ---------------------------------------------------------------- invariant

  /** The bytes that entries contribute, in dispatch order. */
  function BytesOf(jobs: seq<Job>): seq<u8> {
    if jobs == [] then [] else BytesOf(jobs[..|jobs| - 1]) + jobs[|jobs| - 1].Own()
  }

  /** Order items taken so far. */
  function Popped(p: Pipe): int { p.next - |p.order.items| }

  /** Entries whose bytes the serializer has in hand or has passed on. */
  function Emitted(p: Pipe): int { Popped(p) - Count(p.serializer.Awaiting?) }

  /** Entries handed to the workers so far end here. */
  function Published(p: Pipe): nat { p.next + Count(p.stage.Publishing?) }

  predicate InPlay(p: Pipe, i: nat) {
    Emitted(p) <= i < Published(p) && i < |p.jobs| && p.jobs[i].Small?
  }

  ghost predicate Held(p: Pipe, i: nat) {
    exists k :: 0 <= k < |p.workers| && p.workers[k] == Busy(i)
  }

  ghost predicate OrderInv(p: Pipe) {
    && 0 <= Emitted(p) && p.next <= |p.jobs|
    && (p.stage.Publishing? ==> p.next < |p.jobs| && p.jobs[p.next].Small?)
    && (forall j :: 0 <= j < |p.order.items| ==> p.order.items[j] == Popped(p) + j)
    && (p.serializer.Awaiting? ==> p.serializer.job == Emitted(p) && p.jobs[p.serializer.job].Small?)
    && p.order.limit > 0 && p.work.limit > 0 && |p.order.items| <= p.order.limit
  }

  /** Work is handed out in order. */
  ghost predicate QueueInv(p: Pipe) {
    && (forall j :: 0 <= j < |p.work.items| ==> InPlay(p, p.work.items[j]))
    && (forall j, k :: 0 <= j < k < |p.work.items| ==> p.work.items[j] < p.work.items[k])
  }

  ghost predicate BusyInv(p: Pipe) {
    && (forall k :: 0 <= k < |p.workers| && p.workers[k].Busy? ==>
          && InPlay(p, p.workers[k].job)
          && p.workers[k].job !in p.results.results
          && (forall j :: 0 <= j < |p.work.items| ==> p.workers[k].job < p.work.items[j]))
    && (forall k, l :: 0 <= k < l < |p.workers| && p.workers[k].Busy? && p.workers[l].Busy? ==>
          p.workers[k].job != p.workers[l].job)
  }

  ghost predicate ResultInv(p: Pipe) {
    && (forall i :: i in p.results.results ==>
          && InPlay(p, i) && p.results.results[i] == p.jobs[i].bytes
          && (forall j :: 0 <= j < |p.work.items| ==> i < p.work.items[j]))
    && (|p.workers| == 1 && p.workers[0].Busy? ==>
          forall i :: i in p.results.results ==> i < p.workers[0].job)
  }

  /** No published entry gets lost on its way to the serializer. */
  ghost predicate Covered(p: Pipe) {
    forall i: nat {:trigger InPlay(p, i)} :: InPlay(p, i) ==>
      i in p.work.items || i in p.results.results || Held(p, i)
  }

  function InHand(p: Pipe): seq<u8> {
    if p.serializer.Emitting? then Concat(p.serializer.parts) else []
  }

  function BeingWritten(p: Pipe): seq<u8> {
    if p.output.Writing? then p.output.chunk else []
  }

  ghost predicate DataInv(p: Pipe)
    requires OrderInv(p)
  {
    && (forall i :: 0 <= i < |p.jobs| ==> p.jobs[i].Valid())
    && p.written + BeingWritten(p) + Concat(p.buffer.chunks) + InHand(p) == BytesOf(p.jobs[..Emitted(p)])
    && (forall i :: 0 <= i < |p.buffer.chunks| ==> p.buffer.chunks[i] != [])
    && (p.serializer.Emitting? ==> forall i :: 0 <= i < |p.serializer.parts| ==> p.serializer.parts[i] != [])
    && 0 < p.buffer.capacity && p.restart <= p.buffer.capacity
  }

  ghost predicate StageInv(p: Pipe) {
    && p.work.closed == p.order.closed == (p.stage.Rank() >= 1)
    && p.results.closed == (p.stage.Rank() >= 2)
    && p.buffer.closed == (p.stage.Rank() >= 3)
    && (p.stage.Rank() >= 1 ==> p.next == |p.jobs|)
    && (forall k :: 0 <= k < |p.workers| && p.workers[k].Exited? ==> p.work.closed && p.work.items == [])
    && (p.stage.Rank() >= 2 ==> forall k :: 0 <= k < |p.workers| ==> p.workers[k].Exited?)
    && (p.serializer.SerializerDone? ==> p.order.closed && p.order.items == [])
    && (p.stage.Rank() >= 3 ==> p.serializer.SerializerDone?)
    && (p.output.OutputDone? ==> p.buffer.closed && p.buffer.chunks == [])
    && (p.stage.Rank() >= 4 ==> p.output.OutputDone?)
    && (|p.workers| == 0 ==> forall i :: 0 <= i < |p.jobs| ==> !p.jobs[i].Small?)
  }

  ghost predicate PipeInv(p: Pipe) {
    OrderInv(p) && QueueInv(p) && BusyInv(p) && ResultInv(p) && Covered(p) && DataInv(p) && StageInv(p)
  }
}
