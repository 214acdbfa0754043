// The blocking containers of the pax pipeline: what each holds, when each call
// may proceed, and the objects themselves.
module Containers {
  import opened Base

  // ------------------------------------------------------------ closable queue

  /** A limit of 0 means unbounded. */
  datatype Queue<T> = Queue(items: seq<T>, limit: nat, closed: bool) {
    predicate MayPush() { closed || limit == 0 || |items| < limit }

    function Push(x: T): (Queue<T>, bool)
      requires MayPush()
    {
      if closed then (this, false) else (this.(items := items + [x]), true)
    }

    predicate MayPop() { closed || items != [] }

    /** Closing does not discard: what was accepted is still handed out. */
    function Pop(): (Queue<T>, Option<T>)
      requires MayPop()
    {
      if items == [] then (this, None) else (this.(items := items[1..]), Some(items[0]))
    }

    function Close(): Queue<T> { this.(closed := true) }
  }

  class ClosableQueue<T> {
    const limit: nat
    var items: seq<T>
    var closed: bool

    ghost function Q(): Queue<T>
      reads this
    {
      Queue(items, limit, closed)
    }

    constructor (limit: nat)
      ensures Q() == Queue([], limit, false)
    {
      this.limit := limit;
      items := [];
      closed := false;
    }

    method Push(x: T) returns (accepted: bool)
      requires Q().MayPush()
      modifies this`items
      ensures (Q(), accepted) == old(Q()).Push(x)
    {
      if closed {
        return false;
      }
      items := items + [x];
      return true;
    }

    method Pop() returns (x: Option<T>)
      requires Q().MayPop()
      modifies this`items
      ensures (Q(), x) == old(Q()).Pop()
    {
      if items == [] {
        return None;
      }
      x := Some(items[0]);
      items := items[1..];
    }

    method Close()
      modifies this`closed
      ensures Q() == old(Q()).Close()
    {
      closed := true;
    }
  }

  // -------------------------------------------------------------- result store

  datatype Store<T> = Store(results: map<nat, T>, limit: nat, closed: bool) {
    predicate MayPut() { closed || limit == 0 || |results| < limit }

    /** A result that is already there is not replaced. */
    function Put(seqNum: nat, value: T): (Store<T>, bool)
      requires MayPut()
    {
      if closed then (this, false)
      else (this.(results := if seqNum in results then results else results[seqNum := value]), true)
    }

    predicate MayTake(seqNum: nat) { closed || seqNum in results }

    function Take(seqNum: nat): (Store<T>, Option<T>)
      requires MayTake(seqNum)
    {
      if seqNum !in results then (this, None) else (this.(results := results - {seqNum}), Some(results[seqNum]))
    }

    function Close(): Store<T> { this.(closed := true) }
  }

  class ResultStore<T> {
    const limit: nat
    var results: map<nat, T>
    var closed: bool

    ghost function R(): Store<T>
      reads this
    {
      Store(results, limit, closed)
    }

    constructor (limit: nat)
      ensures R() == Store(map[], limit, false)
    {
      this.limit := limit;
      results := map[];
      closed := false;
    }

    method Put(seqNum: nat, value: T) returns (accepted: bool)
      requires R().MayPut()
      modifies this`results
      ensures (R(), accepted) == old(R()).Put(seqNum, value)
    {
      if closed {
        return false;
      }
      if seqNum !in results {
        results := results[seqNum := value];
      }
      return true;
    }

    method Take(seqNum: nat) returns (value: Option<T>)
      requires R().MayTake(seqNum)
      modifies this`results
      ensures (R(), value) == old(R()).Take(seqNum)
    {
      if seqNum !in results {
        return None;
      }
      value := Some(results[seqNum]);
      results := results - {seqNum};
    }

    method Close()
      modifies this`closed
      ensures R() == old(R()).Close()
    {
      closed := true;
    }
  }

  // ------------------------------------------------------------ bounded buffer

  datatype Buffer = Buffer(chunks: seq<seq<u8>>, capacity: nat, closed: bool) {
    function Total(): nat { |Concat(chunks)| }

    /** The limit is on what is there before: one push may overshoot it. */
    predicate MayPush() { Total() < capacity || closed }

    function Push(chunk: seq<u8>): (Buffer, bool)
      requires MayPush()
    {
      if closed then (this, false) else (this.(chunks := chunks + [chunk]), true)
    }

    /** Popping, when waiting for a fill of `least` bytes (0: for anything). */
    predicate MayPop(least: nat) { closed || (chunks != [] && Total() >= least) }

    /** An empty result means closed and drained. */
    function Pop(least: nat): (Buffer, seq<u8>)
      requires MayPop(least)
    {
      if chunks == [] then (this, []) else (this.(chunks := chunks[1..]), chunks[0])
    }

    function Close(): Buffer { this.(closed := true) }
  }

  class BoundedBuffer {
    const capacity: nat
    var chunks: seq<seq<u8>>
    var totalBytes: nat
    var closed: bool

    ghost predicate Valid()
      reads this
    {
      totalBytes == |Concat(chunks)|
    }

    ghost function B(): Buffer
      reads this
    {
      Buffer(chunks, capacity, closed)
    }

    constructor (capacity: nat)
      ensures Valid() && B() == Buffer([], capacity, false)
    {
      this.capacity := capacity;
      chunks := [];
      totalBytes := 0;
      closed := false;
    }

    method Push(chunk: seq<u8>) returns (accepted: bool)
      requires Valid() && (totalBytes < capacity || closed)
      modifies this`chunks, this`totalBytes
      ensures Valid() && old(B()).MayPush() && (B(), accepted) == old(B()).Push(chunk)
    {
      if closed {
        return false;
      }
      ConcatAppend(chunks, [chunk]);
      ConcatOne(chunk);
      totalBytes := totalBytes + |chunk|;
      chunks := chunks + [chunk];
      return true;
    }

    method PopAfterFill(least: nat) returns (chunk: seq<u8>)
      requires Valid() && (closed || (chunks != [] && totalBytes >= least))
      modifies this`chunks, this`totalBytes
      ensures Valid() && old(B()).MayPop(least) && (B(), chunk) == old(B()).Pop(least)
    {
      if chunks == [] {
        return [];
      }
      chunk := chunks[0];
      chunks := chunks[1..];
      totalBytes := totalBytes - |chunk|;
    }

    method Pop() returns (chunk: seq<u8>)
      requires Valid() && (closed || chunks != [])
      modifies this`chunks, this`totalBytes
      ensures Valid() && old(B()).MayPop(0) && (B(), chunk) == old(B()).Pop(0)
    {
      chunk := PopAfterFill(0);
    }

    method Close()
      requires Valid()
      modifies this`closed
      ensures Valid() && B() == old(B()).Close()
    {
      closed := true;
    }
  }
}
