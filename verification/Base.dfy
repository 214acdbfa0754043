// Shared value types: fixed-width integers, options and results.
module Base {
  const TWO_64: int := 0x1_0000_0000_0000_0000

  type u8 = x: int | 0 <= x < 0x100
  type u16 = x: int | 0 <= x < 0x1_0000
  type u32 = x: int | 0 <= x < 0x1_0000_0000
  type u64 = x: int | 0 <= x < 0x1_0000_0000_0000_0000

  /** Unsigned 64-bit successor, which wraps at the top of the range. */
  function Succ(x: u64): u64 {
    if x == TWO_64 - 1 then 0 else x + 1
  }

  datatype Option<+T> = None | Some(value: T)

  datatype Result<+T, +E> = Ok(value: T) | Err(error: E)

  /** A flag as a count. */
  function Count(b: bool): nat { if b then 1 else 0 }

  function Zeros(n: nat): (z: seq<u8>)
    ensures |z| == n
    ensures forall i :: 0 <= i < n ==> z[i] == 0
  {
    seq(n, _ => 0)
  }

  function Concat<T>(parts: seq<seq<T>>): seq<T>
    decreases |parts|
  {
    if parts == [] then [] else parts[0] + Concat(parts[1..])
  }

  lemma {:induction false} ConcatAppend<T>(A: seq<seq<T>>, B: seq<seq<T>>)
    ensures Concat(A + B) == Concat(A) + Concat(B)
    decreases |A|
  {
    if A == [] {
      assert A + B == B;
    } else {
      ConcatAppend(A[1..], B);
      assert (A + B)[1..] == A[1..] + B;
      assert A[0] + (Concat(A[1..]) + Concat(B)) == (A[0] + Concat(A[1..])) + Concat(B);
    }
  }

  lemma ConcatOne<T>(part: seq<T>)
    ensures Concat([part]) == part
  {
    assert Concat([part]) == part + Concat([]);
  }
}
