/** Failure-carrying results shared by the whole model. */
module Wrappers {
  datatype Option<+T> = None | Some(value: T)

  datatype Result<+T, +E> = Ok(value: T) | Err(error: E) {
    predicate IsFailure() {
      Err?
    }
    function PropagateFailure<U>(): Result<U, E>
      requires Err?
    {
      Err(error)
    }
    function Extract(): T
      requires Ok?
    {
      value
    }
  }
}

/** Octet strings and the few operations on them that the codecs use. */
module Bytes {

  type Byte = b: int | 0 <= b < 0x100
  type Bytes = seq<Byte>

  function Fill(n: nat, b: Byte): (r: Bytes)
    ensures |r| == n && forall i | 0 <= i < n :: r[i] == b
  {
    seq(n, i => b)
  }

  function Zeros(n: nat): (r: Bytes)
    ensures |r| == n && forall i | 0 <= i < n :: r[i] == 0
  {
    Fill(n, 0)
  }

  predicate AllZero(s: Bytes) {
    forall i | 0 <= i < |s| :: s[i] == 0
  }

  function Sum(s: Bytes): (r: nat)
    ensures r <= 255 * |s|
  {
    if s == [] then 0 else s[0] + Sum(s[1..])
  }

  lemma {:induction false} SumAppend(a: Bytes, b: Bytes)
    ensures Sum(a + b) == Sum(a) + Sum(b)
  {
    if a == [] {
      assert a + b == b;
    } else {
      assert (a + b)[1..] == a[1..] + b;
      SumAppend(a[1..], b);
    }
  }

  lemma {:induction false} SumFill(n: nat, b: Byte)
    ensures Sum(Fill(n, b)) == n * b
  {
    if n > 0 {
      assert Fill(n, b)[1..] == Fill(n - 1, b);
      SumFill(n - 1, b);
      assert n * b == (n - 1) * b + b;
    }
  }
}
