/** Octets, results and the network-byte-order integers every SMPP field is built from. */
module Bytes {

  type byte = b: int | 0 <= b < 256
  type bytes = seq<byte>

  type uint16 = n: int | 0 <= n < 0x1_0000
  type uint32 = n: int | 0 <= n < 0x1_0000_0000

  datatype Option<+T> = None | Some(value: T)

  /** Structural failures after which the TCP stream must not be trusted. */
  datatype FatalKind =
    | InvalidCommandLength
    | PDUTooLarge
    | TruncatedFrame
    | InvalidFieldLength
    | InvalidCString
    | InvalidTLVLength
    | FrameBoundaryLost

  /** Fatal: the connection is lost. Semantic: framing is intact and the peer is
      answered with a status. Rejected: a local encoding or lookup error. */
  datatype Error =
    | Fatal(kind: FatalKind, declared: uint32)
    | Semantic(status: uint32)
    | Rejected

  datatype Result<+T> = Ok(value: T) | Err(error: Error) {
    predicate IsFailure() { Err? }

    function PropagateFailure<U>(): Result<U>
      requires Err?
    {
      Err(error)
    }

    function Extract(): T
      requires Ok?
    {
      value
    }
  }

  /** Big-endian value of two octets. */
  function U16(s: bytes): (n: uint16)
    requires |s| == 2
  {
    s[0] as int * 256 + s[1]
  }

  /** The two octets of n, most significant first. */
  function Put16(n: uint16): (s: bytes)
    ensures |s| == 2 && U16(s) == n
  {
    [n / 256, n % 256]
  }

  /** Big-endian value of four octets. */
  function U32(s: bytes): (n: uint32)
    requires |s| == 4
  {
    U16(s[..2]) as int * 0x1_0000 + U16(s[2..])
  }

  /** The four octets of n, most significant first. */
  function Put32(n: uint32): (s: bytes)
    ensures |s| == 4 && U32(s) == n
  {
    var s := Put16(n / 0x1_0000) + Put16(n % 0x1_0000);
    assert s[..2] == Put16(n / 0x1_0000) && s[2..] == Put16(n % 0x1_0000);
    s
  }

  /** Put16 is the only encoding of its value. */
  lemma Put16Unique(s: bytes)
    requires |s| == 2
    ensures Put16(U16(s)) == s
  {
    var t := Put16(U16(s));
    assert t[0] == s[0] && t[1] == s[1];
  }

  /** Put32 is the only encoding of its value. */
  lemma Put32Unique(s: bytes)
    requires |s| == 4
    ensures Put32(U32(s)) == s
  {
    var hi, lo: int := U16(s[..2]), U16(s[2..]);
    Put16Unique(s[..2]);
    Put16Unique(s[2..]);
    assert U32(s) / 0x1_0000 == hi && U32(s) % 0x1_0000 == lo;
    assert s == s[..2] + s[2..];
  }

  /** Concatenation of a list of strings. */
  function Concat<T>(parts: seq<seq<T>>): (s: seq<T>)
  {
    if parts == [] then [] else parts[0] + Concat(parts[1..])
  }

  lemma {:induction false} ConcatAppend<T>(xs: seq<seq<T>>, ys: seq<seq<T>>)
    ensures Concat(xs + ys) == Concat(xs) + Concat(ys)
  {
    if xs == [] {
      assert xs + ys == ys;
    } else {
      assert (xs + ys)[1..] == xs[1..] + ys;
      ConcatAppend(xs[1..], ys);
    }
  }

  lemma ConcatCons<T>(x: seq<T>, ys: seq<seq<T>>)
    ensures Concat([x] + ys) == x + Concat(ys)
  {
    assert ([x] + ys)[1..] == ys;
  }

  lemma ConcatSnoc<T>(xs: seq<seq<T>>, y: seq<T>)
    ensures Concat(xs + [y]) == Concat(xs) + y
  {
    ConcatAppend(xs, [y]);
    assert Concat([y]) == y + Concat([]) by { assert [y][1..] == []; }
  }
}
