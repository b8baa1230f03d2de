/**
 Bytes, fixed-width integers in network order, and the outcome of reading them from a buffer.
 */
module Bytes {

  type byte = b: int | 0 <= b < 256
  type u16 = x: int | 0 <= x < 0x1_0000
  type u32 = x: int | 0 <= x < 0x1_0000_0000
  type i32 = x: int | -0x8000_0000 <= x < 0x8000_0000

  datatype Option<+T> = None | Some(value: T)

  /** The result of reading a value at a cursor: the value and the next cursor, a thrown
      DNSError, or a run that never returns. */
  datatype Outcome<+T> = Value(value: T, next: nat) | Refused | Diverges {
    predicate IsFailure() {
      !Value?
    }

    function PropagateFailure<U>(): (r: Outcome<U>)
      requires !Value?
    {
      if Refused? then Outcome<U>.Refused else Outcome<U>.Diverges
    }

    function Extract(): (T, nat)
      requires Value?
    {
      (value, next)
    }
  }

  function Min(a: int, b: int): (r: int) {
    if a <= b then a else b
  }

  function U16(v: u16): (r: seq<byte>)
    ensures |r| == 2
  {
    [v / 256, v % 256]
  }

  function U32(v: u32): (r: seq<byte>)
    ensures |r| == 4
  {
    U16(v / 0x1_0000) + U16(v % 0x1_0000)
  }

  function Unsigned(v: i32): (r: u32) {
    if v < 0 then v + 0x1_0000_0000 else v
  }

  /** A signed 32-bit value is written in two's complement. */
  function I32(v: i32): (r: seq<byte>)
    ensures |r| == 4
  {
    U32(Unsigned(v))
  }

  /** The big-endian 16-bit word of two octets. */
  function Word(high: int, low: int): (r: int) {
    high * 256 + low
  }

  function Get8(b: seq<byte>, pos: nat): (r: Outcome<byte>)
    ensures r.Value? ==> r.next == pos + 1 <= |b|
  {
    if pos < |b| then Value(b[pos], pos + 1) else Refused
  }

  function Get16(b: seq<byte>, pos: nat): (r: Outcome<u16>)
    ensures r.Value? ==> r.next == pos + 2 <= |b|
  {
    if pos + 2 <= |b| then
      Value(Word(b[pos], b[pos + 1]), pos + 2)
    else Refused
  }

  function Get32(b: seq<byte>, pos: nat): (r: Outcome<u32>)
    ensures r.Value? ==> r.next == pos + 4 <= |b|
  {
    var (high, middle) :- Get16(b, pos);
    var (low, next) :- Get16(b, middle);
    Value(high * 0x1_0000 + low, next)
  }

  function GetI32(b: seq<byte>, pos: nat): (r: Outcome<i32>)
    ensures r.Value? ==> r.next == pos + 4 <= |b|
  {
    var (v, next) :- Get32(b, pos);
    Value(if v < 0x8000_0000 then v else v - 0x1_0000_0000, next)
  }

  function GetBytes(b: seq<byte>, pos: nat, length: nat): (r: Outcome<seq<byte>>)
    ensures r.Value? <==> pos + length <= |b|
    ensures r.Value? ==> r.next == pos + length && r.value == b[pos..pos + length]
  {
    if pos + length <= |b| then Value(b[pos..pos + length], pos + length) else Refused
  }

  /** `part` stands at `pos` of the buffer. */
  predicate Has(b: seq<byte>, pos: nat, part: seq<byte>) {
    pos + |part| <= |b| && forall i :: 0 <= i < |part| ==> b[pos + i] == part[i]
  }

  lemma {:induction false} HasIsSlice(b: seq<byte>, pos: nat, part: seq<byte>)
    ensures Has(b, pos, part) <==> pos + |part| <= |b| && b[pos..pos + |part|] == part
  {
    if pos + |part| <= |b| && b[pos..pos + |part|] == part {
      forall i | 0 <= i < |part| ensures b[pos + i] == part[i] {
        assert b[pos..pos + |part|][i] == part[i];
      }
    }
  }

  lemma {:induction false} HasSplits(b: seq<byte>, pos: nat, x: seq<byte>, y: seq<byte>)
    ensures Has(b, pos, x + y) <==> Has(b, pos, x) && Has(b, pos + |x|, y)
  {
    if Has(b, pos, x + y) {
      forall i | 0 <= i < |x| ensures b[pos + i] == x[i] {
        assert (x + y)[i] == x[i];
      }
      forall i | 0 <= i < |y| ensures b[pos + |x| + i] == y[i] {
        assert (x + y)[|x| + i] == y[i];
      }
    }
    if Has(b, pos, x) && Has(b, pos + |x|, y) {
      forall i | 0 <= i < |x + y| ensures b[pos + i] == (x + y)[i] {
        if i >= |x| {
          assert (x + y)[i] == y[i - |x|] == b[pos + |x| + (i - |x|)];
        }
      }
    }
  }

  lemma {:induction false} HasSurvivesAppend(b: seq<byte>, more: seq<byte>, pos: nat, part: seq<byte>)
    requires Has(b, pos, part)
    ensures Has(b + more, pos, part)
  {
  }

  lemma {:induction false} HasAppended(b: seq<byte>, part: seq<byte>, after: seq<byte>)
    ensures Has(b + part, |b|, part) && Has(b + part + after, |b|, part)
  {
    HasSurvivesAppend(b + part, after, |b|, part);
  }

  /** Fixed-width integers read back as they were written. */
  lemma {:induction false} ReadsBack16(b: seq<byte>, pos: nat, v: u16)
    requires Has(b, pos, U16(v))
    ensures Get16(b, pos) == Value(v, pos + 2)
  {
    var w := U16(v);
    assert b[pos + 0] == w[0] && b[pos + 1] == w[1];
  }

  lemma {:induction false} ReadsBack32(b: seq<byte>, pos: nat, v: u32)
    requires Has(b, pos, U32(v))
    ensures Get32(b, pos) == Value(v, pos + 4)
  {
    HasSplits(b, pos, U16(v / 0x1_0000), U16(v % 0x1_0000));
    ReadsBack16(b, pos, v / 0x1_0000);
    ReadsBack16(b, pos + 2, v % 0x1_0000);
  }

  lemma {:induction false} ReadsBackI32(b: seq<byte>, pos: nat, v: i32)
    requires Has(b, pos, I32(v))
    ensures GetI32(b, pos) == Value(v, pos + 4)
  {
    ReadsBack32(b, pos, Unsigned(v));
  }
}
