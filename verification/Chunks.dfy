/**
 Writing and reading sequences of items in a message, with the dictionary of written names
 threaded through.
 */
module Chunks {
  import opened Bytes
  import opened DomainText

  /** Dotted suffixes and the offsets where they were first written. */
  type Dictionary = map<Text, nat>

  /** What a writing step adds to the message: bytes, the dictionary after them, and whether the
      step stayed within what a reader can follow. A step that is not `ok` has written a pointer to
      an offset beyond 14 bits or a label whose length octet looks like a pointer, or has trapped
      on a length beyond one octet. */
  datatype Chunk = Chunk(bytes: seq<byte>, dict: Dictionary, ok: bool)

  /** Appends chunk `d` to chunk `c`. */
  function Then(c: Chunk, d: Chunk): (r: Chunk) {
    Chunk(c.bytes + d.bytes, d.dict, c.ok && d.ok)
  }

  /** Writing items one after the other. */
  function EncodeMany<T>(
    encode: (nat, Dictionary, T) -> Chunk, offset: nat, dict: Dictionary, items: seq<T>): (r: Chunk)
    decreases |items|
  {
    if items == [] then Chunk([], dict, true)
    else
      var c := encode(offset, dict, items[0]);
      var rest := EncodeMany(encode, offset + |c.bytes|, c.dict, items[1..]);
      Chunk(c.bytes + rest.bytes, rest.dict, c.ok && rest.ok)
  }

  /** Reading `count` items one after the other. */
  function ParseMany<U>(parse: nat -> Outcome<U>, pos: nat, count: nat): (r: Outcome<seq<U>>)
    decreases count
  {
    if count == 0 then Value([], pos)
    else
      var (item, next) :- parse(pos);
      var (items, end) :- ParseMany(parse, next, count - 1);
      Value([item] + items, end)
  }

  function MapAll<T, U>(f: T -> U, items: seq<T>): (r: seq<U>)
    ensures |r| == |items|
    ensures forall i :: 0 <= i < |items| ==> r[i] == f(items[i])
    decreases |items|
  {
    if items == [] then [] else [f(items[0])] + MapAll(f, items[1..])
  }

  /** An item written at `pos` under the invariant reads back as `normal(x)` and keeps the invariant. */
  ghost predicate ItemKept<T, U>(
    b: seq<byte>, holds: (Dictionary, nat) -> bool, encode: (nat, Dictionary, T) -> Chunk,
    parse: nat -> Outcome<U>, normal: T -> U, pos: nat, dict: Dictionary, x: T)
  {
    var c := encode(pos, dict, x);
    holds(dict, pos) && c.ok && Has(b, pos, c.bytes) ==>
      parse(pos) == Value(normal(x), pos + |c.bytes|) && holds(c.dict, pos + |c.bytes|)
  }

  /** If each item keeps the invariant and reads back, so does the whole sequence. */
  lemma {:induction false} ManyKept<T, U>(
    b: seq<byte>, holds: (Dictionary, nat) -> bool, encode: (nat, Dictionary, T) -> Chunk,
    parse: nat -> Outcome<U>, normal: T -> U, pos: nat, dict: Dictionary, items: seq<T>)
    requires forall p: nat, d: Dictionary, i ::
               0 <= i < |items| ==> ItemKept(b, holds, encode, parse, normal, p, d, items[i])
    requires holds(dict, pos)
    requires EncodeMany(encode, pos, dict, items).ok && Has(b, pos, EncodeMany(encode, pos, dict, items).bytes)
    ensures var c := EncodeMany(encode, pos, dict, items);
            && ParseMany(parse, pos, |items|) == Value(MapAll(normal, items), pos + |c.bytes|)
            && holds(c.dict, pos + |c.bytes|)
    decreases |items|
  {
    if items != [] {
      var c := encode(pos, dict, items[0]);
      var rest := EncodeMany(encode, pos + |c.bytes|, c.dict, items[1..]);
      HasSplits(b, pos, c.bytes, rest.bytes);
      assert ItemKept(b, holds, encode, parse, normal, pos, dict, items[0]);
      forall p: nat, d: Dictionary, i | 0 <= i < |items[1..]|
        ensures ItemKept(b, holds, encode, parse, normal, p, d, items[1..][i])
      {
        assert items[1..][i] == items[i + 1];
      }
      ManyKept(b, holds, encode, parse, normal, pos + |c.bytes|, c.dict, items[1..]);
    }
  }

  /** What holds of every item a reader yields holds of the items of a section. */
  lemma {:induction false} ManyParsed<U>(parse: nat -> Outcome<U>, good: U -> bool, pos: nat, count: nat)
    requires forall p: nat :: parse(p).Value? ==> good(parse(p).value)
    requires ParseMany(parse, pos, count).Value?
    ensures var items := ParseMany(parse, pos, count).value;
            |items| == count && forall i :: 0 <= i < |items| ==> good(items[i])
    decreases count
  {
    if count > 0 {
      ManyParsed(parse, good, parse(pos).next, count - 1);
    }
  }
}
