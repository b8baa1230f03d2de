/**
 An IPv4 header edited in place: every setter stores its field in the octets of the header and
 brings the header checksum up to date.
 */
module Ipv4Header {
  import opened Bytes
  import opened Checksum

  function HeaderWords(b: Octets): (r: nat)
    requires |b| >= 20
  {
    b[0] % 16
  }

  function CodePoint(b: Octets): (r: nat)
    requires |b| >= 20
  {
    b[1] / 4
  }

  function Congestion(b: Octets): (r: nat)
    requires |b| >= 20
  {
    b[1] % 4
  }

  function TotalLength(b: Octets): (r: u16)
    requires |b| >= 20
  {
    WordAt(b, 2)
  }

  function Identification(b: Octets): (r: u16)
    requires |b| >= 20
  {
    WordAt(b, 4)
  }

  function Flags(b: Octets): (r: nat)
    requires |b| >= 20
  {
    WordAt(b, 6) / 0x2000
  }

  function FragmentOffset(b: Octets): (r: nat)
    requires |b| >= 20
  {
    WordAt(b, 6) % 0x2000
  }

  function TimeToLive(b: Octets): (r: byte)
    requires |b| >= 20
  {
    b[8]
  }

  function Protocol(b: Octets): (r: byte)
    requires |b| >= 20
  {
    b[9]
  }

  function Source(b: Octets): (r: Octets)
    requires |b| >= 20
  {
    b[12..16]
  }

  function Destination(b: Octets): (r: Octets)
    requires |b| >= 20
  {
    b[16..20]
  }

  function Options(b: Octets): (r: Option<Octets>)
    requires WellFormed(b)
  {
    if HeaderWords(b) > 5 then Some(b[20..]) else None
  }

  /** Where the fields that share octets are, in numbers (section 3.1 of RFC 791). */
  lemma {:induction false} SharedOctets(b: Octets)
    requires |b| >= 20
    ensures b[0] == 16 * (b[0] / 16) + HeaderWords(b) && HeaderWords(b) < 16
    ensures b[1] == 4 * CodePoint(b) + Congestion(b) && Congestion(b) < 4
    ensures 256 * (b[6] as int) + b[7] == 0x2000 * Flags(b) + FragmentOffset(b) && FragmentOffset(b) < 0x2000
    ensures TotalLength(b) == 256 * (b[2] as int) + b[3] && Identification(b) == 256 * (b[4] as int) + b[5]
    ensures TimeToLive(b) == b[8] && Protocol(b) == b[9]
    ensures Source(b) == [b[12], b[13], b[14], b[15]] && Destination(b) == [b[16], b[17], b[18], b[19]]
  {
  }

  predicate WellFormed(b: Octets) {
    |b| >= 20 && |b| == 4 * HeaderWords(b) && TotalLength(b) >= |b|
  }

  /** Two headers agree outside some octets and the checksum. */
  predicate AgreeOutside(a: Octets, b: Octets, from: nat, to: nat) {
    |a| == |b| && forall i :: 0 <= i < |a| && !(from <= i < to) && i != 10 && i != 11 ==> a[i] == b[i]
  }

  /** Octets padded with zeros to a multiple of four. */
  function Padded(options: Octets): (r: Octets)
    ensures |r| % 4 == 0 && options <= r && |r| < |options| + 4
    ensures forall i :: |options| <= i < |r| ==> r[i] == 0
  {
    if |options| % 4 == 0 then options else options + seq(4 - |options| % 4, _ => 0)
  }

  lemma {:induction false} SplitsBack(flags: nat, offset: nat)
    requires flags < 8 && offset < 0x2000
    ensures (flags * 0x2000 + offset) / 0x2000 == flags && (flags * 0x2000 + offset) % 0x2000 == offset
    ensures flags * 0x2000 + offset < 0x1_0000
  {
  }

  lemma {:induction false} NibblesBack(high: nat, low: nat)
    requires high < 16 && low < 16
    ensures (high * 16 + low) / 16 == high && (high * 16 + low) % 16 == low
  {
  }

  /** The fixed fields agree, but for the header's and the packet's length and the checksum. */
  predicate SameFixedFields(a: Octets, b: Octets)
    requires |a| >= 20 && |b| >= 20
  {
    a[0] / 16 == b[0] / 16 && forall i :: 1 <= i < 20 && i != 2 && i != 3 && i != 10 && i != 11 ==> a[i] == b[i]
  }

  class Header {
    var bytes: Octets
    var modified: bool

    ghost predicate Valid()
      reads this
    {
      WellFormed(bytes) && (modified ==> Verifies(bytes))
    }

    /** The header at the start of a packet. */
    constructor (packet: Octets)
      requires |packet| >= 20 && 20 <= 4 * HeaderWords(packet) <= |packet| && TotalLength(packet) >= 4 * HeaderWords(packet)
      ensures Valid() && bytes == packet[..4 * HeaderWords(packet)] && !modified
    {
      bytes := packet[..4 * (packet[0] % 16)];
      modified := false;
    }

    /** Stores the checksum of the header as it is now. */
    method Refresh()
      requires 20 <= |bytes| <= 60
      modifies this
      ensures modified && Verifies(bytes) && AgreeOutside(old(bytes), bytes, 10, 12)
    {
      modified := true;
      SumFits(bytes, 10);
      var c := ComputeChecksum(bytes, 10);
      VerifiesExactly(bytes, 10, c);
      bytes := SetWord(bytes, 10, c);
    }

    method SetCodePoint(v: byte)
      requires Valid()
      modifies this
      ensures Valid() && modified && AgreeOutside(old(bytes), bytes, 1, 2)
      ensures CodePoint(bytes) == Min(v, 0x3F) && Congestion(bytes) == Congestion(old(bytes))
    {
      bytes := bytes[1 := Min(v, 0x3F) * 4 + bytes[1] % 4];
      Refresh();
    }

    method SetCongestion(v: byte)
      requires Valid()
      modifies this
      ensures Valid() && modified && AgreeOutside(old(bytes), bytes, 1, 2)
      ensures Congestion(bytes) == Min(v, 3) && CodePoint(bytes) == CodePoint(old(bytes))
    {
      bytes := bytes[1 := bytes[1] / 4 * 4 + Min(v, 3)];
      Refresh();
    }

    method SetTotalLength(v: u16)
      requires Valid() && v >= 4 * HeaderWords(bytes)
      modifies this
      ensures Valid() && modified && AgreeOutside(old(bytes), bytes, 2, 4)
      ensures TotalLength(bytes) == v
    {
      bytes := SetWord(bytes, 2, v);
      Refresh();
    }

    method SetIdentification(v: u16)
      requires Valid()
      modifies this
      ensures Valid() && modified && AgreeOutside(old(bytes), bytes, 4, 6)
      ensures Identification(bytes) == v
    {
      bytes := SetWord(bytes, 4, v);
      Refresh();
    }

    /** Only the three low bits of the new value are kept. */
    method SetFlags(v: byte)
      requires Valid()
      modifies this
      ensures Valid() && modified && AgreeOutside(old(bytes), bytes, 6, 8)
      ensures Flags(bytes) == v % 8 && FragmentOffset(bytes) == FragmentOffset(old(bytes))
    {
      var w := WordAt(bytes, 6);
      SplitsBack(v % 8, w % 0x2000);
      w := v % 8 * 0x2000 + w % 0x2000;
      bytes := SetWord(bytes, 6, w);
      Refresh();
      assert WordAt(bytes, 6) == w;
    }

    method SetFragmentOffset(v: u16)
      requires Valid()
      modifies this
      ensures Valid() && modified && AgreeOutside(old(bytes), bytes, 6, 8)
      ensures FragmentOffset(bytes) == Min(v, 0x1FFF) && Flags(bytes) == Flags(old(bytes))
    {
      var w := WordAt(bytes, 6);
      SplitsBack(w / 0x2000, Min(v, 0x1FFF));
      w := w / 0x2000 * 0x2000 + Min(v, 0x1FFF);
      bytes := SetWord(bytes, 6, w);
      Refresh();
      assert WordAt(bytes, 6) == w;
    }

    method SetTimeToLive(v: byte)
      requires Valid()
      modifies this
      ensures Valid() && modified && AgreeOutside(old(bytes), bytes, 8, 9)
      ensures TimeToLive(bytes) == v
    {
      bytes := bytes[8 := v];
      Refresh();
    }

    method SetProtocol(v: byte)
      requires Valid()
      modifies this
      ensures Valid() && modified && AgreeOutside(old(bytes), bytes, 9, 10)
      ensures Protocol(bytes) == v
    {
      bytes := bytes[9 := v];
      Refresh();
    }

    method SetSource(v: Octets)
      requires Valid() && |v| == 4
      modifies this
      ensures Valid() && modified && AgreeOutside(old(bytes), bytes, 12, 16)
      ensures Source(bytes) == v
    {
      bytes := bytes[..12] + v + bytes[16..];
      Refresh();
    }

    method SetDestination(v: Octets)
      requires Valid() && |v| == 4
      modifies this
      ensures Valid() && modified && AgreeOutside(old(bytes), bytes, 16, 20)
      ensures Destination(bytes) == v
    {
      bytes := bytes[..16] + v + bytes[20..];
      Refresh();
    }

    /** Replaces everything after the fixed fields. */
    method Resize(options: Octets, total: u16)
      requires |bytes| >= 20 && |options| % 4 == 0 && |options| <= 40 && total >= 20 + |options|
      modifies this
      ensures Valid() && modified && |bytes| == 20 + |options| && TotalLength(bytes) == total
      ensures bytes[20..] == options && SameFixedFields(old(bytes), bytes)
    {
      var words := 5 + |options| / 4;
      bytes := bytes[..20] + options;
      NibblesBack(bytes[0] / 16, words);
      bytes := bytes[0 := bytes[0] / 16 * 16 + words];
      Refresh();
      bytes := SetWord(bytes, 2, total);
      Refresh();
      Refresh();
      assert TotalLength(bytes) == total;
    }

    /** Sets, replaces or removes the options. The packet's length changes by as much as the header's. */
    method SetOptions(value: Option<Octets>)
      requires Valid()
      requires value.Some? ==> |value.value| <= 40 && TotalLength(bytes) + |Padded(value.value)| - (|bytes| - 20) <= 0xFFFF
      modifies this
      ensures Valid()
      ensures value.None? && HeaderWords(old(bytes)) == 5 ==> bytes == old(bytes) && modified == old(modified)
      ensures value.Some? || HeaderWords(old(bytes)) > 5 ==> modified
      ensures SameFixedFields(old(bytes), bytes) && TotalLength(bytes) - |bytes| == TotalLength(old(bytes)) - |old(bytes)|
      ensures bytes[20..] == if value.None? then [] else Padded(value.value)
    {
      var had := |bytes| - 20;
      var length := TotalLength(bytes);
      match value {
        case None =>
          if had > 0 {
            Resize([], length - had);
          }
        case Some(options) =>
          var padded := Padded(options);
          Resize(padded, length + |padded| - had);
      }
    }
  }

  /** What is read back after setting options: the padded options, or none if there were none to set. */
  lemma {:induction false} OptionsReadBack(b: Octets, options: Octets)
    requires WellFormed(b) && b[20..] == Padded(options)
    ensures Options(b) == if options == [] then None else Some(Padded(options))
  {
    assert |b[20..]| == |b| - 20;
  }
}
