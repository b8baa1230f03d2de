/**
 A UDP datagram over IPv4, its checksum with the pseudo header, and the packet that answers a DNS
 query by turning the query's packet around.
 */
module Udp {
  import opened Bytes
  import opened Checksum
  import opened Ipv4Header

  type Address = a: Octets | |a| == 4 witness [0, 0, 0, 0]

  /** The fields of the IP header that the checksum covers. */
  datatype Pseudo = Pseudo(source: Address, destination: Address, protocol: byte, length: u16)

  function PseudoBytes(p: Pseudo): (r: Octets)
    ensures |r| == 12
  {
    p.source + p.destination + [0, p.protocol] + U16(p.length)
  }

  /** What the checksum of a datagram covers, padded to whole words. */
  function Covered(p: Pseudo, data: Octets): (r: Octets)
    ensures |r| % 2 == 0 && 12 + |data| <= |r| <= 13 + |data|
    ensures forall i {:trigger r[12 + i]} :: 0 <= i < |data| ==> r[12 + i] == data[i]
  {
    var all := PseudoBytes(p) + data;
    if |all| % 2 == 1 then all + [0] else all
  }

  /** The sum that the checksum is taken of, in numbers: both addresses, the protocol, the length, and the
      datagram, whose last octet counts as the high one of a word if it has no partner. */
  lemma {:induction false} CoveredSum(p: Pseudo, data: Octets)
    ensures Sum(Covered(p, data), -1) ==
              (256 * (p.source[0] as int) + p.source[1]) + (256 * (p.source[2] as int) + p.source[3]) +
              (256 * (p.destination[0] as int) + p.destination[1]) + (256 * (p.destination[2] as int) + p.destination[3]) +
              p.protocol + p.length + Sum(data, -1)
  {
    var front := PseudoBytes(p);
    PseudoSum(p);
    SumSplits(front, data);
    if |data| % 2 == 1 {
      PaddingAddsNothing(front + data);
    }
  }

  lemma {:induction false} PaddingAddsNothing(data: Octets)
    requires |data| % 2 == 1
    ensures Sum(data + [0], -1) == Sum(data, -1)
  {
    var n := |data| - 1;
    var last := data[n];
    assert data == data[..n] + [last] && data + [0] == data[..n] + [last, 0];
    SumSplits(data[..n], [last]);
    SumSplits(data[..n], [last, 0]);
    SumOfWord(last, 0);
  }

  lemma {:induction false} SumOfAddress(a: Address)
    ensures Sum(a, -1) == (256 * (a[0] as int) + a[1]) + (256 * (a[2] as int) + a[3])
  {
    assert a == [a[0], a[1]] + [a[2], a[3]];
    SumSplits([a[0], a[1]], [a[2], a[3]]);
    SumOfWord(a[0], a[1]);
    SumOfWord(a[2], a[3]);
  }

  lemma {:induction false} PseudoSum(p: Pseudo)
    ensures Sum(PseudoBytes(p), -1) == Sum(p.source, -1) + Sum(p.destination, -1) + p.protocol + p.length
    ensures Sum(p.source, -1) == (256 * (p.source[0] as int) + p.source[1]) + (256 * (p.source[2] as int) + p.source[3])
    ensures Sum(p.destination, -1) == (256 * (p.destination[0] as int) + p.destination[1]) + (256 * (p.destination[2] as int) + p.destination[3])
  {
    var a: Octets, b: Octets, c: Octets, d := p.source, p.destination, [0, p.protocol], U16(p.length);
    SumSplits(a + b + c, d);
    SumSplits(a + b, c);
    SumSplits(a, b);
    SumOfWord(0, p.protocol);
    SumOfWord(d[0], d[1]);
    SumOfAddress(p.source);
    SumOfAddress(p.destination);
  }

  /** A receiver's check of a datagram. */
  predicate DatagramVerifies(p: Pseudo, data: Octets) {
    Verifies(Covered(p, data))
  }

  /** Storing the checksum changes what is covered in that one word. */
  lemma {:induction false} CoveredChecksum(p: Pseudo, data: Octets, c: u16)
    requires |data| >= 8
    ensures Covered(p, SetWord(data, 6, c)) == SetWord(Covered(p, data), 18, c)
  {
    var a, b := Covered(p, SetWord(data, 6, c)), SetWord(Covered(p, data), 18, c);
    assert |a| == |b|;
    assert forall i :: 0 <= i < |a| ==> a[i] == b[i];
  }

  class Datagram {
    var bytes: Octets
    var pseudo: Pseudo

    ghost predicate Valid()
      reads this
    {
      |bytes| >= 8
    }

    constructor (bytes: Octets, pseudo: Pseudo)
      requires |bytes| >= 8
      ensures Valid() && this.bytes == bytes && this.pseudo == pseudo
    {
      this.bytes, this.pseudo := bytes, pseudo;
    }

    /** The checksum is never zero: that would mean there is none. */
    method ChecksumOf() returns (c: u16)
      requires Valid() && Sum(Covered(pseudo, bytes), 18) < 0x1_0000_0000
      ensures c != 0 && DatagramVerifies(pseudo, SetWord(bytes, 6, c))
    {
      var covered := Covered(pseudo, bytes);
      var computed := ComputeChecksum(covered, 18);
      c := if computed == 0 then 0xFFFF else computed;
      VerifiesExactly(covered, 18, c);
      CoveredChecksum(pseudo, bytes, c);
    }

    /** The datagram as it is sent, with its checksum in place. */
    method Data() returns (r: Octets)
      requires Valid() && Sum(Covered(pseudo, bytes), 18) < 0x1_0000_0000
      ensures |r| == |bytes| && DatagramVerifies(pseudo, r) && WordAt(r, 6) != 0
      ensures forall i :: 0 <= i < |r| && i != 6 && i != 7 ==> r[i] == bytes[i]
    {
      var c := ChecksumOf();
      r := SetWord(bytes, 6, c);
    }

    method SetSourcePort(v: u16)
      requires Valid()
      modifies this`bytes
      ensures Valid() && bytes == SetWord(old(bytes), 0, v)
    {
      bytes := SetWord(bytes, 0, v);
    }

    method SetDestinationPort(v: u16)
      requires Valid()
      modifies this`bytes
      ensures Valid() && bytes == SetWord(old(bytes), 2, v)
    {
      bytes := SetWord(bytes, 2, v);
    }

    /** Replaces the payload; the length field is clamped to 16 bits. */
    method SetPayload(payload: Octets)
      requires Valid()
      modifies this
      ensures Valid() && bytes[8..] == payload && WordAt(bytes, 4) == Min(8 + |payload|, 0xFFFF)
      ensures pseudo == old(pseudo).(length := Min(8 + |payload|, 0xFFFF))
      ensures WordAt(bytes, 0) == WordAt(old(bytes), 0) && WordAt(bytes, 2) == WordAt(old(bytes), 2)
    {
      bytes := bytes[..8] + payload;
      var length := Min(|bytes|, 0xFFFF);
      bytes := SetWord(bytes, 4, length);
      pseudo := pseudo.(length := length);
      assert bytes[8..] == payload;
    }
  }

  /** A packet that a receiver accepts: a header without options, and a UDP datagram that fills the
      rest; both checksums verify and both lengths are right. */
  ghost predicate IsUdpPacket(b: Octets, source: Address, destination: Address, sourcePort: u16, destinationPort: u16, payload: Octets) {
    && |b| == 28 + |payload| && HeaderWords(b) == 5 && TotalLength(b) == |b| && Protocol(b) == 17
    && Source(b) == source && Destination(b) == destination
    && WordAt(b, 20) == sourcePort && WordAt(b, 22) == destinationPort && WordAt(b, 24) == 8 + |payload|
    && b[28..] == payload
    && Verifies(b[..20])
    && DatagramVerifies(Pseudo(source, destination, 17, 8 + |payload|), b[20..])
  }

  /** Clears the fields of the query that the response does not repeat. */
  method ClearService(header: Header, id: u16)
    requires header.Valid()
    modifies header
    ensures header.Valid() && AgreeOutside(old(header.bytes), header.bytes, 1, 9)
    ensures CodePoint(header.bytes) == 0 && Congestion(header.bytes) == 0 && Identification(header.bytes) == id
    ensures Flags(header.bytes) == 0 && FragmentOffset(header.bytes) == 0 && TimeToLive(header.bytes) == 64
  {
    header.SetCodePoint(0);
    header.SetCongestion(0);
    header.SetIdentification(id);
    header.SetFlags(0);
    header.SetFragmentOffset(0);
    header.SetTimeToLive(64);
  }

  method SwapAddresses(header: Header)
    requires header.Valid()
    modifies header
    ensures header.Valid() && header.modified && AgreeOutside(old(header.bytes), header.bytes, 12, 20)
    ensures Source(header.bytes) == Destination(old(header.bytes)) && Destination(header.bytes) == Source(old(header.bytes))
  {
    var destination := Destination(header.bytes);
    header.SetDestination(Source(header.bytes));
    header.SetSource(destination);
  }

  method SwapPorts(datagram: Datagram)
    requires datagram.Valid()
    modifies datagram`bytes
    ensures datagram.Valid()
    ensures WordAt(datagram.bytes, 0) == WordAt(old(datagram.bytes), 2) && WordAt(datagram.bytes, 2) == WordAt(old(datagram.bytes), 0)
  {
    var port := WordAt(datagram.bytes, 2);
    datagram.SetDestinationPort(WordAt(datagram.bytes, 0));
    datagram.SetSourcePort(port);
  }

  /** The header of the response, before its length is set. */
  method TurnHeader(header: Header, id: u16)
    requires header.Valid()
    modifies header
    ensures header.Valid() && header.modified && |header.bytes| == 20
    ensures Source(header.bytes) == Destination(old(header.bytes)) && Destination(header.bytes) == Source(old(header.bytes))
    ensures Protocol(header.bytes) == Protocol(old(header.bytes)) && Identification(header.bytes) == id
    ensures CodePoint(header.bytes) == 0 && Congestion(header.bytes) == 0 && TimeToLive(header.bytes) == 64
    ensures Flags(header.bytes) == 0 && FragmentOffset(header.bytes) == 0
    ensures header.bytes[0] / 16 == old(header.bytes)[0] / 16
  {
    ClearService(header, id);
    SwapAddresses(header);
    ghost var b := header.bytes;
    header.SetOptions(None);
    assert header.bytes[20..] == [];
    SameFieldsRead(b, header.bytes);
  }

  lemma {:induction false} SameFieldsRead(a: Octets, b: Octets)
    requires |a| >= 20 && |b| >= 20 && SameFixedFields(a, b)
    ensures Source(b) == Source(a) && Destination(b) == Destination(a) && Protocol(b) == Protocol(a)
    ensures Identification(b) == Identification(a) && TimeToLive(b) == TimeToLive(a)
    ensures CodePoint(b) == CodePoint(a) && Congestion(b) == Congestion(a)
    ensures Flags(b) == Flags(a) && FragmentOffset(b) == FragmentOffset(a)
  {
  }

  /** The datagram of the response. */
  method TurnDatagram(datagram: Datagram, payload: Octets)
    requires datagram.Valid()
    modifies datagram
    ensures datagram.Valid() && datagram.bytes[8..] == payload
    ensures WordAt(datagram.bytes, 0) == WordAt(old(datagram.bytes), 2) && WordAt(datagram.bytes, 2) == WordAt(old(datagram.bytes), 0)
    ensures WordAt(datagram.bytes, 4) == Min(8 + |payload|, 0xFFFF)
    ensures var p := old(datagram.pseudo); datagram.pseudo == Pseudo(p.destination, p.source, p.protocol, Min(8 + |payload|, 0xFFFF))
  {
    var destination := datagram.pseudo.destination;
    SwapPorts(datagram);
    datagram.SetPayload(payload);
    datagram.pseudo := datagram.pseudo.(destination := datagram.pseudo.source);
    datagram.pseudo := datagram.pseudo.(source := destination);
    datagram.pseudo := datagram.pseudo.(length := WordAt(datagram.bytes, 4));
  }

  /** A header and a datagram that fit together make a packet. */
  lemma {:induction false} MakesPacket(head: Octets, data: Octets, source: Address, destination: Address, payload: Octets)
    requires |head| == 20 && WellFormed(head) && Verifies(head) && TotalLength(head) == 20 + |data| && Protocol(head) == 17
    requires Source(head) == source && Destination(head) == destination
    requires |data| == 8 + |payload| <= 0xFFFF && data[8..] == payload && WordAt(data, 4) == |data|
    requires DatagramVerifies(Pseudo(source, destination, 17, |data|), data)
    ensures IsUdpPacket(head + data, source, destination, WordAt(data, 0), WordAt(data, 2), payload)
  {
    var b := head + data;
    assert b[..20] == head && b[20..] == data && b[28..] == data[8..];
    assert b[12..16] == head[12..16] && b[16..20] == head[16..20];
  }

  /** Turns the packet of a query into that of its response. The length must fit in 16 bits. */
  method MakeResponse(header: Header, datagram: Datagram, payload: Octets, id: u16) returns (packet: Octets)
    requires header.Valid() && datagram.Valid() && Protocol(header.bytes) == 17
    requires datagram.pseudo.source == Source(header.bytes) && datagram.pseudo.destination == Destination(header.bytes)
    requires datagram.pseudo.protocol == 17 && 28 + |payload| <= 0xFFFF
    modifies header, datagram
    ensures IsUdpPacket(packet, old(Destination(header.bytes)), old(Source(header.bytes)),
                        WordAt(old(datagram.bytes), 2), WordAt(old(datagram.bytes), 0), payload)
    ensures TimeToLive(packet) == 64 && Identification(packet) == id && Flags(packet) == 0 && FragmentOffset(packet) == 0
    ensures CodePoint(packet) == 0 && Congestion(packet) == 0 && packet[0] / 16 == old(header.bytes)[0] / 16
  {
    TurnDatagram(datagram, payload);
    TurnHeader(header, id);
    SumFits(Covered(datagram.pseudo, datagram.bytes), 18);
    var data := datagram.Data();
    ghost var b := header.bytes;
    header.SetTotalLength(|header.bytes| + |data|);
    packet := header.bytes + data;
    assert data[8..] == payload by {
      assert data[8..] == datagram.bytes[8..];
    }
    SameFieldsRead(b, header.bytes);
    MakesPacket(header.bytes, data, old(Destination(header.bytes)), old(Source(header.bytes)), payload);
  }
}
