/**
 The wire form in numbers: which octets a message is written as, and what the octets of any buffer are
 read as (sections 3.2 and 4.1 of RFC 1035). Reading undoes writing whatever the codes and the order of
 fields; here they are fixed.
 */
module DnsWire {
  import opened Bytes
  import opened DomainText
  import opened NameParser
  import opened Chunks
  import opened NameWriter
  import opened DnsMessage

  /** The octets of a 16-bit number, most significant first. */
  lemma {:induction false} WordOnWire(v: u16)
    ensures U16(v) == [v / 0x100, v % 0x100]
  {
  }

  lemma {:induction false} FourOctets(a: byte, b: byte, c: byte, d: byte)
    ensures var w := 0x100_0000 * (a as int) + 0x1_0000 * (b as int) + 0x100 * (c as int) + d;
            w / 0x1_0000 == 0x100 * (a as int) + b && w % 0x1_0000 == 0x100 * (c as int) + d
  {
  }

  lemma {:induction false} TwoOctets(a: byte, b: byte)
    ensures U16(0x100 * (a as int) + b) == [a, b]
  {
  }

  /** The octets of a 32-bit number, most significant first. */
  lemma {:induction false} LongOnWire(a: byte, b: byte, c: byte, d: byte)
    ensures U32(0x100_0000 * (a as int) + 0x1_0000 * (b as int) + 0x100 * (c as int) + d) == [a, b, c, d]
  {
    FourOctets(a, b, c, d);
    TwoOctets(a, b);
    TwoOctets(c, d);
  }

  /** A negative number is written as the 32-bit number that is congruent to it. */
  lemma {:induction false} SignedOnWire(v: i32)
    ensures I32(v) == U32(if v < 0 then 0x1_0000_0000 + v else v)
  {
  }

  lemma {:induction false} FirstField(offset: nat, dict: Dictionary, f: Field, rest: seq<Field>)
    ensures var c := EncodeField(offset, dict, f);
            var r := EncodeFields(offset + |c.bytes|, c.dict, rest);
            EncodeFields(offset, dict, [f] + rest) == Chunk(c.bytes + r.bytes, r.dict, c.ok && r.ok)
  {
    assert ([f] + rest)[1..] == rest;
  }

  lemma {:induction false} OneField(offset: nat, dict: Dictionary, f: Field)
    ensures EncodeFields(offset, dict, [f]) == EncodeField(offset, dict, f)
  {
    FirstField(offset, dict, f, []);
    assert [f] + [] == [f];
    var c := EncodeField(offset, dict, f);
    assert c.bytes + [] == c.bytes;
  }

  // ---------- writing ----------

  lemma {:induction false} TwoNumbers(offset: nat, dict: Dictionary, x: u16, y: u16, rest: seq<Field>)
    ensures var r := EncodeFields(offset + 4, dict, rest);
            EncodeFields(offset, dict, [Num16(x), Num16(y)] + rest) ==
              Chunk([x / 0x100, x % 0x100, y / 0x100, y % 0x100] + r.bytes, r.dict, r.ok)
  {
    WordOnWire(x);
    WordOnWire(y);
    assert [Num16(x), Num16(y)] + rest == [Num16(x)] + ([Num16(y)] + rest);
    FirstField(offset, dict, Num16(x), [Num16(y)] + rest);
    FirstField(offset + 2, dict, Num16(y), rest);
    var r := EncodeFields(offset + 4, dict, rest);
    assert U16(x) + (U16(y) + r.bytes) == [x / 0x100, x % 0x100, y / 0x100, y % 0x100] + r.bytes;
  }

  /** The header: id, flags and the four counts, in this order. */
  lemma {:induction false} HeaderOnWire(h: Header)
    ensures EncodeFields(0, map[], HeaderFields(h)).bytes ==
              [h.id / 0x100, h.id % 0x100, h.flags / 0x100, h.flags % 0x100,
               h.questions / 0x100, h.questions % 0x100, h.answers / 0x100, h.answers % 0x100,
               h.authorities / 0x100, h.authorities % 0x100, h.additions / 0x100, h.additions % 0x100]
  {
    var none: seq<Field> := [];
    var last := [Num16(h.authorities), Num16(h.additions)] + none;
    var most := [Num16(h.questions), Num16(h.answers)] + last;
    assert HeaderFields(h) == [Num16(h.id), Num16(h.flags)] + most;
    TwoNumbers(0, map[], h.id, h.flags, most);
    TwoNumbers(4, map[], h.questions, h.answers, last);
    TwoNumbers(8, map[], h.authorities, h.additions, none);
  }

  /** A question: its name, type and class. */
  lemma {:induction false} QuestionOnWire(offset: nat, dict: Dictionary, q: Question)
    ensures var n := EncodeName(offset, dict, Split(q.name));
            EncodeQuestion(offset, dict, q).bytes ==
              n.bytes + [q.qtype / 0x100, q.qtype % 0x100, q.qclass / 0x100, q.qclass % 0x100]
  {
    var n := EncodeName(offset, dict, Split(q.name));
    var none: seq<Field> := [];
    var rest := [Num16(q.qtype), Num16(q.qclass)] + none;
    assert QuestionFields(q) == [DomainName(q.name)] + rest;
    FirstField(offset, dict, DomainName(q.name), rest);
    TwoNumbers(offset + |n.bytes|, n.dict, q.qtype, q.qclass, none);
    var end := [q.qtype / 0x100, q.qtype % 0x100, q.qclass / 0x100, q.qclass % 0x100];
    assert end + [] == end;
  }

  /** The number of a record's type (section 3.2.2 of RFC 1035, RFC 3596, RFC 2782 and RFC 3403). */
  lemma {:induction false} TypeNumbers(d: RData)
    ensures (d.A? ==> TypeCode(d) == 1) && (d.NS? ==> TypeCode(d) == 2) && (d.CNAME? ==> TypeCode(d) == 5)
    ensures (d.SOA? ==> TypeCode(d) == 6) && (d.PTR? ==> TypeCode(d) == 12) && (d.MX? ==> TypeCode(d) == 15)
    ensures (d.TXT? ==> TypeCode(d) == 16) && (d.AAAA? ==> TypeCode(d) == 28) && (d.SRV? ==> TypeCode(d) == 33)
    ensures (d.NAPTR? ==> TypeCode(d) == 35) && (d.RAW? ==> TypeCode(d) == d.rtype)
    ensures forall code: u16 :: IsTyped(code) <==> code in {1, 2, 5, 6, 12, 15, 16, 28, 33, 35}
  {
  }

  /** The head of a record: its name, type, class and time to live. */
  lemma {:induction false} HeadOnWire(offset: nat, dict: Dictionary, rr: Record)
    ensures var n := EncodeName(offset, dict, Split(rr.name));
            var code := TypeCode(rr.data);
            var c := EncodeHead(offset, dict, rr);
            && c.bytes == n.bytes + ([code / 0x100, code % 0x100, rr.rclass / 0x100, rr.rclass % 0x100] + I32(rr.ttl))
            && c.dict == n.dict && c.ok == n.ok
  {
    var n := EncodeName(offset, dict, Split(rr.name));
    var code := TypeCode(rr.data);
    var ttl := [Signed(rr.ttl)];
    var p := offset + |n.bytes|;
    assert HeadFields(rr) == [DomainName(rr.name)] + ([Num16(code), Num16(rr.rclass)] + ttl);
    FirstField(offset, dict, DomainName(rr.name), [Num16(code), Num16(rr.rclass)] + ttl);
    TwoNumbers(p, n.dict, code, rr.rclass, ttl);
    OneField(p + 4, n.dict, Signed(rr.ttl));
  }

  /** A record: its head, the length of its data, and its data. */
  lemma {:induction false} RecordOnWire(offset: nat, dict: Dictionary, rr: Record)
    ensures var n := EncodeName(offset, dict, Split(rr.name));
            var code := TypeCode(rr.data);
            var data := EncodeFields(offset + |n.bytes| + 10, n.dict, DataFields(rr.data)).bytes;
            var length := if |data| < 0xFFFF then |data| else 0xFFFF;
            EncodeRecord(offset, dict, rr).bytes ==
              n.bytes + ([code / 0x100, code % 0x100, rr.rclass / 0x100, rr.rclass % 0x100] + I32(rr.ttl)) +
              [length / 0x100, length % 0x100] + data
  {
    HeadOnWire(offset, dict, rr);
  }

  /** Data of one name, one string or plain octets. */
  lemma {:induction false} SimpleDataOnWire(offset: nat, dict: Dictionary, d: RData)
    ensures d.NS? ==> EncodeFields(offset, dict, DataFields(d)) == EncodeName(offset, dict, Split(d.server))
    ensures d.CNAME? ==> EncodeFields(offset, dict, DataFields(d)) == EncodeName(offset, dict, Split(d.alias))
    ensures d.PTR? ==> EncodeFields(offset, dict, DataFields(d)) == EncodeName(offset, dict, Split(d.pointer))
    ensures d.A? ==> EncodeFields(offset, dict, DataFields(d)).bytes == d.address
    ensures d.AAAA? ==> EncodeFields(offset, dict, DataFields(d)).bytes == d.address6
    ensures d.RAW? ==> EncodeFields(offset, dict, DataFields(d)).bytes == d.payload
    ensures d.TXT? && |d.text| <= 255 ==> EncodeFields(offset, dict, DataFields(d)).bytes == [|d.text|] + d.text
  {
    var fs := DataFields(d);
    if |fs| == 1 {
      OneField(offset, dict, fs[0]);
      assert fs == [fs[0]];
    }
  }

  /** Mail exchange: preference, then the name. */
  lemma {:induction false} MXOnWire(offset: nat, dict: Dictionary, d: RData)
    requires d.MX?
    ensures EncodeFields(offset, dict, DataFields(d)).bytes ==
              [d.preference / 0x100, d.preference % 0x100] + EncodeName(offset + 2, dict, Split(d.exchange)).bytes
  {
    WordOnWire(d.preference);
    assert DataFields(d) == [Num16(d.preference)] + [DomainName(d.exchange)];
    FirstField(offset, dict, Num16(d.preference), [DomainName(d.exchange)]);
    OneField(offset + 2, dict, DomainName(d.exchange));
  }

  /** Service: priority, weight, port, then the name. */
  lemma {:induction false} SRVOnWire(offset: nat, dict: Dictionary, d: RData)
    requires d.SRV?
    ensures EncodeFields(offset, dict, DataFields(d)).bytes ==
              [d.priority / 0x100, d.priority % 0x100, d.weight / 0x100, d.weight % 0x100] +
              ([d.port / 0x100, d.port % 0x100] + EncodeName(offset + 6, dict, Split(d.target)).bytes)
  {
    var rest := [Num16(d.port)] + [DomainName(d.target)];
    WordOnWire(d.port);
    assert DataFields(d) == [Num16(d.priority), Num16(d.weight)] + rest;
    TwoNumbers(offset, dict, d.priority, d.weight, rest);
    FirstField(offset + 4, dict, Num16(d.port), [DomainName(d.target)]);
    OneField(offset + 6, dict, DomainName(d.target));
  }

  /** Start of authority: two names, then serial number, refresh, retry, expiry and minimum. */
  lemma {:induction false} SOAOnWire(offset: nat, dict: Dictionary, d: RData)
    requires d.SOA?
    ensures var n := EncodeName(offset, dict, Split(d.primary));
            var m := EncodeName(offset + |n.bytes|, n.dict, Split(d.mailbox));
            EncodeFields(offset, dict, DataFields(d)).bytes ==
              n.bytes + (m.bytes + (U32(d.serial) + (U32(d.refresh) + (U32(d.retry) + (U32(d.expire) + U32(d.minimum))))))
  {
    var n := EncodeName(offset, dict, Split(d.primary));
    var m := EncodeName(offset + |n.bytes|, n.dict, Split(d.mailbox));
    var numbers := [Num32(d.serial), Num32(d.refresh), Num32(d.retry), Num32(d.expire), Num32(d.minimum)];
    assert DataFields(d) == [DomainName(d.primary)] + ([DomainName(d.mailbox)] + numbers);
    FirstField(offset, dict, DomainName(d.primary), [DomainName(d.mailbox)] + numbers);
    FirstField(offset + |n.bytes|, n.dict, DomainName(d.mailbox), numbers);
    FiveNumbers(offset + |n.bytes| + |m.bytes|, m.dict, d.serial, d.refresh, d.retry, d.expire, d.minimum);
  }

  lemma {:induction false} FiveNumbers(offset: nat, dict: Dictionary, a: u32, b: u32, c: u32, d: u32, e: u32)
    ensures EncodeFields(offset, dict, [Num32(a), Num32(b), Num32(c), Num32(d), Num32(e)]).bytes ==
              U32(a) + (U32(b) + (U32(c) + (U32(d) + U32(e))))
  {
    var three := [Num32(c)] + ([Num32(d)] + [Num32(e)]);
    assert [Num32(a), Num32(b), Num32(c), Num32(d), Num32(e)] == [Num32(a)] + ([Num32(b)] + three);
    FirstField(offset, dict, Num32(a), [Num32(b)] + three);
    FirstField(offset + 4, dict, Num32(b), three);
    FirstField(offset + 8, dict, Num32(c), [Num32(d)] + [Num32(e)]);
    FirstField(offset + 12, dict, Num32(d), [Num32(e)]);
    OneField(offset + 16, dict, Num32(e));
  }

  /** Naming authority pointer: order, preference, flags, services, regular expression, replacement. */
  lemma {:induction false} NAPTROnWire(offset: nat, dict: Dictionary, d: RData)
    requires d.NAPTR? && |d.flags| <= 255 && |d.services| <= 255 && |d.regexp| <= 255
    ensures var p := offset + 7 + |d.flags| + |d.services| + |d.regexp|;
            EncodeFields(offset, dict, DataFields(d)).bytes ==
              [d.order / 0x100, d.order % 0x100, d.rank / 0x100, d.rank % 0x100] +
              (([|d.flags|] + d.flags) + (([|d.services|] + d.services) + (([|d.regexp|] + d.regexp) +
               EncodeName(p, dict, Split(d.replacement)).bytes)))
  {
    var rest := [Counted(d.flags), Counted(d.services), Counted(d.regexp), DomainName(d.replacement)];
    assert DataFields(d) == [Num16(d.order), Num16(d.rank)] + rest;
    TwoNumbers(offset, dict, d.order, d.rank, rest);
    StringsAndName(offset + 4, dict, d.flags, d.services, d.regexp, d.replacement);
  }

  lemma {:induction false} StringsAndName(offset: nat, dict: Dictionary, x: Text, y: Text, z: Text, name: Text)
    requires |x| <= 255 && |y| <= 255 && |z| <= 255
    ensures EncodeFields(offset, dict, [Counted(x), Counted(y), Counted(z), DomainName(name)]).bytes ==
              ([|x|] + x) + (([|y|] + y) + (([|z|] + z) + EncodeName(offset + 3 + |x| + |y| + |z|, dict, Split(name)).bytes))
  {
    var last := [Counted(z)] + [DomainName(name)];
    assert [Counted(x), Counted(y), Counted(z), DomainName(name)] == [Counted(x)] + ([Counted(y)] + last);
    FirstField(offset, dict, Counted(x), [Counted(y)] + last);
    FirstField(offset + 1 + |x|, dict, Counted(y), last);
    FirstField(offset + 2 + |x| + |y|, dict, Counted(z), [DomainName(name)]);
    OneField(offset + 3 + |x| + |y| + |z|, dict, DomainName(name));
  }

  /** A name: nothing but a zero octet, or a pointer of two octets to a known suffix, or a label with its
      length, followed by the rest of the name. */
  lemma {:induction false} NameOnWire(offset: nat, dict: Dictionary, name: Name)
    ensures name.Root? ==> EncodeName(offset, dict, name).bytes == [0]
    ensures name.Part? && Join(name) in dict && dict[Join(name)] < 0x4000 ==>
              var t := dict[Join(name)]; EncodeName(offset, dict, name).bytes == [0xC0 + t / 0x100, t % 0x100]
    ensures name.Part? && Join(name) !in dict && |name.text| <= 255 ==>
              EncodeName(offset, dict, name).bytes ==
                [|name.text|] + name.text + EncodeName(offset + 1 + |name.text|, dict[Join(name) := offset], name.rest).bytes
  {
    if name.Part? && Join(name) in dict && dict[Join(name)] < 0x4000 {
      var t := dict[Join(name)];
      assert PointerWord(t) == 0x100 * (0xC0 + t / 0x100) + t % 0x100;
    }
  }

  /** What the writer remembers of a name: nothing new if it is known, and otherwise where it and all its
      suffixes were written. */
  lemma {:induction false} NameIsRemembered(offset: nat, dict: Dictionary, name: Name)
    ensures name.Root? || Join(name) in dict ==> EncodeName(offset, dict, name).dict == dict
    ensures name.Part? && Join(name) !in dict ==>
              var c := EncodeName(offset, dict, name);
              && Join(name) in c.dict && c.dict[Join(name)] == offset
              && c.dict == EncodeName(offset + 1 + |name.text|, dict[Join(name) := offset], name.rest).dict
  {
    if name.Part? && Join(name) !in dict {
      LearnKeeps(offset + 1 + |name.text|, dict[Join(name) := offset], name.rest, Join(name));
    }
  }

  /** A message: its header, then the questions, the answers, the authorities and the additional records,
      each section written with the names of the earlier ones known. */
  lemma {:induction false} MessageOnWire(m: Message, c0: Chunk, c1: Chunk, c2: Chunk, c3: Chunk)
    requires c0 == EncodeFields(0, map[], HeaderFields(m.header))
    requires c1 == Then(c0, EncodeMany(EncodeQuestion, |c0.bytes|, c0.dict, m.questions))
    requires c2 == Then(c1, EncodeMany(EncodeRecord, |c1.bytes|, c1.dict, m.answers))
    requires c3 == Then(c2, EncodeMany(EncodeRecord, |c2.bytes|, c2.dict, m.authorities))
    ensures Serialize(m) == c3.bytes + EncodeMany(EncodeRecord, |c3.bytes|, c3.dict, m.additionals).bytes
  {
    assert c1 == UpToQuestions(m);
    assert c2 == UpToAnswers(m);
    assert c3 == UpToAuthorities(m);
  }

  /** The items of a section are written in order. */
  lemma {:induction false} SectionOnWire<T>(encode: (nat, Dictionary, T) -> Chunk, offset: nat, dict: Dictionary, x: T, rest: seq<T>)
    ensures var c := encode(offset, dict, x);
            EncodeMany(encode, offset, dict, [x] + rest).bytes == c.bytes + EncodeMany(encode, offset + |c.bytes|, c.dict, rest).bytes
  {
    assert ([x] + rest)[1..] == rest;
  }

  // ---------- reading ----------

  /** The items of a section are read in order. */
  lemma {:induction false} SectionReads<U>(parse: nat -> Outcome<U>, pos: nat, count: nat)
    requires count > 0 && ParseMany(parse, pos, count).Value?
    ensures var all := ParseMany(parse, pos, count);
            && parse(pos).Value? && ParseMany(parse, parse(pos).next, count - 1).Value?
            && all.value == [parse(pos).value] + ParseMany(parse, parse(pos).next, count - 1).value
            && all.next == ParseMany(parse, parse(pos).next, count - 1).next
  {
  }

  /** A datagram that is read: the sections follow the header in order, as many items in each as its count
      says, and whatever comes after them is not looked at. */
  lemma {:induction false} MessageReads(b: seq<byte>) returns (p: nat, q: nat, r: nat)
    requires ParseMessage(b).Value?
    ensures var m := ParseMessage(b).value;
            && ParseHeader(b, 0) == Value(m.header, 12)
            && ParseMany(QuestionReader(b), 12, m.header.questions) == Value(m.questions, p)
            && ParseMany(RecordReader(b), p, m.header.answers) == Value(m.answers, q)
            && ParseMany(RecordReader(b), q, m.header.authorities) == Value(m.authorities, r)
            && ParseMany(RecordReader(b), r, m.header.additions) == Value(m.additionals, ParseMessage(b).next)
  {
    HeaderReads(b);
    var h := ParseMessage(b).value.header;
    p := ParseMany(QuestionReader(b), 12, h.questions).next;
    q := ParseMany(RecordReader(b), p, h.answers).next;
    r := ParseMany(RecordReader(b), q, h.authorities).next;
  }

  /** Where a name ends, and where reading it fails: past the buffer or at a zero octet there is nothing
      more, a label or pointer that is cut off is refused. */
  lemma {:induction false} NameEdges(b: seq<byte>, pos: nat)
    ensures pos >= |b| ==> ParseName(b, pos) == Value([], pos)
    ensures pos < |b| && b[pos] == 0 ==> ParseName(b, pos) == Value([], pos + 1)
    ensures pos < |b| && 0 < b[pos] < 192 && pos + 1 + b[pos] > |b| ==> ParseName(b, pos) == Refused
    ensures pos + 1 == |b| && b[pos] >= 192 ==> ParseName(b, pos) == Refused
  {
  }

  lemma {:induction false} PointerLeads(b: seq<byte>, pos: nat)
    requires pos + 1 < |b| && b[pos] >= 192
    ensures JumpTarget(b, pos) == Some(0x100 * (b[pos] as int - 192) + b[pos + 1])
  {
    assert Target(b[pos], b[pos + 1]) == 0x100 * (b[pos] as int - 192) + b[pos + 1];
  }

  lemma {:induction false} PointerTaken(b: seq<byte>, pos: nat)
    requires pos + 1 < |b| && b[pos] >= 192
    ensures var fewer := NameFrom(b, JumpTarget(b, pos).value, [], POINTER_RANGE - 1);
            ParseName(b, pos) == if fewer.Value? then Value(fewer.value, pos + 2) else fewer
  {
    var target := Target(b[pos], b[pos + 1]);
    assert JumpTarget(b, pos) == Some(target);
    var fewer := NameFrom(b, target, [], POINTER_RANGE - 1);
    if fewer.Value? {
      assert Extend([], fewer.value) == fewer.value;
    }
  }

  lemma {:induction false} HopsAhead(b: seq<byte>, pos: nat, target: nat, k: nat)
    requires JumpTarget(b, pos) == Some(target)
    ensures Hop(b, pos, k + 1) == Hop(b, target, k)
  {
  }

  /** One jump fewer makes no difference after a jump. */
  lemma {:induction false} FewerJumpsAgree(b: seq<byte>, pos: nat, target: nat)
    requires JumpTarget(b, pos) == Some(target)
    ensures NameFrom(b, target, [], POINTER_RANGE - 1) == NameFrom(b, target, [], POINTER_RANGE)
  {
    if NameFrom(b, target, [], POINTER_RANGE - 1) != Diverges {
      MoreJumpsAgree(b, target, [], POINTER_RANGE - 1, POINTER_RANGE);
    } else {
      DivergesWhenJumpsRunOut(b, target, [], POINTER_RANGE - 1);
      HopsAhead(b, pos, target, POINTER_RANGE);
      ManyHopsRepeat(b, pos);
      DivergesExactlyOnCycle(b, pos);
      HopsAhead(b, pos, target, POINTER_RANGE + 1);
      DivergesWhenJumpsRunOut(b, target, [], POINTER_RANGE);
    }
  }

  /** At a pointer the name is the one at its target, an offset of 14 bits, and ends after two octets. */
  lemma {:induction false} PointerReads(b: seq<byte>, pos: nat)
    requires pos + 1 < |b| && b[pos] >= 192
    ensures var there := ParseName(b, 0x100 * (b[pos] as int - 192) + b[pos + 1]);
            ParseName(b, pos) == if there.Value? then Value(there.value, pos + 2) else there
  {
    PointerLeads(b, pos);
    PointerTaken(b, pos);
    FewerJumpsAgree(b, pos, JumpTarget(b, pos).value);
  }

  /** Nothing more of a name stands here. */
  predicate NameEnds(b: seq<byte>, pos: nat) {
    pos >= |b| || b[pos] == 0
  }

  /** A name after a text that was read before it. */
  function After(text: Text, ends: bool, rest: Outcome<Text>): (r: Outcome<Text>) {
    if rest.Value? then Value(if ends then text else text + [DOT] + rest.value, rest.next) else rest
  }

  lemma {:induction false} AfterTwo(text: Text, part: Text, ends: bool, rest: Outcome<Text>)
    ensures After(text, false, After(part, ends, rest)) == After(text + [DOT] + part, ends, rest)
  {
    if rest.Value? {
      assert text + [DOT] + part + [DOT] + rest.value == text + [DOT] + (part + [DOT] + rest.value);
    }
  }

  predicate HasLabel(b: seq<byte>, pos: nat) {
    pos < |b| && 0 < b[pos] < 0xC0 && pos + 1 + b[pos] <= |b|
  }

  /** A reader that takes a label where one stands. */
  predicate TakesLabel(b: seq<byte>, read: (nat, Text) -> Outcome<Text>, pos: nat, text: Text) {
    HasLabel(b, pos) ==>
      var next := pos + 1 + b[pos]; read(pos, text) == read(next, Extend(text, b[pos + 1..next]))
  }

  /** Elsewhere a text that was read before only comes in front. */
  predicate Carries(b: seq<byte>, read: (nat, Text) -> Outcome<Text>, pos: nat, text: Text) {
    text != [] ==> read(pos, text) == After(text, NameEnds(b, pos), read(pos, []))
  }

  lemma {:induction false} ReaderCarries(b: seq<byte>, read: (nat, Text) -> Outcome<Text>, pos: nat, text: Text)
    requires forall p: nat, t: Text :: TakesLabel(b, read, p, t)
    requires forall p: nat, t: Text :: !HasLabel(b, p) ==> Carries(b, read, p, t)
    ensures Carries(b, read, pos, text)
    decreases |b| - pos
  {
    if HasLabel(b, pos) && text != [] {
      var next := pos + 1 + b[pos];
      var part := b[pos + 1..next];
      assert TakesLabel(b, read, pos, text) && TakesLabel(b, read, pos, []);
      ReaderCarries(b, read, next, text + [DOT] + part);
      ReaderCarries(b, read, next, part);
      AfterTwo(text, part, NameEnds(b, next), read(next, []));
    }
  }

  /** The reader of names with a number of jumps left. */
  function NamesFrom(b: seq<byte>, jumps: nat): (r: (nat, Text) -> Outcome<Text>) {
    (p: nat, t: Text) => NameFrom(b, p, t, jumps)
  }

  lemma {:induction false} LabelTaken(b: seq<byte>, pos: nat, text: Text, jumps: nat)
    ensures TakesLabel(b, NamesFrom(b, jumps), pos, text)
  {
  }

  lemma {:induction false} OtherwiseCarries(b: seq<byte>, pos: nat, text: Text, jumps: nat)
    requires !HasLabel(b, pos)
    ensures Carries(b, NamesFrom(b, jumps), pos, text)
  {
  }

  /** What was read before does not change what is read, only comes in front of it. */
  lemma {:induction false} TextCarries(b: seq<byte>, pos: nat, text: Text, jumps: nat)
    ensures Carries(b, NamesFrom(b, jumps), pos, text)
  {
    forall p: nat, t: Text ensures TakesLabel(b, NamesFrom(b, jumps), p, t) {
      LabelTaken(b, p, t, jumps);
    }
    forall p: nat, t: Text | !HasLabel(b, p) ensures Carries(b, NamesFrom(b, jumps), p, t) {
      OtherwiseCarries(b, p, t, jumps);
    }
    ReaderCarries(b, NamesFrom(b, jumps), pos, text);
  }

  /** At a label the name is the label, a dot and the name after it, or the label alone if there is
      nothing more. */
  lemma {:induction false} LabelReads(b: seq<byte>, pos: nat)
    requires pos < |b| && 0 < b[pos] < 192 && pos + 1 + b[pos] <= |b|
    ensures var next := pos + 1 + b[pos];
            var part, rest := b[pos + 1..next], ParseName(b, next);
            ParseName(b, pos) ==
              if rest.Value? then Value(if NameEnds(b, next) then part else part + [DOT] + rest.value, rest.next) else rest
  {
    var next := pos + 1 + b[pos];
    LabelTaken(b, pos, [], POINTER_RANGE);
    TextCarries(b, next, b[pos + 1..next], POINTER_RANGE);
  }

  /** A header that is read, from any buffer. */
  lemma {:induction false} HeaderReads(b: seq<byte>)
    ensures ParseHeader(b, 0).Value? <==> |b| >= 12
    ensures |b| >= 12 ==>
              var h := ParseHeader(b, 0).value;
              && h.id == 0x100 * (b[0] as int) + b[1] && h.flags == 0x100 * (b[2] as int) + b[3]
              && h.questions == 0x100 * (b[4] as int) + b[5] && h.answers == 0x100 * (b[6] as int) + b[7]
              && h.authorities == 0x100 * (b[8] as int) + b[9] && h.additions == 0x100 * (b[10] as int) + b[11]
              && ParseHeader(b, 0).next == 12
  {
  }

  /** A question that is read, from any buffer. */
  lemma {:induction false} QuestionReads(b: seq<byte>, pos: nat)
    requires ParseQuestion(b, pos).Value?
    ensures var q := ParseQuestion(b, pos).value;
            var p := ParseName(b, pos).next;
            && p + 4 <= |b| && q.name == ParseName(b, pos).value && ParseQuestion(b, pos).next == p + 4
            && q.qtype == 0x100 * (b[p] as int) + b[p + 1] && q.qclass == 0x100 * (b[p + 2] as int) + b[p + 3]
  {
  }

  /** The form in which the data of a type is read. Addresses must have their length. */
  lemma {:induction false} TypesRead(b: seq<byte>, pos: nat, code: u16, length: u16)
    requires ParseData(b, pos, code, length).Value?
    ensures var d := ParseData(b, pos, code, length).value;
            && (code == 2 ==> d.NS?) && (code == 5 ==> d.CNAME?) && (code == 6 ==> d.SOA?) && (code == 12 ==> d.PTR?)
            && (code == 15 ==> d.MX?) && (code == 16 ==> d.TXT?) && (code == 33 ==> d.SRV?) && (code == 35 ==> d.NAPTR?)
            && (code == 1 ==> d.A? && length == 4 && d.address == b[pos..pos + 4])
            && (code == 28 ==> d.AAAA? && length == 16 && d.address6 == b[pos..pos + 16])
            && (code !in {1, 2, 5, 6, 12, 15, 16, 28, 33, 35} ==> d == RAW(code, b[pos..pos + length]))
  {
  }

  /** The other forms end where their last part ends, whatever the length field says. */
  lemma {:induction false} LengthIsIgnored(b: seq<byte>, pos: nat, code: u16, x: u16, y: u16)
    requires code in {2, 5, 6, 12, 15, 16, 33, 35}
    ensures ParseData(b, pos, code, x) == ParseData(b, pos, code, y)
  {
  }

  /** The octets of a 32-bit number, read as a signed one. */
  lemma {:induction false} SignedReads(b: seq<byte>, p: nat)
    requires p + 4 <= |b|
    ensures var r := GetI32(b, p);
            var v := 0x100_0000 * (b[p] as int) + 0x1_0000 * (b[p + 1] as int) + 0x100 * (b[p + 2] as int) + b[p + 3];
            r == Value(if v < 0x8000_0000 then v else v - 0x1_0000_0000, p + 4)
  {
  }

  /** A record that is read, from any buffer: its type, class and time to live are the words after its
      name. Only a raw record has class 1, the internet, whatever the buffer says. */
  lemma {:induction false} RecordReads(b: seq<byte>, pos: nat)
    requires ParseRecord(b, pos).Value?
    ensures var rr := ParseRecord(b, pos).value;
            var p := ParseName(b, pos).next;
            && p + 10 <= |b| && p + 10 + (0x100 * (b[p + 8] as int) + b[p + 9]) <= |b|
            && rr.name == ParseName(b, pos).value && TypeCode(rr.data) == 0x100 * (b[p] as int) + b[p + 1]
            && rr.rclass == (if rr.data.RAW? then 1 else 0x100 * (b[p + 2] as int) + b[p + 3])
            && GetI32(b, p + 4) == Value(rr.ttl, p + 8)
            && (rr.data.RAW? ==> rr.data.payload == b[p + 10..p + 10 + (0x100 * (b[p + 8] as int) + b[p + 9])])
  {
  }

  /** A raw record of class 1 that is read and written again keeps its type, class, time to live, length
      and data. */
  lemma {:induction false} RawRecordPassesThrough(b: seq<byte>, pos: nat, offset: nat, dict: Dictionary)
    requires ParseRecord(b, pos).Value? && ParseRecord(b, pos).value.data.RAW?
    requires var p := ParseName(b, pos).next; p + 4 <= |b| && b[p + 2] == 0 && b[p + 3] == 1
    ensures var rr := ParseRecord(b, pos).value;
            var n := EncodeName(offset, dict, Split(rr.name)).bytes;
            var p := ParseName(b, pos).next;
            p + 10 + |rr.data.payload| <= |b| &&
            EncodeRecord(offset, dict, rr).bytes == n + b[p..p + 10 + |rr.data.payload|]
  {
    RecordReads(b, pos);
    RawPassesThrough(b, ParseName(b, pos).next, offset, dict, ParseRecord(b, pos).value);
  }

  lemma {:induction false} RawPassesThrough(b: seq<byte>, p: nat, offset: nat, dict: Dictionary, rr: Record)
    requires rr.data.RAW? && p + 10 <= |b| && rr.rclass == 1 && b[p + 2] == 0 && b[p + 3] == 1
    requires rr.data.rtype == 0x100 * (b[p] as int) + b[p + 1] && GetI32(b, p + 4) == Value(rr.ttl, p + 8)
    requires var length := 0x100 * (b[p + 8] as int) + b[p + 9];
             p + 10 + length <= |b| && rr.data.payload == b[p + 10..p + 10 + length]
    ensures var n := EncodeName(offset, dict, Split(rr.name)).bytes;
            EncodeRecord(offset, dict, rr).bytes == n + b[p..p + 10 + |rr.data.payload|]
  {
    RawRecordOnWire(offset, dict, rr);
    TimeToLiveOctets(b, p + 4, rr.ttl);
    PiecesOfRecord(b, p, EncodeName(offset, dict, Split(rr.name)).bytes, rr.data.rtype, 1, I32(rr.ttl), |rr.data.payload|);
  }

  lemma {:induction false} RawRecordOnWire(offset: nat, dict: Dictionary, rr: Record)
    requires rr.data.RAW? && |rr.data.payload| <= 0xFFFF
    ensures var n := EncodeName(offset, dict, Split(rr.name)).bytes;
            var code, length := TypeCode(rr.data), |rr.data.payload|;
            EncodeRecord(offset, dict, rr).bytes ==
              n + ([code / 0x100, code % 0x100, rr.rclass / 0x100, rr.rclass % 0x100] + I32(rr.ttl)) +
              [length / 0x100, length % 0x100] + rr.data.payload
  {
    var n := EncodeName(offset, dict, Split(rr.name));
    RecordOnWire(offset, dict, rr);
    SimpleDataOnWire(offset + |n.bytes| + 10, n.dict, rr.data);
  }

  /** The words and the data after a name, put together. */
  lemma {:induction false} PiecesOfRecord(b: seq<byte>, p: nat, n: seq<byte>, code: u16, rclass: u16, ttl: seq<byte>, length: nat)
    requires p + 10 + length <= |b| && length <= 0xFFFF
    requires code == 0x100 * (b[p] as int) + b[p + 1] && rclass == 0x100 * (b[p + 2] as int) + b[p + 3]
    requires ttl == [b[p + 4], b[p + 5], b[p + 6], b[p + 7]] && length == 0x100 * (b[p + 8] as int) + b[p + 9]
    ensures n + ([code / 0x100, code % 0x100, rclass / 0x100, rclass % 0x100] + ttl) +
            [length / 0x100, length % 0x100] + b[p + 10..p + 10 + length] == n + b[p..p + 10 + length]
  {
    TwoOctets(b[p], b[p + 1]);
    TwoOctets(b[p + 2], b[p + 3]);
    TwoOctets(b[p + 8], b[p + 9]);
    var words := [b[p], b[p + 1], b[p + 2], b[p + 3]] + ttl + [b[p + 8], b[p + 9]];
    var data := b[p + 10..p + 10 + length];
    assert words == b[p..p + 10];
    assert words + data == b[p..p + 10 + length];
    assert n + ([b[p], b[p + 1], b[p + 2], b[p + 3]] + ttl) + [b[p + 8], b[p + 9]] + data == n + (words + data);
  }

  lemma {:induction false} TimeToLiveOctets(b: seq<byte>, p: nat, ttl: i32)
    requires p + 4 <= |b| && GetI32(b, p) == Value(ttl, p + 4)
    ensures I32(ttl) == [b[p], b[p + 1], b[p + 2], b[p + 3]]
  {
    SignedReads(b, p);
    SignedOnWire(ttl);
    LongOnWire(b[p], b[p + 1], b[p + 2], b[p + 3]);
  }
}
