/**
 Messages that do not survive: a label that is taken for a pointer, raw data beyond what its length
 field can say, a name repeated beyond the reach of a pointer, and a datagram that the reader never
 finishes.
 */
module DnsMisread {
  import opened Bytes
  import opened DomainText
  import opened NameParser
  import opened Chunks
  import opened NameWriter
  import opened DnsMessage
  import opened DnsRoundTrip
  import opened DnsLimits
  import opened DnsWire
  import Codec = DnsCodec

  /** A type the reader does not decode. */
  const PLAIN: u16 := 99

  function RawRecord(payload: seq<byte>): (r: Record) {
    Record([], 0, INTERNET, RAW(PLAIN, payload))
  }

  function Answering(answers: seq<Record>): (r: Message)
    requires |answers| <= 0xFFFF
  {
    Message(Header(0, 0, 0, |answers|, 0, 0), [], answers, [], [])
  }

  /** The head of a record: its name, then eight octets. */
  lemma {:induction false} HeadBytes(offset: nat, dict: Dictionary, rr: Record)
    ensures var n := EncodeName(offset, dict, Split(rr.name));
            var c := EncodeHead(offset, dict, rr);
            c.dict == n.dict && c.ok == n.ok && |c.bytes| == |n.bytes| + 8 && n.bytes <= c.bytes
  {
    HeadOnWire(offset, dict, rr);
  }

  /** A record of one run of octets. */
  lemma {:induction false} OctetRecordBytes(offset: nat, dict: Dictionary, rr: Record, octets: seq<byte>)
    requires DataFields(rr.data) == [Octets(octets)]
    ensures var n := EncodeName(offset, dict, Split(rr.name));
            var c := EncodeRecord(offset, dict, rr);
            && c.dict == n.dict && c.ok == n.ok && |c.bytes| == |n.bytes| + 10 + |octets| && n.bytes <= c.bytes
            && c.bytes == EncodeHead(offset, dict, rr).bytes + U16(DataLength(|octets|)) + octets
  {
    HeadBytes(offset, dict, rr);
    var head := EncodeHead(offset, dict, rr);
    OneField(offset + |head.bytes| + 2, head.dict, Octets(octets));
  }

  lemma {:induction false} HeaderBytes(h: Header)
    ensures var c := EncodeFields(0, map[], HeaderFields(h)); c.ok && c.dict == map[] && |c.bytes| == 12
  {
    HeaderOnWire(h);
    NumbersDoNotCompress(0, map[], HeaderFields(h));
  }

  /** A message of answers only: its header and then the answers. */
  lemma {:induction false} AnsweringBytes(answers: seq<Record>)
    requires |answers| <= 0xFFFF
    ensures var c := EncodeMany(EncodeRecord, 12, map[], answers);
            var m := Answering(answers);
            && Serialize(m) == UpToHeader(m).bytes + c.bytes && |UpToHeader(m).bytes| == 12
            && EncodeMessage(m).ok == c.ok && CountsMatch(m)
  {
    var m := Answering(answers);
    HeaderBytes(m.header);
    var h := UpToHeader(m);
    assert UpToQuestions(m) == h by {
      assert h.bytes + [] == h.bytes;
    }
    var a := UpToAnswers(m);
    assert a.bytes + [] == a.bytes;
  }

  /** Reading a message of answers only comes down to reading the answers. */
  lemma {:induction false} AnswersDecide(b: seq<byte>, h: Header)
    requires ParseHeader(b, 0) == Value(h, 12) && h.questions == 0 && h.authorities == 0 && h.additions == 0
    ensures var rrs := ParseMany(RecordReader(b), 12, h.answers);
            && (ParseMessage(b).Value? <==> rrs.Value?)
            && (rrs.Value? ==> ParseMessage(b) == Value(Message(h, [], rrs.value, [], []), rrs.next))
  {
    assert ParseMany(QuestionReader(b), 12, 0) == Value([], 12);
  }

  lemma {:induction false} AnsweringParses(answers: seq<Record>)
    requires |answers| <= 0xFFFF
    ensures var b := Serialize(Answering(answers));
            && Has(b, 12, EncodeMany(EncodeRecord, 12, map[], answers).bytes)
            && ParseHeader(b, 0) == Value(Answering(answers).header, 12)
  {
    var m := Answering(answers);
    var b := Serialize(m);
    AnsweringBytes(answers);
    HasSplits(b, 0, UpToHeader(m).bytes, EncodeMany(EncodeRecord, 12, map[], answers).bytes);
    HeaderWritten(b, m.header);
  }

  lemma {:induction false} RootName(offset: nat, dict: Dictionary)
    ensures EncodeName(offset, dict, Split([])) == Chunk([0], dict, true)
  {
  }

  /** The bytes of a long raw record begin with those of one cut to what the length field can say. */
  lemma {:induction false} LongRawBytes(payload: seq<byte>)
    requires |payload| > 0xFFFF
    ensures EncodeRecord(12, map[], RawRecord(payload)).bytes ==
              EncodeRecord(12, map[], RawRecord(payload[..0xFFFF])).bytes + payload[0xFFFF..]
    ensures EncodeRecord(12, map[], RawRecord(payload)).ok && EncodeRecord(12, map[], RawRecord(payload[..0xFFFF])).ok
  {
    var long, short := RawRecord(payload), RawRecord(payload[..0xFFFF]);
    RootName(12, map[]);
    OctetRecordBytes(12, map[], long, payload);
    OctetRecordBytes(12, map[], short, payload[..0xFFFF]);
    assert HeadFields(long) == HeadFields(short);
    var front := EncodeHead(12, map[], long).bytes + U16(0xFFFF);
    assert front + payload == front + payload[..0xFFFF] + payload[0xFFFF..];
  }

  lemma {:induction false} OneAnswer(rr: Record)
    ensures EncodeMany(EncodeRecord, 12, map[], [rr]) == EncodeRecord(12, map[], rr)
  {
    var c := EncodeRecord(12, map[], rr);
    var none: seq<Record> := [];
    assert [rr][1..] == none && c.bytes + [] == c.bytes;
  }

  lemma {:induction false} ReadsItem<U>(parse: nat -> Outcome<U>, pos: nat, count: nat, item: U, next: nat)
    requires count > 0 && parse(pos) == Value(item, next)
    ensures var rest := ParseMany(parse, next, count - 1);
            var all := ParseMany(parse, pos, count);
            (all.Value? <==> rest.Value?) && (all.Value? ==> all == Value([item] + rest.value, rest.next))
  {
  }

  lemma {:induction false} ReadsNothing<U>(parse: nat -> Outcome<U>, pos: nat)
    ensures ParseMany(parse, pos, 0) == Value([], pos)
  {
  }

  lemma {:induction false} RawReads(b: seq<byte>, pos: nat, payload: seq<byte>)
    requires |payload| <= 0xFFFF && Has(b, pos, EncodeRecord(pos, map[], RawRecord(payload)).bytes)
    ensures RecordReader(b)(pos) == Value(RawRecord(payload), pos + 11 + |payload|)
  {
    var rr := RawRecord(payload);
    RootName(pos, map[]);
    OctetRecordBytes(pos, map[], rr, payload);
    RecordWritten(b, pos, map[], rr);
    RawIsNormal(payload);
  }

  lemma {:induction false} RawIsNormal(payload: seq<byte>)
    ensures NormalRecord(RawRecord(payload)) == RawRecord(payload)
  {
  }

  lemma {:induction false} LongRawReads(b: seq<byte>, payload: seq<byte>)
    requires |payload| > 0xFFFF && Has(b, 12, EncodeRecord(12, map[], RawRecord(payload)).bytes)
    ensures var rrs := ParseMany(RecordReader(b), 12, 1); rrs.Value? && rrs.value == [RawRecord(payload[..0xFFFF])]
  {
    var part := EncodeRecord(12, map[], RawRecord(payload[..0xFFFF])).bytes;
    LongRawBytes(payload);
    HasSplits(b, 12, part, payload[0xFFFF..]);
    RawReads(b, 12, payload[..0xFFFF]);
    ReadsItem(RecordReader(b), 12, 1, RawRecord(payload[..0xFFFF]), 23 + 0xFFFF);
    ReadsNothing(RecordReader(b), 23 + 0xFFFF);
  }

  /** Raw data beyond 65535 bytes comes back cut to that length, because its length field is clamped. */
  lemma {:induction false} LongRawComesBackShort(payload: seq<byte>)
    requires |payload| > 0xFFFF
    ensures var m := Answering([RawRecord(payload)]);
            && CountsMatch(m) && EncodeMessage(m).ok
            && var r := ParseMessage(Serialize(m)); r.Value? && r.value == m.(answers := [RawRecord(payload[..0xFFFF])])
  {
    var long := RawRecord(payload);
    AnsweringBytes([long]);
    AnsweringParses([long]);
    OneAnswer(long);
    LongRawBytes(payload);
    LongRawReads(Serialize(Answering([long])), payload);
    AnswersDecide(Serialize(Answering([long])), Answering([long]).header);
  }

  /** One question, for a name of one label. */
  function LongLabelMessage(text: Text): (r: Message) {
    Message(Header(0, 0, 1, 0, 0, 0), [Question(text, 1, 1)], [], [], [])
  }

  lemma {:induction false} OneLabel(text: Text)
    requires IsLabel(text)
    ensures Split(text) == Part(text, Root) && IsTidy(text)
  {
    SplitFromCollects(text, [], []);
    assert text + [] == text && [] + text == text;
    CanonicalExactlyTidy(text);
  }

  lemma {:induction false} LongLabelIsWritable(text: Text)
    requires IsLabel(text) && |text| <= 255
    ensures Codec.WritableMessage(LongLabelMessage(text))
  {
    OneLabel(text);
    assert Countable(Split(text)) by {
      assert Countable(Root);
    }
  }

  lemma {:induction false} LongLabelIsFaithful(text: Text)
    requires IsLabel(text)
    ensures CountsMatch(LongLabelMessage(text)) && FaithfulMessage(LongLabelMessage(text))
  {
    OneLabel(text);
  }

  lemma {:induction false} LongLabelIsNotShort(text: Text)
    requires IsLabel(text) && |text| >= 0xC0
    ensures !ShortMessage(LongLabelMessage(text))
  {
    OneLabel(text);
    var m := LongLabelMessage(text);
    assert QuestionFields(m.questions[0])[0] == DomainName(text);
    assert !ShortFields(QuestionFields(m.questions[0]));
  }

  /** A message that the writer accepts, with a label of 192 bytes or more, never comes back. */
  lemma {:induction false} LongLabelNeverComesBack(text: Text)
    requires IsLabel(text) && 0xC0 <= |text| <= 255
    ensures var m := LongLabelMessage(text);
            && Codec.WritableMessage(m) && CountsMatch(m) && FaithfulMessage(m)
            && ParseMessage(Serialize(m)) != Value(m, |Serialize(m)|)
  {
    LongLabelIsWritable(text);
    LongLabelIsFaithful(text);
    LongLabelIsNotShort(text);
    var m := LongLabelMessage(text);
    if ParseMessage(Serialize(m)) == Value(m, |Serialize(m)|) {
      ParsedMessageIsShort(Serialize(m));
    }
  }

  /** An address record for the name `a`. */
  const LATE: Record := Record([97], 0, INTERNET, A([0, 0, 0, 0]))

  /** Raw data that puts the next name at offset 0x4000 + 12, and that name twice. */
  function LateMessage(filler: seq<byte>): (r: Message) {
    Answering([RawRecord(filler), LATE, LATE])
  }

  lemma {:induction false} ShortName()
    ensures Split([97]) == Part([97], Root) && Join(Part([97], Root)) == [97]
  {
    assert [97][1..] == [] && [] + [97] == [97];
    SplitJoin(Part([97], Root));
  }

  /** The first time the name is written out, and remembered. */
  lemma {:induction false} FirstLate(offset: nat)
    ensures var c := EncodeRecord(offset, map[], LATE); c.ok && |c.bytes| == 17 && c.dict == map[[97] := offset]
  {
    ShortName();
    var c := EncodeName(offset, map[], Part([97], Root));
    assert Compress(offset, map[], Part([97], Root)) == Label([97], End);
    assert c.dict == map[[97] := offset];
    assert |c.bytes| == 3;
    OctetRecordBytes(offset, map[], LATE, [0, 0, 0, 0]);
  }

  /** The second time it is a pointer to the first. */
  lemma {:induction false} SecondLate(offset: nat, first: nat)
    ensures U16(PointerWord(first)) <= EncodeRecord(offset, map[[97] := first], LATE).bytes
  {
    ShortName();
    assert Compress(offset, map[[97] := first], Part([97], Root)) == Jump(first);
    OctetRecordBytes(offset, map[[97] := first], LATE, [0, 0, 0, 0]);
  }

  lemma {:induction false} ThreeItems<T>(encode: (nat, Dictionary, T) -> Chunk, offset: nat, x: T, y: T, z: T)
    ensures var c := encode(offset, map[], x);
            var d := encode(offset + |c.bytes|, c.dict, y);
            var e := encode(offset + |c.bytes| + |d.bytes|, d.dict, z);
            EncodeMany(encode, offset, map[], [x, y, z]).bytes == c.bytes + (d.bytes + (e.bytes + []))
  {
    var none: seq<T> := [];
    assert [x, y, z][1..] == [y, z] && [y, z][1..] == [z] && [z][1..] == none;
    var c := encode(offset, map[], x);
    var d := encode(offset + |c.bytes|, c.dict, y);
    var e := encode(offset + |c.bytes| + |d.bytes|, d.dict, z);
    var p := offset + |c.bytes| + |d.bytes|;
    var last := EncodeMany(encode, p, d.dict, [z]);
    assert EncodeMany(encode, p + |e.bytes|, e.dict, [z][1..]) == Chunk([], e.dict, true);
    assert last.bytes == e.bytes + [];
    assert EncodeMany(encode, offset + |c.bytes|, c.dict, [y, z]).bytes == d.bytes + last.bytes;
  }

  lemma {:induction false} ThreeStand(b: seq<byte>, pos: nat, c: seq<byte>, d: seq<byte>, e: seq<byte>, w: seq<byte>)
    requires Has(b, pos, c + (d + (e + []))) && w <= e
    ensures Has(b, pos, c) && Has(b, pos + |c|, d) && Has(b, pos + |c| + |d|, w)
  {
    HasSplits(b, pos, c, d + (e + []));
    HasSplits(b, pos + |c|, d, e + []);
    assert e + [] == w + (e + [])[|w|..];
    HasSplits(b, pos + |c| + |d|, w, (e + [])[|w|..]);
  }

  lemma {:induction false} ThreeReads<U>(read: nat -> Outcome<U>, p0: nat, p1: nat, p2: nat, x: U, y: U)
    requires read(p0) == Value(x, p1) && read(p1) == Value(y, p2)
    ensures var all := ParseMany(read, p0, 3);
            all.Value? ==> |all.value| == 3 && read(p2).Value? && all.value[2] == read(p2).value
  {
    ReadsItem(read, p0, 3, x, p1);
    ReadsItem(read, p1, 2, y, p2);
    var last := read(p2);
    if last.Value? {
      ReadsItem(read, p2, 1, last.value, last.next);
      ReadsNothing(read, last.next);
    }
  }

  /** Where the three answers stand, and that the third begins with a pointer out of reach. */
  lemma {:induction false} LateAnswersStand(b: seq<byte>, zeros: seq<byte>)
    requires |zeros| == POINTER_RANGE - 11
    requires Has(b, 12, EncodeMany(EncodeRecord, 12, map[], [RawRecord(zeros), LATE, LATE]).bytes)
    ensures Has(b, 12, EncodeRecord(12, map[], RawRecord(zeros)).bytes)
    ensures Has(b, POINTER_RANGE + 12, EncodeRecord(POINTER_RANGE + 12, map[], LATE).bytes)
    ensures Has(b, POINTER_RANGE + 29, U16(PointerWord(POINTER_RANGE + 12)))
    ensures b[12] == 0
  {
    var raw, second := RawRecord(zeros), POINTER_RANGE + 12;
    RootName(12, map[]);
    OctetRecordBytes(12, map[], raw, zeros);
    FirstLate(second);
    SecondLate(second + 17, second);
    ThreeItems(EncodeRecord, 12, raw, LATE, LATE);
    var c := EncodeRecord(12, map[], raw).bytes;
    ThreeStand(b, 12, c, EncodeRecord(second, map[], LATE).bytes,
               EncodeRecord(second + 17, map[[97] := second], LATE).bytes, U16(PointerWord(second)));
    assert b[12 + 0] == c[0];
  }

  lemma {:induction false} LateReads(b: seq<byte>, pos: nat)
    requires Has(b, pos, EncodeRecord(pos, map[], LATE).bytes)
    ensures RecordReader(b)(pos) == Value(LATE, pos + 17)
  {
    FirstLate(pos);
    RecordWritten(b, pos, map[], LATE);
    ShortName();
    assert NormalRecord(LATE) == LATE;
  }

  lemma {:induction false} RootNameReads(b: seq<byte>, pos: nat)
    requires ParseName(b, pos) == Value([], pos + 2)
    ensures var r := RecordReader(b)(pos); r.Value? ==> r.value.name == []
  {
  }

  /** The reader takes the third answer's name for the root. */
  lemma {:induction false} LateAnswersRead(b: seq<byte>, zeros: seq<byte>)
    requires |zeros| == POINTER_RANGE - 11
    requires Has(b, 12, EncodeMany(EncodeRecord, 12, map[], [RawRecord(zeros), LATE, LATE]).bytes)
    ensures var rrs := ParseMany(RecordReader(b), 12, 3); rrs.Value? ==> |rrs.value| == 3 && rrs.value[2].name == []
  {
    var second := POINTER_RANGE + 12;
    LateAnswersStand(b, zeros);
    RawReads(b, 12, zeros);
    LateReads(b, second);
    LatePointerMisreads(b, second + 17, second);
    RootNameReads(b, second + 17);
    ThreeReads(RecordReader(b), 12, second, second + 17, RawRecord(zeros), LATE);
  }

  lemma {:induction false} LateMessageIsFaithful(filler: seq<byte>)
    requires |filler| == POINTER_RANGE - 11
    ensures FaithfulMessage(LateMessage(filler))
  {
    assert FaithfulRecord(LATE);
    assert FaithfulRecord(RawRecord(filler));
  }

  /** A faithful message beyond the reach of pointers that does not come back: its third answer's name
      is written as a pointer to offset 0x400C, which is read as offset 12. */
  lemma {:induction false} LateMessageIsMisread(filler: seq<byte>)
    requires |filler| == POINTER_RANGE - 11
    ensures var m := LateMessage(filler);
            CountsMatch(m) && FaithfulMessage(m) && ParseMessage(Serialize(m)) != Value(m, |Serialize(m)|)
  {
    var m := LateMessage(filler);
    LateMessageIsFaithful(filler);
    AnsweringBytes(m.answers);
    AnsweringParses(m.answers);
    LateAnswersRead(Serialize(m), filler);
    AnswersDecide(Serialize(m), m.header);
    assert m.answers[2].name == [97];
  }

  /** A datagram whose pointers all go back to an earlier byte, and which the reader never finishes: a
      label runs forward from the target into the pointer again. */
  lemma {:induction false} BackwardPointerCanLoop()
    ensures var b := [1, 97, 0xC0, 0, 0, 1, 0, 0, 0, 0, 0, 0, 0xC0, 0, 0, 1, 0, 1];
            && JumpTarget(b, 2) == Some(0) && JumpTarget(b, 12) == Some(0)
            && ParseMessage(b) == Diverges
  {
    var b: seq<byte> := [1, 97, 0xC0, 0, 0, 1, 0, 0, 0, 0, 0, 0, 0xC0, 0, 0, 1, 0, 1];
    assert JumpTarget(b, 2) == Some(0);
    assert JumpTarget(b, 0) == JumpTarget(b, 2);
    assert Hop(b, 0, 0) == Some(0) && Hop(b, 0, 1) == Some(0);
    assert Hop(b, 12, 1) == Some(0) && Hop(b, 12, 2) == Hop(b, 0, 1);
    DivergesExactlyOnCycle(b, 12);
    assert ParseHeader(b, 0) == Value(Header(353, 0xC000, 1, 0, 0, 0), 12);
    assert QuestionReader(b)(12) == ParseQuestion(b, 12) == Diverges;
    assert ParseMany(QuestionReader(b), 12, 1) == Diverges;
  }
}
