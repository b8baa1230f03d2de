/**
 The codec as it runs: a growing byte array with its compression dictionary, patched in place,
 and a parser that moves a cursor and recurses only to follow pointers.
 */
module DnsCodec {
  import opened Bytes
  import opened DomainText
  import opened NameParser
  import opened Chunks
  import opened NameWriter
  import opened DnsMessage
  import opened DnsLimits

  /** The writer traps on strings and labels whose length does not fit in one octet. */
  predicate Writable(f: Field) {
    match f
    case Counted(text) => |text| <= 255
    case DomainName(name) => Countable(Split(name))
    case _ => true
  }

  predicate AllWritable(fs: seq<Field>) {
    forall i :: 0 <= i < |fs| ==> Writable(fs[i])
  }

  predicate WritableRecord(rr: Record) {
    AllWritable(HeadFields(rr)) && AllWritable(DataFields(rr.data))
  }

  predicate WritableRecords(rrs: seq<Record>) {
    forall i :: 0 <= i < |rrs| ==> WritableRecord(rrs[i])
  }

  predicate WritableMessage(m: Message) {
    && (forall i :: 0 <= i < |m.questions| ==> AllWritable(QuestionFields(m.questions[i])))
    && WritableRecords(m.answers) && WritableRecords(m.authorities) && WritableRecords(m.additionals)
  }

  /** With `items` still to be written, the message will be `total` and the dictionary `final`. */
  ghost predicate Ahead<T>(
    encode: (nat, Dictionary, T) -> Chunk, b: seq<byte>, dict: Dictionary, items: seq<T>,
    total: seq<byte>, final: Dictionary)
  {
    var c := EncodeMany(encode, |b|, dict, items);
    b + c.bytes == total && c.dict == final
  }

  lemma {:induction false} AheadStep<T>(
    encode: (nat, Dictionary, T) -> Chunk, b: seq<byte>, dict: Dictionary, items: seq<T>,
    total: seq<byte>, final: Dictionary)
    requires items != [] && Ahead(encode, b, dict, items, total, final)
    ensures var c := encode(|b|, dict, items[0]);
            Ahead(encode, b + c.bytes, c.dict, items[1..], total, final)
  {
    var c := encode(|b|, dict, items[0]);
    var rest := EncodeMany(encode, |b| + |c.bytes|, c.dict, items[1..]);
    assert b + (c.bytes + rest.bytes) == b + c.bytes + rest.bytes;
  }

  class MessageWriter {
    var bytes: seq<byte>
    var compression: Dictionary

    constructor ()
      ensures bytes == [] && compression == map[]
    {
      bytes := [];
      compression := map[];
    }

    /** Appends a name: labels until the remaining suffix is known, then a pointer, or the root. */
    method AppendName(name: Name)
      requires Countable(name)
      modifies this
      ensures var c := EncodeName(|old(bytes)|, old(compression), name);
              bytes == old(bytes) + c.bytes && compression == c.dict
    {
      if name == Root {
        bytes := bytes + [0];
        return;
      }
      ghost var total := bytes + WireBytes(Compress(|bytes|, compression, name));
      ghost var learned := Learn(|bytes|, compression, name);
      var labels := name;
      while labels != Root
        invariant Countable(labels)
        invariant labels != Root ==>
                    bytes + WireBytes(Compress(|bytes|, compression, labels)) == total
                    && Learn(|bytes|, compression, labels) == learned
        invariant labels == Root ==> bytes == total && compression == learned
        decreases labels
      {
        var key := Join(labels);
        if key in compression {
          bytes := bytes + U16(PointerWord(compression[key]));
          break;
        }
        ghost var rest := Compress(|bytes| + 1 + |labels.text|, compression[key := |bytes|], labels.rest);
        assert WireBytes(Compress(|bytes|, compression, labels)) == LabelBytes(labels.text) + WireBytes(rest);
        assert bytes + (LabelBytes(labels.text) + WireBytes(rest)) == bytes + LabelBytes(labels.text) + WireBytes(rest);
        compression := compression[key := |bytes|];
        bytes := bytes + ([|labels.text|] + labels.text);
        labels := labels.rest;
        if labels == Root {
          bytes := bytes + [0];
        }
      }
    }

    method AppendField(f: Field)
      requires Writable(f)
      modifies this
      ensures var c := EncodeField(|old(bytes)|, old(compression), f);
              bytes == old(bytes) + c.bytes && compression == c.dict
    {
      match f
      case Num16(v) => bytes := bytes + U16(v);
      case Num32(v) => bytes := bytes + U32(v);
      case Signed(v) => bytes := bytes + I32(v);
      case Octets(s) => bytes := bytes + s;
      case Counted(t) => bytes := bytes + ([|t|] + t);
      case DomainName(name) => AppendName(Split(name));
    }

    method AppendFields(fs: seq<Field>)
      requires AllWritable(fs)
      modifies this
      ensures var c := EncodeFields(|old(bytes)|, old(compression), fs);
              bytes == old(bytes) + c.bytes && compression == c.dict
    {
      ghost var c := EncodeFields(|bytes|, compression, fs);
      ghost var total := bytes + c.bytes;
      for i := 0 to |fs|
        invariant Ahead(EncodeField, bytes, compression, fs[i..], total, c.dict)
      {
        AheadStep(EncodeField, bytes, compression, fs[i..], total, c.dict);
        assert fs[i..][0] == fs[i] && fs[i..][1..] == fs[i + 1..];
        AppendField(fs[i]);
      }
      assert bytes + [] == bytes;
    }

    /** Writes the length of the data over the two octets in front of it. */
    method PatchLength(start: nat, ghost head: seq<byte>, ghost data: seq<byte>)
      requires |head| == start && bytes == head + U16(0) + data
      modifies this`bytes
      ensures bytes == head + U16(DataLength(|data|)) + data
    {
      assert bytes[..start] == head && bytes[start + 2..] == data;
      bytes := bytes[..start] + U16(DataLength(|bytes| - start - 2)) + bytes[start + 2..];
    }

    /** Appends a zero length and the data of a record. */
    method AppendData(d: RData)
      requires AllWritable(DataFields(d))
      modifies this
      ensures var c := EncodeData(|old(bytes)|, old(compression), d);
              bytes == old(bytes) + U16(0) + c.bytes && compression == c.dict
    {
      bytes := bytes + U16(0);
      AppendFields(DataFields(d));
    }

    /** Appends a record. The length field is written as zero first, and patched when the data is
        complete. */
    method AppendRecord(rr: Record)
      requires WritableRecord(rr)
      modifies this
      ensures var c := EncodeRecord(|old(bytes)|, old(compression), rr);
              bytes == old(bytes) + c.bytes && compression == c.dict
    {
      AppendFields(HeadFields(rr));
      ghost var head, dict := bytes, compression;
      var start := |bytes|;
      AppendData(rr.data);
      PatchLength(start, head, EncodeData(start, dict, rr.data).bytes);
      Patched(old(bytes), old(compression), rr, head, EncodeData(start, dict, rr.data));
    }

    method AppendRecords(rrs: seq<Record>)
      requires WritableRecords(rrs)
      modifies this
      ensures var c := EncodeMany(EncodeRecord, |old(bytes)|, old(compression), rrs);
              bytes == old(bytes) + c.bytes && compression == c.dict
    {
      ghost var c := EncodeMany(EncodeRecord, |bytes|, compression, rrs);
      ghost var total := bytes + c.bytes;
      for i := 0 to |rrs|
        invariant Ahead(EncodeRecord, bytes, compression, rrs[i..], total, c.dict)
      {
        AheadStep(EncodeRecord, bytes, compression, rrs[i..], total, c.dict);
        assert rrs[i..][0] == rrs[i] && rrs[i..][1..] == rrs[i + 1..];
        AppendRecord(rrs[i]);
      }
      assert bytes + [] == bytes;
    }

    method AppendQuestions(qs: seq<Question>)
      requires forall i :: 0 <= i < |qs| ==> AllWritable(QuestionFields(qs[i]))
      modifies this
      ensures var c := EncodeMany(EncodeQuestion, |old(bytes)|, old(compression), qs);
              bytes == old(bytes) + c.bytes && compression == c.dict
    {
      ghost var c := EncodeMany(EncodeQuestion, |bytes|, compression, qs);
      ghost var total := bytes + c.bytes;
      for i := 0 to |qs|
        invariant Ahead(EncodeQuestion, bytes, compression, qs[i..], total, c.dict)
      {
        AheadStep(EncodeQuestion, bytes, compression, qs[i..], total, c.dict);
        assert qs[i..][0] == qs[i] && qs[i..][1..] == qs[i + 1..];
        AppendFields(QuestionFields(qs[i]));
      }
      assert bytes + [] == bytes;
    }
  }

  /** A record assembled from its pieces is the encoded record. */
  lemma {:induction false} Patched(before: seq<byte>, dict: Dictionary, rr: Record, head: seq<byte>, data: Chunk)
    requires var h := EncodeHead(|before|, dict, rr);
             head == before + h.bytes && data == EncodeData(|head|, h.dict, rr.data)
    ensures var c := EncodeRecord(|before|, dict, rr);
            head + U16(DataLength(|data.bytes|)) + data.bytes == before + c.bytes && data.dict == c.dict
  {
    var h := EncodeHead(|before|, dict, rr);
    var length := U16(DataLength(|data.bytes|));
    assert before + (h.bytes + length + data.bytes) == before + h.bytes + length + data.bytes;
  }

  /** The bytes of a message. */
  method SerializeMessage(m: Message) returns (r: seq<byte>)
    requires WritableMessage(m)
    ensures r == Serialize(m)
  {
    var writer := new MessageWriter();
    writer.AppendFields(HeaderFields(m.header));
    assert writer.bytes == UpToHeader(m).bytes && writer.compression == UpToHeader(m).dict;
    writer.AppendQuestions(m.questions);
    assert writer.bytes == UpToQuestions(m).bytes && writer.compression == UpToQuestions(m).dict;
    writer.AppendRecords(m.answers);
    assert writer.bytes == UpToAnswers(m).bytes && writer.compression == UpToAnswers(m).dict;
    writer.AppendRecords(m.authorities);
    assert writer.bytes == UpToAuthorities(m).bytes && writer.compression == UpToAuthorities(m).dict;
    writer.AppendRecords(m.additionals);
    r := writer.bytes;
  }

  predicate IsWholeLabel(b: seq<byte>, pos: nat)
    requires pos < |b|
  {
    0 < b[pos] < 0xC0 && pos + 1 + b[pos] <= |b|
  }

  /** One label of the loop. */
  method TakeLabel(b: seq<byte>, from: nat, before: Text, ghost jumps: nat) returns (text: Text, pos: nat)
    requires from < |b| && IsWholeLabel(b, from)
    ensures from < pos <= |b| && NameFrom(b, pos, text, jumps) == NameFrom(b, from, before, jumps)
  {
    pos := from + 1 + b[from];
    text := Extend(before, b[from + 1..pos]);
  }

  lemma {:induction false} JumpStep(b: seq<byte>, pos: nat, text: Text, jumps: nat)
    requires pos + 1 < |b| && b[pos] >= 0xC0
    ensures NameFrom(b, pos, text, jumps) ==
              if jumps == 0 then Diverges
              else
                var name := NameFrom(b, Target(b[pos], b[pos + 1]), [], jumps - 1);
                if name.Value? then Value(Extend(text, name.value), pos + 2) else name
  {
  }

  /** The label loop: collects labels until the name ends, a pointer begins or a label overruns
      the buffer. */
  method ScanLabels(b: seq<byte>, consumed: nat, ghost jumps: nat) returns (text: Text, pos: nat)
    ensures NameFrom(b, pos, text, jumps) == NameFrom(b, consumed, [], jumps)
    ensures pos < |b| ==> b[pos] == 0 || b[pos] >= 0xC0 || pos + 1 + b[pos] > |b|
  {
    text, pos := [], consumed;
    ghost var name := NameFrom(b, pos, text, jumps);
    while pos < |b| && IsWholeLabel(b, pos)
      invariant NameFrom(b, pos, text, jumps) == name
      decreases |b| - pos
    {
      text, pos := TakeLabel(b, pos, text, jumps);
    }
  }

  /** Reading a name. The source follows pointers without a bound; here a run that follows more than
      `jumps` of them is known never to return, which `JumpBoundIsExact` makes exact at 0x4000. */
  method ParseDomainName(b: seq<byte>, consumed: nat, jumps: nat) returns (r: Outcome<Text>)
    ensures r == NameFrom(b, consumed, [], jumps)
    decreases jumps
  {
    var text, pos := ScanLabels(b, consumed, jumps);
    if pos >= |b| {
      return Value(text, pos);
    }
    if b[pos] == 0 {
      return Value(text, pos + 1);
    }
    if b[pos] < 0xC0 || pos + 1 >= |b| {
      return Refused;
    }
    JumpStep(b, pos, text, jumps);
    if jumps == 0 {
      return Diverges;
    }
    var target := ParseDomainName(b, Target(b[pos], b[pos + 1]), jumps - 1);
    r := if target.Value? then Value(Extend(text, target.value), pos + 2) else target;
  }

  method ReadName(b: seq<byte>, consumed: nat) returns (r: Outcome<Text>)
    ensures r == ParseName(b, consumed)
  {
    r := ParseDomainName(b, consumed, POINTER_RANGE);
  }

  method ReadQuestion(b: seq<byte>, consumed: nat) returns (r: Outcome<Question>)
    ensures r == ParseQuestion(b, consumed)
  {
    var name :- ReadName(b, consumed);
    var qtype :- Get16(b, name.1);
    var qclass :- Get16(b, qtype.1);
    return Value(Question(name.0, qtype.0, qclass.0), qclass.1);
  }

  method ReadSOA(b: seq<byte>, consumed: nat) returns (r: Outcome<RData>)
    ensures r == ParseSOA(b, consumed)
  {
    var primary :- ReadName(b, consumed);
    var mailbox :- ReadName(b, primary.1);
    var serial :- Get32(b, mailbox.1);
    var refresh :- Get32(b, serial.1);
    var retry :- Get32(b, refresh.1);
    var expire :- Get32(b, retry.1);
    var minimum :- Get32(b, expire.1);
    return Value(SOA(primary.0, mailbox.0, serial.0, refresh.0, retry.0, expire.0, minimum.0), minimum.1);
  }

  method ReadMX(b: seq<byte>, consumed: nat) returns (r: Outcome<RData>)
    ensures r == ParseMX(b, consumed)
  {
    var preference :- Get16(b, consumed);
    var exchange :- ReadName(b, preference.1);
    return Value(MX(preference.0, exchange.0), exchange.1);
  }

  method ReadSRV(b: seq<byte>, consumed: nat) returns (r: Outcome<RData>)
    ensures r == ParseSRV(b, consumed)
  {
    var priority :- Get16(b, consumed);
    var weight :- Get16(b, priority.1);
    var port :- Get16(b, weight.1);
    var target :- ReadName(b, port.1);
    return Value(SRV(priority.0, weight.0, port.0, target.0), target.1);
  }

  method ReadNAPTR(b: seq<byte>, consumed: nat) returns (r: Outcome<RData>)
    ensures r == ParseNAPTR(b, consumed)
  {
    var order :- Get16(b, consumed);
    var rank :- Get16(b, order.1);
    var flags :- ParseCounted(b, rank.1);
    var services :- ParseCounted(b, flags.1);
    var regexp :- ParseCounted(b, services.1);
    var replacement :- ReadName(b, regexp.1);
    return Value(NAPTR(order.0, rank.0, flags.0, services.0, regexp.0, replacement.0), replacement.1);
  }

  /** The switch on the type of a record. */
  method ReadData(b: seq<byte>, consumed: nat, code: u16, length: u16) returns (r: Outcome<RData>)
    ensures r == ParseData(b, consumed, code, length)
  {
    if code == 1 || code == 28 {
      var size := if code == 1 then 4 else 16;
      if length != size {
        return Refused;
      }
      var address :- GetBytes(b, consumed, size);
      r := Value(if code == 1 then A(address.0) else AAAA(address.0), address.1);
    } else if code == 2 || code == 5 || code == 12 {
      var name :- ReadName(b, consumed);
      r := Value(if code == 2 then NS(name.0) else if code == 5 then CNAME(name.0) else PTR(name.0), name.1);
    } else if code == 6 {
      r := ReadSOA(b, consumed);
    } else if code == 15 {
      r := ReadMX(b, consumed);
    } else if code == 16 {
      var text :- ParseCounted(b, consumed);
      r := Value(TXT(text.0), text.1);
    } else if code == 33 {
      r := ReadSRV(b, consumed);
    } else if code == 35 {
      r := ReadNAPTR(b, consumed);
    } else {
      var payload :- GetBytes(b, consumed, length);
      r := Value(RAW(code, payload.0), payload.1);
    }
  }

  method ReadRecord(b: seq<byte>, consumed: nat) returns (r: Outcome<Record>)
    ensures r == ParseRecord(b, consumed)
  {
    var name :- ReadName(b, consumed);
    var code :- Get16(b, name.1);
    var rclass :- Get16(b, code.1);
    var ttl :- GetI32(b, rclass.1);
    var length :- Get16(b, ttl.1);
    if length.1 + length.0 > |b| {
      return Refused;
    }
    var data :- ReadData(b, length.1, code.0, length.0);
    return Value(Record(name.0, ttl.0, if data.0.RAW? then INTERNET else rclass.0, data.0), data.1);
  }

  function Prepend<U>(items: seq<U>, r: Outcome<seq<U>>): (s: Outcome<seq<U>>) {
    match r
    case Value(rest, end) => Value(items + rest, end)
    case failed => failed
  }

  lemma {:induction false} ParseManyStep<U>(parse: nat -> Outcome<U>, pos: nat, count: nat, items: seq<U>)
    requires count > 0
    ensures var item := parse(pos);
            Prepend(items, ParseMany(parse, pos, count))
            == if item.Value? then Prepend(items + [item.value], ParseMany(parse, item.next, count - 1))
               else item.PropagateFailure()
  {
    var item := parse(pos);
    if item.Value? && ParseMany(parse, item.next, count - 1).Value? {
      var rest := ParseMany(parse, item.next, count - 1).value;
      assert items + ([item.value] + rest) == items + [item.value] + rest;
    }
  }

  lemma {:induction false} PrependNothing<U>(r: Outcome<seq<U>>)
    ensures Prepend([], r) == r
  {
    if r.Value? {
      assert [] + r.value == r.value;
    }
  }

  /** `parse` reads records. The loop below does not need to know how, so this is used only where a
      record is read. */
  ghost predicate ReadsRecords(b: seq<byte>, parse: nat -> Outcome<Record>) {
    forall p: nat {:trigger ParseRecord(b, p)} :: parse(p) == ParseRecord(b, p)
  }

  method ReadRecordAs(b: seq<byte>, consumed: nat, ghost parse: nat -> Outcome<Record>) returns (r: Outcome<Record>)
    requires ReadsRecords(b, parse)
    ensures r == parse(consumed)
  {
    r := ReadRecord(b, consumed);
  }

  method ReadRecordsAs(b: seq<byte>, consumed: nat, count: nat, ghost parse: nat -> Outcome<Record>)
    returns (r: Outcome<seq<Record>>)
    requires ReadsRecords(b, parse)
    ensures r == ParseMany(parse, consumed, count)
  {
    var items: seq<Record>, pos: nat, left: nat := [], consumed, count;
    PrependNothing(ParseMany(parse, consumed, count));
    while left > 0
      invariant Prepend(items, ParseMany(parse, pos, left)) == ParseMany(parse, consumed, count)
    {
      ParseManyStep(parse, pos, left, items);
      var item := ReadRecordAs(b, pos, parse);
      if !item.Value? {
        return item.PropagateFailure();
      }
      items, pos, left := items + [item.value], item.next, left - 1;
    }
    assert items + [] == items;
    return Value(items, pos);
  }

  /** The loop over the records of a section. */
  method ReadRecords(b: seq<byte>, consumed: nat, count: nat) returns (r: Outcome<seq<Record>>)
    ensures r == ParseMany(RecordReader(b), consumed, count)
  {
    r := ReadRecordsAs(b, consumed, count, RecordReader(b));
  }

  /** `parse` reads questions. */
  ghost predicate ReadsQuestions(b: seq<byte>, parse: nat -> Outcome<Question>) {
    forall p: nat {:trigger ParseQuestion(b, p)} :: parse(p) == ParseQuestion(b, p)
  }

  method ReadQuestionAs(b: seq<byte>, consumed: nat, ghost parse: nat -> Outcome<Question>) returns (r: Outcome<Question>)
    requires ReadsQuestions(b, parse)
    ensures r == parse(consumed)
  {
    r := ReadQuestion(b, consumed);
  }

  method ReadQuestionsAs(b: seq<byte>, consumed: nat, count: nat, ghost parse: nat -> Outcome<Question>)
    returns (r: Outcome<seq<Question>>)
    requires ReadsQuestions(b, parse)
    ensures r == ParseMany(parse, consumed, count)
  {
    var items: seq<Question>, pos: nat, left: nat := [], consumed, count;
    PrependNothing(ParseMany(parse, consumed, count));
    while left > 0
      invariant Prepend(items, ParseMany(parse, pos, left)) == ParseMany(parse, consumed, count)
    {
      ParseManyStep(parse, pos, left, items);
      var item := ReadQuestionAs(b, pos, parse);
      if !item.Value? {
        return item.PropagateFailure();
      }
      items, pos, left := items + [item.value], item.next, left - 1;
    }
    assert items + [] == items;
    return Value(items, pos);
  }

  /** The loop over the questions. */
  method ReadQuestions(b: seq<byte>, consumed: nat, count: nat) returns (r: Outcome<seq<Question>>)
    ensures r == ParseMany(QuestionReader(b), consumed, count)
  {
    r := ReadQuestionsAs(b, consumed, count, QuestionReader(b));
  }

  /** Reading a whole datagram. */
  method ParseBytes(b: seq<byte>) returns (r: Outcome<Message>)
    ensures r == ParseMessage(b)
  {
    var header :- ParseHeader(b, 0);
    var questions :- ReadQuestions(b, header.1, header.0.questions);
    var answers :- ReadRecords(b, questions.1, header.0.answers);
    var authorities :- ReadRecords(b, answers.1, header.0.authorities);
    var additionals :- ReadRecords(b, authorities.1, header.0.additions);
    return Value(Message(header.0, questions.0, answers.0, authorities.0, additionals.0), additionals.1);
  }

  // What was read can be written.

  lemma {:induction false} ShortIsWritable(fs: seq<Field>)
    requires ShortFields(fs)
    ensures AllWritable(fs)
  {
    forall i | 0 <= i < |fs| ensures Writable(fs[i]) {
      assert ShortField(fs[i]);
      if fs[i].DomainName? {
        ReadableIsCountable(Split(fs[i].name));
      }
    }
  }

  lemma {:induction false} ShortRecordsAreWritable(rrs: seq<Record>)
    requires forall i :: 0 <= i < |rrs| ==> ShortRecord(rrs[i])
    ensures WritableRecords(rrs)
  {
    forall i | 0 <= i < |rrs| ensures WritableRecord(rrs[i]) {
      ShortIsWritable(HeadFields(rrs[i]));
      ShortIsWritable(DataFields(rrs[i].data));
    }
  }

  /** The writer does not trap on a message that was read, from any bytes. */
  lemma {:induction false} ReadIsWritable(b: seq<byte>)
    requires ParseMessage(b).Value?
    ensures WritableMessage(ParseMessage(b).value)
  {
    var m := ParseMessage(b).value;
    ParsedMessageIsShort(b);
    forall i | 0 <= i < |m.questions| ensures AllWritable(QuestionFields(m.questions[i])) {
      ShortIsWritable(QuestionFields(m.questions[i]));
    }
    ShortRecordsAreWritable(m.answers);
    ShortRecordsAreWritable(m.authorities);
    ShortRecordsAreWritable(m.additionals);
  }
}
