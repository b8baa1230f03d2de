/**
 Which messages round trip: the exact condition on their content, and limits under which the writer
 stays readable.
 */
module DnsLimits {
  import opened Bytes
  import opened DomainText
  import opened NameParser
  import opened Chunks
  import opened NameWriter
  import opened DnsMessage
  import opened DnsRoundTrip

  // ---------- the exact condition ----------

  predicate TidyData(d: RData) {
    match d
    case NS(t) => IsTidy(t)
    case CNAME(t) => IsTidy(t)
    case SOA(primary, mailbox, _, _, _, _, _) => IsTidy(primary) && IsTidy(mailbox)
    case PTR(t) => IsTidy(t)
    case MX(_, t) => IsTidy(t)
    case SRV(_, _, _, t) => IsTidy(t)
    case NAPTR(_, _, _, _, _, t) => IsTidy(t)
    case _ => true
  }

  /** No name has an empty label, and raw data has the default class, an undecoded type and a length
      that fits its field. */
  predicate FaithfulRecord(rr: Record) {
    && IsTidy(rr.name) && TidyData(rr.data)
    && PlainRaw(rr) && (rr.data.RAW? ==> rr.rclass == INTERNET)
  }

  predicate FaithfulMessage(m: Message) {
    && (forall i :: 0 <= i < |m.questions| ==> IsTidy(m.questions[i].name))
    && (forall i :: 0 <= i < |m.answers| ==> FaithfulRecord(m.answers[i]))
    && (forall i :: 0 <= i < |m.authorities| ==> FaithfulRecord(m.authorities[i]))
    && (forall i :: 0 <= i < |m.additionals| ==> FaithfulRecord(m.additionals[i]))
  }

  lemma {:induction false} NormalDataExactly(d: RData)
    ensures NormalData(d) == d <==> TidyData(d)
  {
    match d
    case NS(t) => CanonicalExactlyTidy(t);
    case CNAME(t) => CanonicalExactlyTidy(t);
    case SOA(primary, mailbox, _, _, _, _, _) =>
      CanonicalExactlyTidy(primary);
      CanonicalExactlyTidy(mailbox);
    case PTR(t) => CanonicalExactlyTidy(t);
    case MX(_, t) => CanonicalExactlyTidy(t);
    case SRV(_, _, _, t) => CanonicalExactlyTidy(t);
    case NAPTR(_, _, _, _, _, t) => CanonicalExactlyTidy(t);
    case _ =>
  }

  lemma {:induction false} NormalRecordExactly(rr: Record)
    requires PlainRaw(rr)
    ensures NormalRecord(rr) == rr <==> FaithfulRecord(rr)
  {
    CanonicalExactlyTidy(rr.name);
    NormalDataExactly(rr.data);
  }

  lemma {:induction false} NormalRecordsExactly(rrs: seq<Record>)
    requires AllPlainRaw(rrs)
    ensures MapAll(NormalRecord, rrs) == rrs <==> forall i :: 0 <= i < |rrs| ==> FaithfulRecord(rrs[i])
  {
    var normal := MapAll(NormalRecord, rrs);
    forall i | 0 <= i < |rrs| ensures normal[i] == rrs[i] <==> FaithfulRecord(rrs[i]) {
      assert PlainRaw(rrs[i]);
      NormalRecordExactly(rrs[i]);
    }
  }

  lemma {:induction false} NormalQuestionsExactly(qs: seq<Question>)
    ensures MapAll(NormalQuestion, qs) == qs <==> forall i :: 0 <= i < |qs| ==> IsTidy(qs[i].name)
  {
    var normal := MapAll(NormalQuestion, qs);
    forall i | 0 <= i < |qs| ensures normal[i] == qs[i] <==> IsTidy(qs[i].name) {
      CanonicalExactlyTidy(qs[i].name);
    }
  }

  /** The parser yields raw data only of a type it does not decode and a length that fits its field. */
  lemma {:induction false} ParsedRawIsPlain(b: seq<byte>, pos: nat, count: nat)
    requires ParseMany(RecordReader(b), pos, count).Value?
    ensures AllPlainRaw(ParseMany(RecordReader(b), pos, count).value)
  {
    forall p: nat | RecordReader(b)(p).Value? ensures PlainRaw(RecordReader(b)(p).value) {
      assert RecordReader(b)(p) == ParseRecord(b, p);
    }
    ManyParsed(RecordReader(b), PlainRaw, pos, count);
  }

  /** With plain raw records, coming back unchanged is having nothing to tidy. */
  lemma {:induction false} PlainMessageExactly(m: Message)
    requires CountsMatch(m) && EncodeMessage(m).ok && PlainRawMessage(m)
    ensures ParseMessage(Serialize(m)) == Value(NormalMessage(m), |Serialize(m)|)
    ensures NormalMessage(m) == m <==> FaithfulMessage(m)
  {
    MessageRoundTrips(m);
    NormalQuestionsExactly(m.questions);
    NormalRecordsExactly(m.answers);
    NormalRecordsExactly(m.authorities);
    NormalRecordsExactly(m.additionals);
  }

  /** Every message the parser yields has plain raw records. */
  lemma {:induction false} ParsedMessageIsPlain(b: seq<byte>)
    requires ParseMessage(b).Value?
    ensures PlainRawMessage(ParseMessage(b).value)
  {
    var m := ParseMessage(b).value;
    var p1 := ParseHeader(b, 0).next;
    var p2 := ParseMany(QuestionReader(b), p1, m.header.questions).next;
    var p3 := ParseMany(RecordReader(b), p2, m.header.answers).next;
    var p4 := ParseMany(RecordReader(b), p3, m.header.authorities).next;
    ParsedRawIsPlain(b, p2, m.header.answers);
    ParsedRawIsPlain(b, p3, m.header.authorities);
    ParsedRawIsPlain(b, p4, m.header.additions);
  }

  /** When every step of the writer is readable, coming back unchanged is being faithful. */
  lemma {:induction false} ReadableRoundTripsExactly(m: Message)
    requires CountsMatch(m) && EncodeMessage(m).ok
    ensures ParseMessage(Serialize(m)) == Value(m, |Serialize(m)|) <==> FaithfulMessage(m)
  {
    if ParseMessage(Serialize(m)) == Value(m, |Serialize(m)|) {
      ParsedMessageIsPlain(Serialize(m));
      PlainMessageExactly(m);
    } else if FaithfulMessage(m) {
      FaithfulIsPlain(m);
      PlainMessageExactly(m);
    }
  }

  lemma {:induction false} FaithfulIsPlain(m: Message)
    requires FaithfulMessage(m)
    ensures PlainRawMessage(m)
  {
    assert forall rr :: FaithfulRecord(rr) ==> PlainRaw(rr);
  }

  // ---------- labels and strings that one octet can count ----------

  /** Labels and counted strings within what one octet can tell apart from a pointer or count. */
  predicate ShortField(f: Field) {
    match f
    case Counted(t) => |t| <= 255
    case DomainName(t) => Readable(Split(t))
    case _ => true
  }

  predicate ShortFields(fs: seq<Field>) {
    forall i :: 0 <= i < |fs| ==> ShortField(fs[i])
  }

  predicate ShortRecord(rr: Record) {
    ShortFields(HeadFields(rr)) && ShortFields(DataFields(rr.data))
  }

  predicate ShortMessage(m: Message) {
    && (forall i :: 0 <= i < |m.questions| ==> ShortFields(QuestionFields(m.questions[i])))
    && (forall i :: 0 <= i < |m.answers| ==> ShortRecord(m.answers[i]))
    && (forall i :: 0 <= i < |m.authorities| ==> ShortRecord(m.authorities[i]))
    && (forall i :: 0 <= i < |m.additionals| ==> ShortRecord(m.additionals[i]))
  }

  lemma {:induction false} ParsedQuestionIsShort(b: seq<byte>, pos: nat)
    requires ParseQuestion(b, pos).Value?
    ensures ShortFields(QuestionFields(ParseQuestion(b, pos).value))
  {
    ParsedNameIsReadable(b, pos);
  }

  /** Names and counted strings in the data of a record. */
  predicate ShortData(d: RData) {
    match d
    case NS(t) => Readable(Split(t))
    case CNAME(t) => Readable(Split(t))
    case SOA(primary, mailbox, _, _, _, _, _) => Readable(Split(primary)) && Readable(Split(mailbox))
    case PTR(t) => Readable(Split(t))
    case MX(_, t) => Readable(Split(t))
    case TXT(t) => |t| <= 255
    case SRV(_, _, _, t) => Readable(Split(t))
    case NAPTR(_, _, flags, services, regexp, t) => |flags| <= 255 && |services| <= 255 && |regexp| <= 255 && Readable(Split(t))
    case _ => true
  }

  lemma {:induction false} ShortDataFields(d: RData)
    ensures ShortFields(DataFields(d)) <==> ShortData(d)
  {
    var fs := DataFields(d);
    match d
    case SOA(primary, mailbox, _, _, _, _, _) =>
      assert fs[0] == DomainName(primary) && fs[1] == DomainName(mailbox);
    case MX(_, t) => assert fs[1] == DomainName(t);
    case SRV(_, _, _, t) => assert fs[3] == DomainName(t);
    case NAPTR(_, _, flags, services, regexp, t) =>
      assert fs[2] == Counted(flags) && fs[3] == Counted(services) && fs[4] == Counted(regexp) && fs[5] == DomainName(t);
    case A(a) => assert fs == [Octets(a)];
    case AAAA(a) => assert fs == [Octets(a)];
    case RAW(_, a) => assert fs == [Octets(a)];
    case TXT(t) => assert fs[0] == Counted(t);
    case NS(t) => assert fs[0] == DomainName(t);
    case CNAME(t) => assert fs[0] == DomainName(t);
    case PTR(t) => assert fs[0] == DomainName(t);
  }

  lemma {:induction false} ParsedSOAIsShort(b: seq<byte>, pos: nat)
    requires ParseSOA(b, pos).Value?
    ensures ShortData(ParseSOA(b, pos).value)
  {
    ParsedNameIsReadable(b, pos);
    ParsedNameIsReadable(b, ParseName(b, pos).next);
  }

  lemma {:induction false} ParsedNAPTRIsShort(b: seq<byte>, pos: nat)
    requires ParseNAPTR(b, pos).Value?
    ensures ShortData(ParseNAPTR(b, pos).value)
  {
    var flags := ParseCounted(b, pos + 4);
    var services := ParseCounted(b, flags.next);
    var regexp := ParseCounted(b, services.next);
    ParsedNameIsReadable(b, regexp.next);
  }

  lemma {:induction false} ParsedDataIsShort(b: seq<byte>, pos: nat, code: u16, length: u16)
    requires ParseData(b, pos, code, length).Value?
    ensures ShortData(ParseData(b, pos, code, length).value)
  {
    if code == 2 || code == 5 || code == 12 {
      ParsedNameIsReadable(b, pos);
    } else if code == 6 {
      ParsedSOAIsShort(b, pos);
    } else if code == 15 {
      ParsedNameIsReadable(b, pos + 2);
    } else if code == 33 {
      ParsedNameIsReadable(b, pos + 6);
    } else if code == 35 {
      ParsedNAPTRIsShort(b, pos);
    }
  }

  lemma {:induction false} ShortRecordByParts(rr: Record)
    requires Readable(Split(rr.name)) && ShortData(rr.data)
    ensures ShortRecord(rr)
  {
    ShortDataFields(rr.data);
  }

  lemma {:induction false} ParsedRecordIsShort(b: seq<byte>, pos: nat)
    requires ParseRecord(b, pos).Value?
    ensures ShortRecord(ParseRecord(b, pos).value)
  {
    var rr := ParseRecord(b, pos).value;
    var p := ParseName(b, pos).next;
    ParsedNameIsReadable(b, pos);
    ParsedDataIsShort(b, p + 10, Word(b[p], b[p + 1]), Word(b[p + 8], b[p + 9]));
    ShortRecordByParts(rr);
  }

  // ---------- limits that keep the writer readable ----------

  predicate Below(dict: Dictionary, limit: nat) {
    forall k :: k in dict ==> dict[k] < limit
  }

  /** Writing an item records offsets only below its end. */
  ghost predicate ItemStaysLow<T>(encode: (nat, Dictionary, T) -> Chunk, offset: nat, dict: Dictionary, x: T) {
    Below(dict, offset) ==> Below(encode(offset, dict, x).dict, offset + |encode(offset, dict, x).bytes|)
  }

  lemma {:induction false} NameStaysLow(offset: nat, dict: Dictionary, name: Name)
    requires Readable(name)
    ensures ItemStaysLow(EncodeName, offset, dict, name)
    decreases name
  {
    if Below(dict, offset) && name.Part? && Join(name) !in dict {
      NameStaysLow(offset + 1 + |name.text|, dict[Join(name) := offset], name.rest);
    }
  }

  lemma {:induction false} ManyStayLow<T>(
    encode: (nat, Dictionary, T) -> Chunk, offset: nat, dict: Dictionary, items: seq<T>)
    requires forall o: nat, d: Dictionary, i :: 0 <= i < |items| ==> ItemStaysLow(encode, o, d, items[i])
    requires Below(dict, offset)
    ensures var c := EncodeMany(encode, offset, dict, items); Below(c.dict, offset + |c.bytes|)
    decreases |items|
  {
    if items != [] {
      var c := encode(offset, dict, items[0]);
      assert ItemStaysLow(encode, offset, dict, items[0]);
      forall o: nat, d: Dictionary, i | 0 <= i < |items[1..]| ensures ItemStaysLow(encode, o, d, items[1..][i]) {
        assert items[1..][i] == items[i + 1];
      }
      ManyStayLow(encode, offset + |c.bytes|, c.dict, items[1..]);
    }
  }

  lemma {:induction false} FieldsStayLow(offset: nat, dict: Dictionary, fs: seq<Field>)
    requires ShortFields(fs) && Below(dict, offset)
    ensures var c := EncodeFields(offset, dict, fs); Below(c.dict, offset + |c.bytes|)
  {
    forall o: nat, d: Dictionary, i | 0 <= i < |fs| ensures ItemStaysLow(EncodeField, o, d, fs[i]) {
      assert ShortField(fs[i]);
      if fs[i].DomainName? {
        NameStaysLow(o, d, Split(fs[i].name));
      }
    }
    ManyStayLow(EncodeField, offset, dict, fs);
  }

  lemma {:induction false} RecordStaysLow(offset: nat, dict: Dictionary, rr: Record)
    requires ShortRecord(rr)
    ensures ItemStaysLow(EncodeRecord, offset, dict, rr)
  {
    if Below(dict, offset) {
      var head := EncodeHead(offset, dict, rr);
      var mid := offset + |head.bytes|;
      FieldsStayLow(offset, dict, HeadFields(rr));
      assert Below(head.dict, mid + 2);
      FieldsStayLow(mid + 2, head.dict, DataFields(rr.data));
    }
  }

  lemma {:induction false} RecordsStayLow(c: Chunk, rrs: seq<Record>)
    requires Below(c.dict, |c.bytes|) && forall i :: 0 <= i < |rrs| ==> ShortRecord(rrs[i])
    ensures var d := Then(c, EncodeMany(EncodeRecord, |c.bytes|, c.dict, rrs)); Below(d.dict, |d.bytes|)
  {
    forall o: nat, e: Dictionary, i | 0 <= i < |rrs| ensures ItemStaysLow(EncodeRecord, o, e, rrs[i]) {
      RecordStaysLow(o, e, rrs[i]);
    }
    ManyStayLow(EncodeRecord, |c.bytes|, c.dict, rrs);
  }

  lemma {:induction false} QuestionsStayLow(c: Chunk, qs: seq<Question>)
    requires Below(c.dict, |c.bytes|) && forall i :: 0 <= i < |qs| ==> ShortFields(QuestionFields(qs[i]))
    ensures var d := Then(c, EncodeMany(EncodeQuestion, |c.bytes|, c.dict, qs)); Below(d.dict, |d.bytes|)
  {
    forall o: nat, e: Dictionary, i | 0 <= i < |qs| ensures ItemStaysLow(EncodeQuestion, o, e, qs[i]) {
      if Below(e, o) {
        FieldsStayLow(o, e, QuestionFields(qs[i]));
      }
    }
    ManyStayLow(EncodeQuestion, |c.bytes|, c.dict, qs);
  }

  lemma {:induction false} AnswersStayLow(m: Message)
    requires ShortMessage(m)
    ensures Below(UpToAnswers(m).dict, |UpToAnswers(m).bytes|)
  {
    FieldsStayLow(0, map[], HeaderFields(m.header));
    QuestionsStayLow(UpToHeader(m), m.questions);
    RecordsStayLow(UpToQuestions(m), m.answers);
  }

  /** In a message with short labels and strings every suffix is written inside the message. */
  lemma {:induction false} MessageStaysLow(m: Message)
    requires ShortMessage(m)
    ensures Below(EncodeMessage(m).dict, |Serialize(m)|)
  {
    AnswersStayLow(m);
    RecordsStayLow(UpToAnswers(m), m.authorities);
    RecordsStayLow(UpToAuthorities(m), m.additionals);
  }

  // ---------- exactly which messages come back unchanged ----------

  lemma {:induction false} ParsedRecordsAreShort(b: seq<byte>, pos: nat, count: nat)
    requires ParseMany(RecordReader(b), pos, count).Value?
    ensures var rrs := ParseMany(RecordReader(b), pos, count).value; forall i :: 0 <= i < |rrs| ==> ShortRecord(rrs[i])
  {
    forall p: nat | RecordReader(b)(p).Value? ensures ShortRecord(RecordReader(b)(p).value) {
      ParsedRecordIsShort(b, p);
    }
    ManyParsed(RecordReader(b), ShortRecord, pos, count);
  }

  predicate ShortQuestion(q: Question) {
    ShortFields(QuestionFields(q))
  }

  lemma {:induction false} ParsedQuestionsAreShort(b: seq<byte>, pos: nat, count: nat)
    requires ParseMany(QuestionReader(b), pos, count).Value?
    ensures var qs := ParseMany(QuestionReader(b), pos, count).value; forall i :: 0 <= i < |qs| ==> ShortQuestion(qs[i])
  {
    forall p: nat | QuestionReader(b)(p).Value? ensures ShortQuestion(QuestionReader(b)(p).value) {
      ParsedQuestionIsShort(b, p);
    }
    ManyParsed(QuestionReader(b), ShortQuestion, pos, count);
  }

  /** No message that was read, from any bytes, has a label of 192 bytes or more or a counted string of
      more than 255. */
  lemma {:induction false} ParsedMessageIsShort(b: seq<byte>)
    requires ParseMessage(b).Value?
    ensures ShortMessage(ParseMessage(b).value)
  {
    var m := ParseMessage(b).value;
    var p1 := ParseHeader(b, 0).next;
    var p2 := ParseMany(QuestionReader(b), p1, m.header.questions).next;
    var p3 := ParseMany(RecordReader(b), p2, m.header.answers).next;
    var p4 := ParseMany(RecordReader(b), p3, m.header.authorities).next;
    ParsedQuestionsAreShort(b, p1, m.header.questions);
    ParsedRecordsAreShort(b, p2, m.header.answers);
    ParsedRecordsAreShort(b, p3, m.header.authorities);
    ParsedRecordsAreShort(b, p4, m.header.additions);
    assert forall i :: 0 <= i < |m.questions| ==> ShortQuestion(m.questions[i]);
  }

  /** One dictionary has all entries of another. */
  predicate Includes(more: Dictionary, dict: Dictionary) {
    forall k :: k in dict ==> k in more && more[k] == dict[k]
  }

  lemma {:induction false} NameReaches(offset: nat, dict: Dictionary, name: Name)
    requires Readable(name)
    ensures var c := EncodeName(offset, dict, name); Includes(c.dict, dict) && (Below(c.dict, POINTER_RANGE) ==> c.ok)
    decreases name
  {
    if name.Part? && Join(name) !in dict {
      NameReaches(offset + 1 + |name.text|, dict[Join(name) := offset], name.rest);
    }
  }

  /** Writing an item only adds to the dictionary, and is readable if the dictionary is within reach. */
  ghost predicate ItemReaches<T>(encode: (nat, Dictionary, T) -> Chunk, offset: nat, dict: Dictionary, x: T) {
    var c := encode(offset, dict, x);
    Includes(c.dict, dict) && (Below(c.dict, POINTER_RANGE) ==> c.ok)
  }

  lemma {:induction false} ManyReach<T>(
    encode: (nat, Dictionary, T) -> Chunk, offset: nat, dict: Dictionary, items: seq<T>)
    requires forall o: nat, d: Dictionary, i :: 0 <= i < |items| ==> ItemReaches(encode, o, d, items[i])
    ensures var c := EncodeMany(encode, offset, dict, items); Includes(c.dict, dict) && (Below(c.dict, POINTER_RANGE) ==> c.ok)
    decreases |items|
  {
    if items != [] {
      var c := encode(offset, dict, items[0]);
      assert ItemReaches(encode, offset, dict, items[0]);
      forall o: nat, d: Dictionary, i | 0 <= i < |items[1..]| ensures ItemReaches(encode, o, d, items[1..][i]) {
        assert items[1..][i] == items[i + 1];
      }
      ManyReach(encode, offset + |c.bytes|, c.dict, items[1..]);
    }
  }

  lemma {:induction false} FieldsReach(offset: nat, dict: Dictionary, fs: seq<Field>)
    requires ShortFields(fs)
    ensures var c := EncodeFields(offset, dict, fs); Includes(c.dict, dict) && (Below(c.dict, POINTER_RANGE) ==> c.ok)
  {
    forall o: nat, d: Dictionary, i | 0 <= i < |fs| ensures ItemReaches(EncodeField, o, d, fs[i]) {
      assert ShortField(fs[i]);
      if fs[i].DomainName? {
        NameReaches(o, d, Split(fs[i].name));
      }
    }
    ManyReach(EncodeField, offset, dict, fs);
  }

  lemma {:induction false} RecordReaches(offset: nat, dict: Dictionary, rr: Record)
    requires ShortRecord(rr)
    ensures ItemReaches(EncodeRecord, offset, dict, rr)
  {
    var head := EncodeHead(offset, dict, rr);
    FieldsReach(offset, dict, HeadFields(rr));
    FieldsReach(offset + |head.bytes| + 2, head.dict, DataFields(rr.data));
  }

  /** A chunk that is readable if its dictionary is within reach. */
  predicate ReadsIfNear(c: Chunk) {
    Below(c.dict, POINTER_RANGE) ==> c.ok
  }

  lemma {:induction false} RecordsReach(c: Chunk, rrs: seq<Record>)
    requires ReadsIfNear(c) && forall i :: 0 <= i < |rrs| ==> ShortRecord(rrs[i])
    ensures ReadsIfNear(Then(c, EncodeMany(EncodeRecord, |c.bytes|, c.dict, rrs)))
  {
    forall o: nat, d: Dictionary, i | 0 <= i < |rrs| ensures ItemReaches(EncodeRecord, o, d, rrs[i]) {
      RecordReaches(o, d, rrs[i]);
    }
    ManyReach(EncodeRecord, |c.bytes|, c.dict, rrs);
  }

  lemma {:induction false} QuestionsReach(c: Chunk, qs: seq<Question>)
    requires ReadsIfNear(c) && forall i :: 0 <= i < |qs| ==> ShortQuestion(qs[i])
    ensures ReadsIfNear(Then(c, EncodeMany(EncodeQuestion, |c.bytes|, c.dict, qs)))
  {
    forall o: nat, d: Dictionary, i | 0 <= i < |qs| ensures ItemReaches(EncodeQuestion, o, d, qs[i]) {
      assert ShortQuestion(qs[i]);
      FieldsReach(o, d, QuestionFields(qs[i]));
    }
    ManyReach(EncodeQuestion, |c.bytes|, c.dict, qs);
  }

  /** Every suffix of a name is first written below offset 0x4000. */
  predicate WithinReach(m: Message) {
    Below(EncodeMessage(m).dict, POINTER_RANGE)
  }

  lemma {:induction false} AnswersReach(m: Message)
    requires ShortMessage(m)
    ensures ReadsIfNear(UpToAnswers(m))
  {
    FieldsReach(0, map[], HeaderFields(m.header));
    QuestionsReach(UpToHeader(m), m.questions);
    RecordsReach(UpToQuestions(m), m.answers);
  }

  lemma {:induction false} NearMessageIsReadable(m: Message)
    requires ShortMessage(m) && WithinReach(m)
    ensures EncodeMessage(m).ok
  {
    AnswersReach(m);
    RecordsReach(UpToAnswers(m), m.authorities);
    RecordsReach(UpToAuthorities(m), m.additionals);
  }

  /** A message, of any size, with its names within the reach of pointers comes back unchanged exactly
      when it is faithful, each label is shorter than 192 bytes and each counted string at most 255 bytes long. */
  lemma {:induction false} RoundTripsExactly(m: Message)
    requires CountsMatch(m) && WithinReach(m)
    ensures ParseMessage(Serialize(m)) == Value(m, |Serialize(m)|) <==> FaithfulMessage(m) && ShortMessage(m)
  {
    if ParseMessage(Serialize(m)) == Value(m, |Serialize(m)|) {
      ParsedMessageIsShort(Serialize(m));
    }
    if ShortMessage(m) {
      NearMessageIsReadable(m);
      ReadableRoundTripsExactly(m);
    }
  }

  /** So does every message of at most 16 KiB, whatever its labels. */
  lemma {:induction false} SmallMessageRoundTripsExactly(m: Message)
    requires CountsMatch(m) && |Serialize(m)| <= POINTER_RANGE
    ensures ParseMessage(Serialize(m)) == Value(m, |Serialize(m)|) <==> FaithfulMessage(m) && ShortMessage(m)
  {
    if ParseMessage(Serialize(m)) == Value(m, |Serialize(m)|) {
      ParsedMessageIsShort(Serialize(m));
    }
    if ShortMessage(m) {
      MessageStaysLow(m);
      RoundTripsExactly(m);
    }
  }
}
