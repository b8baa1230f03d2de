/**
 DNS messages and their wire form: header, questions and resource records
 (sections 4.1.1 to 4.1.3 of RFC 1035).
 */
module DnsMessage {
  import opened Bytes
  import opened DomainText
  import opened NameParser
  import opened Chunks
  import opened NameWriter

  type IPv4 = a: seq<byte> | |a| == 4 witness [0, 0, 0, 0]
  type IPv6 = a: seq<byte> | |a| == 16 witness [0, 0, 0, 0, 0, 0, 0, 0, 0, 0, 0, 0, 0, 0, 0, 0]

  const INTERNET: u16 := 1

  datatype Header = Header(
    id: u16, flags: u16, questions: u16, answers: u16, authorities: u16, additions: u16)

  datatype Question = Question(name: Text, qtype: u16, qclass: u16)

  datatype RData =
    | A(address: IPv4)
    | NS(server: Text)
    | CNAME(alias: Text)
    | SOA(primary: Text, mailbox: Text, serial: u32, refresh: u32, retry: u32, expire: u32, minimum: u32)
    | PTR(pointer: Text)
    | MX(preference: u16, exchange: Text)
    | TXT(text: Text)
    | AAAA(address6: IPv6)
    | SRV(priority: u16, weight: u16, port: u16, target: Text)
    | NAPTR(order: u16, rank: u16, flags: Text, services: Text, regexp: Text, replacement: Text)
    | RAW(rtype: u16, payload: seq<byte>)

  datatype Record = Record(name: Text, ttl: i32, rclass: u16, data: RData)

  datatype Message = Message(
    header: Header, questions: seq<Question>, answers: seq<Record>, authorities: seq<Record>, additionals: seq<Record>)

  function TypeCode(d: RData): (r: u16) {
    match d
    case A(_) => 1
    case NS(_) => 2
    case CNAME(_) => 5
    case SOA(_, _, _, _, _, _, _) => 6
    case PTR(_) => 12
    case MX(_, _) => 15
    case TXT(_) => 16
    case AAAA(_) => 28
    case SRV(_, _, _, _) => 33
    case NAPTR(_, _, _, _, _, _) => 35
    case RAW(rtype, _) => rtype
  }

  /** Type codes that the parser decodes into a record form of their own. */
  predicate IsTyped(code: u16) {
    || code == 1 || code == 2 || code == 5 || code == 6 || code == 12
    || code == 15 || code == 16 || code == 28 || code == 33 || code == 35
  }

  // ---------- writing ----------

  /** The pieces a message is written from. */
  datatype Field =
    | Num16(v16: u16)
    | Num32(v32: u32)
    | Signed(vi32: i32)
    | Octets(octets: seq<byte>)
    | Counted(text: Text)
    | DomainName(name: Text)

  function EncodeField(offset: nat, dict: Dictionary, f: Field): (r: Chunk) {
    match f
    case Num16(v) => Chunk(U16(v), dict, true)
    case Num32(v) => Chunk(U32(v), dict, true)
    case Signed(v) => Chunk(I32(v), dict, true)
    case Octets(s) => Chunk(s, dict, true)
    case Counted(t) => Chunk(LabelBytes(t), dict, |t| <= 255)
    case DomainName(name) => EncodeName(offset, dict, Split(name))
  }

  function EncodeFields(offset: nat, dict: Dictionary, fs: seq<Field>): (r: Chunk) {
    EncodeMany(EncodeField, offset, dict, fs)
  }

  function DataFields(d: RData): (r: seq<Field>) {
    match d
    case A(address) => [Octets(address)]
    case NS(server) => [DomainName(server)]
    case CNAME(alias) => [DomainName(alias)]
    case SOA(primary, mailbox, serial, refresh, retry, expire, minimum) =>
      [DomainName(primary), DomainName(mailbox),
       Num32(serial), Num32(refresh), Num32(retry), Num32(expire), Num32(minimum)]
    case PTR(pointer) => [DomainName(pointer)]
    case MX(preference, exchange) => [Num16(preference), DomainName(exchange)]
    case TXT(text) => [Counted(text)]
    case AAAA(address) => [Octets(address)]
    case SRV(priority, weight, port, target) => [Num16(priority), Num16(weight), Num16(port), DomainName(target)]
    case NAPTR(order, rank, flags, services, regexp, replacement) =>
      [Num16(order), Num16(rank), Counted(flags), Counted(services), Counted(regexp), DomainName(replacement)]
    case RAW(_, payload) => [Octets(payload)]
  }

  /** Everything of a record up to the RDLENGTH field. */
  function HeadFields(rr: Record): (r: seq<Field>) {
    [DomainName(rr.name), Num16(TypeCode(rr.data)), Num16(rr.rclass), Signed(rr.ttl)]
  }

  /** What RDLENGTH says of data of this many bytes. */
  function DataLength(size: nat): (r: u16) {
    Min(size, 0xFFFF)
  }

  function EncodeHead(offset: nat, dict: Dictionary, rr: Record): (r: Chunk) {
    EncodeFields(offset, dict, HeadFields(rr))
  }

  /** The data of a record whose head ends at `offset`, after the length field. */
  function EncodeData(offset: nat, dict: Dictionary, d: RData): (r: Chunk) {
    EncodeFields(offset + 2, dict, DataFields(d))
  }

  /** A record, with the length field that the writer patches in afterwards. */
  function EncodeRecord(offset: nat, dict: Dictionary, rr: Record): (r: Chunk) {
    var head := EncodeHead(offset, dict, rr);
    var data := EncodeData(offset + |head.bytes|, head.dict, rr.data);
    Chunk(head.bytes + U16(DataLength(|data.bytes|)) + data.bytes, data.dict, head.ok && data.ok)
  }

  function QuestionFields(q: Question): (r: seq<Field>) {
    [DomainName(q.name), Num16(q.qtype), Num16(q.qclass)]
  }

  function EncodeQuestion(offset: nat, dict: Dictionary, q: Question): (r: Chunk) {
    EncodeFields(offset, dict, QuestionFields(q))
  }

  function HeaderFields(h: Header): (r: seq<Field>) {
    [Num16(h.id), Num16(h.flags), Num16(h.questions), Num16(h.answers), Num16(h.authorities), Num16(h.additions)]
  }

  function UpToHeader(m: Message): (r: Chunk) {
    EncodeFields(0, map[], HeaderFields(m.header))
  }

  function UpToQuestions(m: Message): (r: Chunk) {
    var c := UpToHeader(m);
    Then(c, EncodeMany(EncodeQuestion, |c.bytes|, c.dict, m.questions))
  }

  function UpToAnswers(m: Message): (r: Chunk) {
    var c := UpToQuestions(m);
    Then(c, EncodeMany(EncodeRecord, |c.bytes|, c.dict, m.answers))
  }

  function UpToAuthorities(m: Message): (r: Chunk) {
    var c := UpToAnswers(m);
    Then(c, EncodeMany(EncodeRecord, |c.bytes|, c.dict, m.authorities))
  }

  function EncodeMessage(m: Message): (r: Chunk) {
    var c := UpToAuthorities(m);
    Then(c, EncodeMany(EncodeRecord, |c.bytes|, c.dict, m.additionals))
  }

  /** The bytes of the message. */
  function Serialize(m: Message): (r: seq<byte>) {
    EncodeMessage(m).bytes
  }

  // ---------- reading ----------

  function ParseCounted(b: seq<byte>, pos: nat): (r: Outcome<Text>) {
    var (length, next) :- Get8(b, pos);
    GetBytes(b, next, length)
  }

  function ParseHeader(b: seq<byte>, pos: nat): (r: Outcome<Header>) {
    var (id, p1) :- Get16(b, pos);
    var (flags, p2) :- Get16(b, p1);
    var (questions, p3) :- Get16(b, p2);
    var (answers, p4) :- Get16(b, p3);
    var (authorities, p5) :- Get16(b, p4);
    var (additions, p6) :- Get16(b, p5);
    Value(Header(id, flags, questions, answers, authorities, additions), p6)
  }

  function ParseQuestion(b: seq<byte>, pos: nat): (r: Outcome<Question>) {
    var (name, p1) :- ParseName(b, pos);
    var (qtype, p2) :- Get16(b, p1);
    var (qclass, p3) :- Get16(b, p2);
    Value(Question(name, qtype, qclass), p3)
  }

  function ParseSOA(b: seq<byte>, pos: nat): (r: Outcome<RData>) {
    var (primary, p1) :- ParseName(b, pos);
    var (mailbox, p2) :- ParseName(b, p1);
    var (serial, p3) :- Get32(b, p2);
    var (refresh, p4) :- Get32(b, p3);
    var (retry, p5) :- Get32(b, p4);
    var (expire, p6) :- Get32(b, p5);
    var (minimum, p7) :- Get32(b, p6);
    Value(SOA(primary, mailbox, serial, refresh, retry, expire, minimum), p7)
  }

  function ParseMX(b: seq<byte>, pos: nat): (r: Outcome<RData>) {
    var (preference, p1) :- Get16(b, pos);
    var (exchange, p2) :- ParseName(b, p1);
    Value(MX(preference, exchange), p2)
  }

  function ParseSRV(b: seq<byte>, pos: nat): (r: Outcome<RData>) {
    var (priority, p1) :- Get16(b, pos);
    var (weight, p2) :- Get16(b, p1);
    var (port, p3) :- Get16(b, p2);
    var (target, p4) :- ParseName(b, p3);
    Value(SRV(priority, weight, port, target), p4)
  }

  function ParseNAPTR(b: seq<byte>, pos: nat): (r: Outcome<RData>) {
    var (order, p1) :- Get16(b, pos);
    var (rank, p2) :- Get16(b, p1);
    var (flags, p3) :- ParseCounted(b, p2);
    var (services, p4) :- ParseCounted(b, p3);
    var (regexp, p5) :- ParseCounted(b, p4);
    var (replacement, p6) :- ParseName(b, p5);
    Value(NAPTR(order, rank, flags, services, regexp, replacement), p6)
  }

  /** The data of a record of type `code`. Addresses and raw data use the length field; the other
      forms end where their last part ends. */
  function ParseData(b: seq<byte>, pos: nat, code: u16, length: u16): (r: Outcome<RData>)
    ensures r.Value? ==> TypeCode(r.value) == code && (r.value.RAW? <==> !IsTyped(code))
    ensures r.Value? && r.value.RAW? ==> |r.value.payload| == length
  {
    if code == 1 then
      if length != 4 then Refused else var (s, p) :- GetBytes(b, pos, 4); Value(A(s), p)
    else if code == 2 then var (t, p) :- ParseName(b, pos); Value(NS(t), p)
    else if code == 5 then var (t, p) :- ParseName(b, pos); Value(CNAME(t), p)
    else if code == 6 then ParseSOA(b, pos)
    else if code == 12 then var (t, p) :- ParseName(b, pos); Value(PTR(t), p)
    else if code == 15 then ParseMX(b, pos)
    else if code == 16 then var (t, p) :- ParseCounted(b, pos); Value(TXT(t), p)
    else if code == 28 then
      if length != 16 then Refused else var (s, p) :- GetBytes(b, pos, 16); Value(AAAA(s), p)
    else if code == 33 then ParseSRV(b, pos)
    else if code == 35 then ParseNAPTR(b, pos)
    else var (s, p) :- GetBytes(b, pos, length); Value(RAW(code, s), p)
  }

  /** Raw records lose their class: the parser leaves it at the default. */
  function ParseRecord(b: seq<byte>, pos: nat): (r: Outcome<Record>)
    ensures r.Value? && r.value.data.RAW? ==> !IsTyped(r.value.data.rtype) && r.value.rclass == 1
    ensures r.Value? && r.value.data.RAW? ==> |r.value.data.payload| <= 0xFFFF
  {
    var (name, p1) :- ParseName(b, pos);
    var (code, p2) :- Get16(b, p1);
    var (rclass, p3) :- Get16(b, p2);
    var (ttl, p4) :- GetI32(b, p3);
    var (length, p5) :- Get16(b, p4);
    if p5 + length > |b| then Refused
    else
      var (data, p6) :- ParseData(b, p5, code, length);
      Value(Record(name, ttl, if data.RAW? then INTERNET else rclass, data), p6)
  }

  function QuestionReader(b: seq<byte>): (r: nat -> Outcome<Question>) {
    (pos: nat) => ParseQuestion(b, pos)
  }

  function RecordReader(b: seq<byte>): (r: nat -> Outcome<Record>) {
    (pos: nat) => ParseRecord(b, pos)
  }

  function ParseMessage(b: seq<byte>): (r: Outcome<Message>) {
    var (header, p1) :- ParseHeader(b, 0);
    var (questions, p2) :- ParseMany(QuestionReader(b), p1, header.questions);
    var (answers, p3) :- ParseMany(RecordReader(b), p2, header.answers);
    var (authorities, p4) :- ParseMany(RecordReader(b), p3, header.authorities);
    var (additionals, p5) :- ParseMany(RecordReader(b), p4, header.additions);
    Value(Message(header, questions, answers, authorities, additionals), p5)
  }
}
