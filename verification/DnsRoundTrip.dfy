/**
 Parsing undoes serializing, for whole messages.
 */
module DnsRoundTrip {
  import opened Bytes
  import opened DomainText
  import opened NameParser
  import opened Chunks
  import opened NameWriter
  import opened DnsMessage

  // ---------- fields ----------

  /** Reading a field of this kind at `pos` yields its value and the cursor `next`; a domain name
      is read without its empty labels. */
  predicate ReadsAs(b: seq<byte>, pos: nat, f: Field, next: nat) {
    match f
    case Num16(v) => Get16(b, pos) == Value(v, next)
    case Num32(v) => Get32(b, pos) == Value(v, next)
    case Signed(v) => GetI32(b, pos) == Value(v, next)
    case Octets(s) => GetBytes(b, pos, |s|) == Value(s, next)
    case Counted(t) => ParseCounted(b, pos) == Value(t, next)
    case DomainName(t) => ParseName(b, pos) == Value(Canonical(t), next)
  }

  /** The fields stand one after the other, with the cursors between them in `at`. */
  predicate ReadsAt(b: seq<byte>, fs: seq<Field>, at: seq<nat>) {
    |at| == |fs| + 1 && forall i :: 0 <= i < |fs| ==> ReadsAs(b, at[i], fs[i], at[i + 1])
  }

  lemma {:induction false} FieldWritten(b: seq<byte>, pos: nat, dict: Dictionary, f: Field)
    requires DictionaryHolds(b, dict, pos)
    requires EncodeField(pos, dict, f).ok && Has(b, pos, EncodeField(pos, dict, f).bytes)
    ensures var c := EncodeField(pos, dict, f);
            ReadsAs(b, pos, f, pos + |c.bytes|) && DictionaryHolds(b, c.dict, pos + |c.bytes|)
  {
    match f
    case Num16(v) => ReadsBack16(b, pos, v);
    case Num32(v) => ReadsBack32(b, pos, v);
    case Signed(v) => ReadsBackI32(b, pos, v);
    case Octets(s) => HasIsSlice(b, pos, s);
    case Counted(t) =>
      HasSplits(b, pos, [|t|], t);
      assert b[pos + 0] == [|t|][0];
      HasIsSlice(b, pos + 1, t);
    case DomainName(t) =>
      SplitGivesLabels(t);
      NameWritten(b, pos, dict, Split(t));
  }

  lemma {:induction false} FieldsWritten(b: seq<byte>, pos: nat, dict: Dictionary, fs: seq<Field>) returns (at: seq<nat>)
    requires DictionaryHolds(b, dict, pos)
    requires EncodeFields(pos, dict, fs).ok && Has(b, pos, EncodeFields(pos, dict, fs).bytes)
    ensures var c := EncodeFields(pos, dict, fs);
            && ReadsAt(b, fs, at) && at[0] == pos && at[|fs|] == pos + |c.bytes|
            && DictionaryHolds(b, c.dict, pos + |c.bytes|)
    decreases |fs|
  {
    if fs == [] {
      at := [pos];
    } else {
      var c := EncodeField(pos, dict, fs[0]);
      var rest := EncodeFields(pos + |c.bytes|, c.dict, fs[1..]);
      HasSplits(b, pos, c.bytes, rest.bytes);
      FieldWritten(b, pos, dict, fs[0]);
      var tail := FieldsWritten(b, pos + |c.bytes|, c.dict, fs[1..]);
      at := [pos] + tail;
      ReadsAtCons(b, pos, fs, tail);
    }
  }

  lemma {:induction false} ReadsAtCons(b: seq<byte>, pos: nat, fs: seq<Field>, tail: seq<nat>)
    requires fs != [] && ReadsAt(b, fs[1..], tail) && ReadsAs(b, pos, fs[0], tail[0])
    ensures ReadsAt(b, fs, [pos] + tail)
  {
    var at := [pos] + tail;
    forall i | 0 <= i < |fs| ensures ReadsAs(b, at[i], fs[i], at[i + 1]) {
      if i > 0 {
        assert fs[1..][i - 1] == fs[i];
      }
    }
  }

  // ---------- records ----------

  /** What survives of record data: names lose their empty labels. */
  function NormalData(d: RData): (r: RData) {
    match d
    case NS(t) => NS(Canonical(t))
    case CNAME(t) => CNAME(Canonical(t))
    case SOA(primary, mailbox, _, _, _, _, _) =>
      d.(primary := Canonical(primary), mailbox := Canonical(mailbox))
    case PTR(t) => PTR(Canonical(t))
    case MX(preference, exchange) => MX(preference, Canonical(exchange))
    case SRV(priority, weight, port, target) => SRV(priority, weight, port, Canonical(target))
    case NAPTR(_, _, _, _, _, replacement) => d.(replacement := Canonical(replacement))
    case _ => d
  }

  /** What survives of a record: raw records also lose their class. */
  function NormalRecord(rr: Record): (r: Record) {
    Record(Canonical(rr.name), rr.ttl, if rr.data.RAW? then INTERNET else rr.rclass, NormalData(rr.data))
  }

  /** Raw data must fit the length field and must not claim a type the parser decodes itself. */
  predicate PlainRaw(rr: Record) {
    rr.data.RAW? ==> |rr.data.payload| <= 0xFFFF && !IsTyped(rr.data.rtype)
  }

  lemma {:induction false} DataParses(b: seq<byte>, d: RData, length: u16, at: seq<nat>)
    requires ReadsAt(b, DataFields(d), at)
    requires d.A? ==> length == 4
    requires d.AAAA? ==> length == 16
    requires d.RAW? ==> length == |d.payload| && !IsTyped(d.rtype)
    ensures ParseData(b, at[0], TypeCode(d), length) == Value(NormalData(d), at[|at| - 1])
  {
    match d
    case SOA(_, _, _, _, _, _, _) => CompoundDataParses(b, d, length, at);
    case MX(_, _) => CompoundDataParses(b, d, length, at);
    case SRV(_, _, _, _) => CompoundDataParses(b, d, length, at);
    case NAPTR(_, _, _, _, _, _) => CompoundDataParses(b, d, length, at);
    case NS(_) => NameDataParses(b, d, at);
    case CNAME(_) => NameDataParses(b, d, at);
    case PTR(_) => NameDataParses(b, d, at);
    case _ => OctetDataParses(b, d, length, at);
  }

  lemma {:induction false} CompoundDataParses(b: seq<byte>, d: RData, length: u16, at: seq<nat>)
    requires d.SOA? || d.MX? || d.SRV? || d.NAPTR?
    requires ReadsAt(b, DataFields(d), at)
    ensures ParseData(b, at[0], TypeCode(d), length) == Value(NormalData(d), at[|at| - 1])
  {
    match d
    case SOA(_, _, _, _, _, _, _) => SOAParses(b, d, at);
    case MX(_, _) => MXParses(b, d, at);
    case SRV(_, _, _, _) => SRVParses(b, d, at);
    case NAPTR(_, _, _, _, _, _) => NAPTRParses(b, d, at);
  }

  lemma {:induction false} OctetDataParses(b: seq<byte>, d: RData, length: u16, at: seq<nat>)
    requires d.A? || d.AAAA? || d.TXT? || d.RAW?
    requires ReadsAt(b, DataFields(d), at)
    requires d.A? ==> length == 4
    requires d.AAAA? ==> length == 16
    requires d.RAW? ==> length == |d.payload| && !IsTyped(d.rtype)
    ensures ParseData(b, at[0], TypeCode(d), length) == Value(NormalData(d), at[1])
  {
    assert ReadsAs(b, at[0], DataFields(d)[0], at[1]);
  }

  lemma {:induction false} NameDataParses(b: seq<byte>, d: RData, at: seq<nat>)
    requires d.NS? || d.CNAME? || d.PTR?
    requires ReadsAt(b, DataFields(d), at)
    ensures ParseData(b, at[0], TypeCode(d), 0) == Value(NormalData(d), at[1])
  {
    assert ReadsAs(b, at[0], DataFields(d)[0], at[1]);
  }

  lemma {:induction false} MXParses(b: seq<byte>, d: RData, at: seq<nat>)
    requires d.MX? && ReadsAt(b, DataFields(d), at)
    ensures ParseMX(b, at[0]) == Value(NormalData(d), at[2])
  {
    var fs := DataFields(d);
    assert ReadsAs(b, at[0], fs[0], at[1]) && ReadsAs(b, at[1], fs[1], at[2]);
  }

  lemma {:induction false} SRVParses(b: seq<byte>, d: RData, at: seq<nat>)
    requires d.SRV? && ReadsAt(b, DataFields(d), at)
    ensures ParseSRV(b, at[0]) == Value(NormalData(d), at[4])
  {
    var fs := DataFields(d);
    assert ReadsAs(b, at[0], fs[0], at[1]) && ReadsAs(b, at[1], fs[1], at[2]);
    assert ReadsAs(b, at[2], fs[2], at[3]) && ReadsAs(b, at[3], fs[3], at[4]);
  }

  lemma {:induction false} SOAParses(b: seq<byte>, d: RData, at: seq<nat>)
    requires d.SOA? && ReadsAt(b, DataFields(d), at)
    ensures ParseSOA(b, at[0]) == Value(NormalData(d), at[7])
  {
    var fs := DataFields(d);
    assert ReadsAs(b, at[0], fs[0], at[1]) && ReadsAs(b, at[1], fs[1], at[2]) && ReadsAs(b, at[2], fs[2], at[3]);
    assert ReadsAs(b, at[3], fs[3], at[4]) && ReadsAs(b, at[4], fs[4], at[5]) && ReadsAs(b, at[5], fs[5], at[6]);
    assert ReadsAs(b, at[6], fs[6], at[7]);
  }

  lemma {:induction false} NAPTRParses(b: seq<byte>, d: RData, at: seq<nat>)
    requires d.NAPTR? && ReadsAt(b, DataFields(d), at)
    ensures ParseNAPTR(b, at[0]) == Value(NormalData(d), at[6])
  {
    var fs := DataFields(d);
    assert ReadsAs(b, at[0], fs[0], at[1]) && ReadsAs(b, at[1], fs[1], at[2]) && ReadsAs(b, at[2], fs[2], at[3]);
    assert ReadsAs(b, at[3], fs[3], at[4]) && ReadsAs(b, at[4], fs[4], at[5]) && ReadsAs(b, at[5], fs[5], at[6]);
  }

  lemma {:induction false} RecordParses(b: seq<byte>, rr: Record, length: u16, head: seq<nat>, data: seq<nat>)
    requires ReadsAt(b, HeadFields(rr), head) && ReadsAt(b, DataFields(rr.data), data)
    requires Get16(b, head[4]) == Value(length, data[0]) && data[0] + length <= |b|
    requires rr.data.A? ==> length == 4
    requires rr.data.AAAA? ==> length == 16
    requires rr.data.RAW? ==> length == |rr.data.payload| && !IsTyped(rr.data.rtype)
    ensures ParseRecord(b, head[0]) == Value(NormalRecord(rr), data[|data| - 1])
  {
    var fs := HeadFields(rr);
    assert ReadsAs(b, head[0], fs[0], head[1]) && ReadsAs(b, head[1], fs[1], head[2]);
    assert ReadsAs(b, head[2], fs[2], head[3]) && ReadsAs(b, head[3], fs[3], head[4]);
    DataParses(b, rr.data, length, data);
  }

  /** Addresses and raw data are written as they are. */
  lemma {:induction false} OctetsAreWrittenAsIs(offset: nat, dict: Dictionary, d: RData)
    ensures var c := EncodeFields(offset, dict, DataFields(d));
            && (d.A? ==> |c.bytes| == 4) && (d.AAAA? ==> |c.bytes| == 16) && (d.RAW? ==> c.bytes == d.payload)
  {
    if d.A? || d.AAAA? || d.RAW? {
      var fs := DataFields(d);
      var c := EncodeField(offset, dict, fs[0]);
      assert fs[1..] == [];
      assert EncodeFields(offset, dict, fs).bytes == c.bytes + EncodeMany(EncodeField, offset + |c.bytes|, c.dict, fs[1..]).bytes;
      assert c.bytes + [] == c.bytes;
    }
  }

  /** The pieces of a record written at `pos`. */
  lemma {:induction false} RecordStands(b: seq<byte>, pos: nat, dict: Dictionary, rr: Record)
    requires EncodeRecord(pos, dict, rr).ok && Has(b, pos, EncodeRecord(pos, dict, rr).bytes)
    ensures var head := EncodeHead(pos, dict, rr);
            var mid := pos + |head.bytes|;
            var data := EncodeData(mid, head.dict, rr.data);
            && head.ok && data.ok && Has(b, pos, head.bytes) && Has(b, mid + 2, data.bytes)
            && Get16(b, mid) == Value(DataLength(|data.bytes|), mid + 2)
  {
    var head := EncodeHead(pos, dict, rr);
    var data := EncodeData(pos + |head.bytes|, head.dict, rr.data);
    PartsStand(b, pos, head.bytes, DataLength(|data.bytes|), data.bytes);
  }

  lemma {:induction false} PartsStand(b: seq<byte>, pos: nat, head: seq<byte>, length: u16, data: seq<byte>)
    requires Has(b, pos, head + U16(length) + data)
    ensures Has(b, pos, head) && Has(b, pos + |head| + 2, data)
    ensures Get16(b, pos + |head|) == Value(length, pos + |head| + 2)
  {
    HasSplits(b, pos, head + U16(length), data);
    HasSplits(b, pos, head, U16(length));
    ReadsBack16(b, pos + |head|, length);
  }

  /** Where the fields of a record written at `pos` stand. */
  lemma {:induction false} RecordFieldsStand(b: seq<byte>, pos: nat, dict: Dictionary, rr: Record)
    returns (headAt: seq<nat>, dataAt: seq<nat>)
    requires DictionaryHolds(b, dict, pos)
    requires EncodeRecord(pos, dict, rr).ok && Has(b, pos, EncodeRecord(pos, dict, rr).bytes)
    ensures ReadsAt(b, HeadFields(rr), headAt) && ReadsAt(b, DataFields(rr.data), dataAt)
    ensures var head := EncodeHead(pos, dict, rr);
            var mid := pos + |head.bytes|;
            var data := EncodeData(mid, head.dict, rr.data);
            && headAt[0] == pos && headAt[4] == mid && dataAt[0] == mid + 2
            && dataAt[|dataAt| - 1] == mid + 2 + |data.bytes| <= |b|
            && Get16(b, mid) == Value(DataLength(|data.bytes|), mid + 2)
            && DictionaryHolds(b, data.dict, mid + 2 + |data.bytes|)
  {
    var head := EncodeHead(pos, dict, rr);
    var mid := pos + |head.bytes|;
    RecordStands(b, pos, dict, rr);
    headAt := FieldsWritten(b, pos, dict, HeadFields(rr));
    DictionaryHoldsLater(b, head.dict, mid, mid + 2);
    dataAt := FieldsWritten(b, mid + 2, head.dict, DataFields(rr.data));
  }

  /** The same, in terms of the record as a whole, and the length that its data is read with. */
  lemma {:induction false} RecordLaidOut(b: seq<byte>, pos: nat, dict: Dictionary, rr: Record)
    returns (headAt: seq<nat>, length: u16, dataAt: seq<nat>)
    requires PlainRaw(rr) && DictionaryHolds(b, dict, pos)
    requires EncodeRecord(pos, dict, rr).ok && Has(b, pos, EncodeRecord(pos, dict, rr).bytes)
    ensures ReadsAt(b, HeadFields(rr), headAt) && ReadsAt(b, DataFields(rr.data), dataAt)
    ensures Get16(b, headAt[4]) == Value(length, dataAt[0]) && dataAt[0] + length <= |b|
    ensures rr.data.A? ==> length == 4
    ensures rr.data.AAAA? ==> length == 16
    ensures rr.data.RAW? ==> length == |rr.data.payload|
    ensures var c := EncodeRecord(pos, dict, rr);
            headAt[0] == pos && dataAt[|dataAt| - 1] == pos + |c.bytes| && DictionaryHolds(b, c.dict, pos + |c.bytes|)
  {
    var head := EncodeHead(pos, dict, rr);
    var mid := pos + |head.bytes|;
    headAt, dataAt := RecordFieldsStand(b, pos, dict, rr);
    length := DataLength(|EncodeData(mid, head.dict, rr.data).bytes|);
    OctetsAreWrittenAsIs(mid + 2, head.dict, rr.data);
  }

  /** A record written at `pos` parses back, the cursor stops at its end, and the dictionary after
      it holds. */
  lemma {:induction false} RecordWritten(b: seq<byte>, pos: nat, dict: Dictionary, rr: Record)
    requires PlainRaw(rr) && DictionaryHolds(b, dict, pos)
    requires EncodeRecord(pos, dict, rr).ok && Has(b, pos, EncodeRecord(pos, dict, rr).bytes)
    ensures var c := EncodeRecord(pos, dict, rr);
            && ParseRecord(b, pos) == Value(NormalRecord(rr), pos + |c.bytes|)
            && DictionaryHolds(b, c.dict, pos + |c.bytes|)
  {
    var headAt, length, dataAt := RecordLaidOut(b, pos, dict, rr);
    RecordParses(b, rr, length, headAt, dataAt);
  }

  lemma {:induction false} DictionaryHoldsLater(b: seq<byte>, dict: Dictionary, limit: nat, later: nat)
    requires DictionaryHolds(b, dict, limit) && limit <= later
    ensures DictionaryHolds(b, dict, later)
  {
  }

  /** Whatever length the writer patches in, the data it counts starts right after the field. */
  lemma {:induction false} LengthFieldCountsData(pos: nat, dict: Dictionary, rr: Record)
    ensures var head := EncodeHead(pos, dict, rr).bytes;
            var all := EncodeRecord(pos, dict, rr).bytes;
            && |head| + 2 <= |all|
            && Get16(all, |head|) == Value(Min(|all| - |head| - 2, 0xFFFF), |head| + 2)
  {
    var head := EncodeHead(pos, dict, rr);
    LengthBetween(head.bytes, EncodeData(pos + |head.bytes|, head.dict, rr.data).bytes);
  }

  lemma {:induction false} LengthBetween(head: seq<byte>, data: seq<byte>)
    ensures Get16(head + U16(DataLength(|data|)) + data, |head|) == Value(DataLength(|data|), |head| + 2)
  {
    HasAppended(head, U16(DataLength(|data|)), data);
    ReadsBack16(head + U16(DataLength(|data|)) + data, |head|, DataLength(|data|));
  }

  /** A record in the course of being written, with `length` in its length field: the writer puts
      a zero there first and patches it when the data is complete. */
  function Unpatched(b: seq<byte>, dict: Dictionary, rr: Record, length: u16): (r: seq<byte>) {
    var head := EncodeHead(|b|, dict, rr);
    b + head.bytes + U16(length) + EncodeData(|b| + |head.bytes|, head.dict, rr.data).bytes
  }

  /** Neither the placeholder nor any value patched over it disturbs a dictionary entry. */
  lemma {:induction false} BackPatchKeepsDictionary(b: seq<byte>, dict: Dictionary, rr: Record, length: u16)
    requires DictionaryHolds(b, dict, |b|) && EncodeRecord(|b|, dict, rr).ok
    ensures var all := Unpatched(b, dict, rr, length);
            DictionaryHolds(all, EncodeRecord(|b|, dict, rr).dict, |all|)
  {
    var head := EncodeHead(|b|, dict, rr);
    var mid := |b| + |head.bytes|;
    var data := EncodeData(mid, head.dict, rr.data);
    var all := Unpatched(b, dict, rr, length);
    UnpatchedStands(b, dict, rr, length);
    var headAt := FieldsWritten(all, |b|, dict, HeadFields(rr));
    DictionaryHoldsLater(all, head.dict, mid, mid + 2);
    var dataAt := FieldsWritten(all, mid + 2, head.dict, DataFields(rr.data));
  }

  lemma {:induction false} UnpatchedStands(b: seq<byte>, dict: Dictionary, rr: Record, length: u16)
    requires DictionaryHolds(b, dict, |b|)
    ensures var head := EncodeHead(|b|, dict, rr);
            var data := EncodeData(|b| + |head.bytes|, head.dict, rr.data);
            var all := Unpatched(b, dict, rr, length);
            && |all| == |b| + |head.bytes| + 2 + |data.bytes|
            && DictionaryHolds(all, dict, |b|)
            && Has(all, |b|, head.bytes) && Has(all, |b| + |head.bytes| + 2, data.bytes)
  {
    var head := EncodeHead(|b|, dict, rr);
    var data := EncodeData(|b| + |head.bytes|, head.dict, rr.data);
    FourPieces(b, head.bytes, U16(length), data.bytes);
    DictionarySurvivesAppend(b, head.bytes + U16(length) + data.bytes, dict, |b|);
  }

  lemma {:induction false} FourPieces(b: seq<byte>, head: seq<byte>, field: seq<byte>, data: seq<byte>)
    ensures var all := b + head + field + data;
            && all == b + (head + field + data)
            && Has(all, |b|, head) && Has(all, |b| + |head| + |field|, data)
  {
    var all := b + head + field + data;
    assert all == b + (head + field + data) == b + head + (field + data);
    HasAppended(b, head, field + data);
    HasAppended(b + head + field, data, []);
  }

  // ---------- sections ----------

  predicate AllPlainRaw(rrs: seq<Record>) {
    forall i :: 0 <= i < |rrs| ==> PlainRaw(rrs[i])
  }

  lemma {:induction false} RecordKept(b: seq<byte>, pos: nat, dict: Dictionary, rr: Record)
    requires PlainRaw(rr)
    ensures ItemKept(b, Standing(b), EncodeRecord, RecordReader(b), NormalRecord, pos, dict, rr)
  {
    var c := EncodeRecord(pos, dict, rr);
    if DictionaryHolds(b, dict, pos) && c.ok && Has(b, pos, c.bytes) {
      RecordWritten(b, pos, dict, rr);
    }
  }

  lemma {:induction false} RecordsWritten(b: seq<byte>, pos: nat, dict: Dictionary, rrs: seq<Record>)
    requires AllPlainRaw(rrs) && DictionaryHolds(b, dict, pos)
    requires EncodeMany(EncodeRecord, pos, dict, rrs).ok && Has(b, pos, EncodeMany(EncodeRecord, pos, dict, rrs).bytes)
    ensures var c := EncodeMany(EncodeRecord, pos, dict, rrs);
            && ParseMany(RecordReader(b), pos, |rrs|) == Value(MapAll(NormalRecord, rrs), pos + |c.bytes|)
            && DictionaryHolds(b, c.dict, pos + |c.bytes|)
  {
    forall p: nat, d: Dictionary, i | 0 <= i < |rrs|
      ensures ItemKept(b, Standing(b), EncodeRecord, RecordReader(b), NormalRecord, p, d, rrs[i])
    {
      RecordKept(b, p, d, rrs[i]);
    }
    ManyKept(b, Standing(b), EncodeRecord, RecordReader(b), NormalRecord, pos, dict, rrs);
  }

  function NormalQuestion(q: Question): (r: Question) {
    Question(Canonical(q.name), q.qtype, q.qclass)
  }

  lemma {:induction false} QuestionWritten(b: seq<byte>, pos: nat, dict: Dictionary, q: Question)
    requires DictionaryHolds(b, dict, pos)
    requires EncodeQuestion(pos, dict, q).ok && Has(b, pos, EncodeQuestion(pos, dict, q).bytes)
    ensures var c := EncodeQuestion(pos, dict, q);
            && ParseQuestion(b, pos) == Value(NormalQuestion(q), pos + |c.bytes|)
            && DictionaryHolds(b, c.dict, pos + |c.bytes|)
  {
    var fs := QuestionFields(q);
    var at := FieldsWritten(b, pos, dict, fs);
    assert ReadsAs(b, at[0], fs[0], at[1]) && ReadsAs(b, at[1], fs[1], at[2]) && ReadsAs(b, at[2], fs[2], at[3]);
  }

  lemma {:induction false} QuestionKept(b: seq<byte>, pos: nat, dict: Dictionary, q: Question)
    ensures ItemKept(b, Standing(b), EncodeQuestion, QuestionReader(b), NormalQuestion, pos, dict, q)
  {
    var c := EncodeQuestion(pos, dict, q);
    if DictionaryHolds(b, dict, pos) && c.ok && Has(b, pos, c.bytes) {
      QuestionWritten(b, pos, dict, q);
    }
  }

  lemma {:induction false} QuestionsWritten(b: seq<byte>, pos: nat, dict: Dictionary, qs: seq<Question>)
    requires DictionaryHolds(b, dict, pos)
    requires EncodeMany(EncodeQuestion, pos, dict, qs).ok && Has(b, pos, EncodeMany(EncodeQuestion, pos, dict, qs).bytes)
    ensures var c := EncodeMany(EncodeQuestion, pos, dict, qs);
            && ParseMany(QuestionReader(b), pos, |qs|) == Value(MapAll(NormalQuestion, qs), pos + |c.bytes|)
            && DictionaryHolds(b, c.dict, pos + |c.bytes|)
  {
    forall p: nat, d: Dictionary, i | 0 <= i < |qs|
      ensures ItemKept(b, Standing(b), EncodeQuestion, QuestionReader(b), NormalQuestion, p, d, qs[i])
    {
      QuestionKept(b, p, d, qs[i]);
    }
    ManyKept(b, Standing(b), EncodeQuestion, QuestionReader(b), NormalQuestion, pos, dict, qs);
  }

  lemma {:induction false} HeaderWritten(b: seq<byte>, h: Header)
    requires Has(b, 0, EncodeFields(0, map[], HeaderFields(h)).bytes)
    ensures var c := EncodeFields(0, map[], HeaderFields(h));
            ParseHeader(b, 0) == Value(h, |c.bytes|) && c.dict == map[] && c.ok
  {
    var fs := HeaderFields(h);
    NumbersDoNotCompress(0, map[], fs);
    var at := FieldsWritten(b, 0, map[], fs);
    assert ReadsAs(b, at[0], fs[0], at[1]) && ReadsAs(b, at[1], fs[1], at[2]) && ReadsAs(b, at[2], fs[2], at[3]);
    assert ReadsAs(b, at[3], fs[3], at[4]) && ReadsAs(b, at[4], fs[4], at[5]) && ReadsAs(b, at[5], fs[5], at[6]);
  }

  lemma {:induction false} NumbersDoNotCompress(offset: nat, dict: Dictionary, fs: seq<Field>)
    requires forall i :: 0 <= i < |fs| ==> fs[i].Num16?
    ensures EncodeFields(offset, dict, fs).dict == dict && EncodeFields(offset, dict, fs).ok
    decreases |fs|
  {
    if fs != [] {
      NumbersDoNotCompress(offset + 2, dict, fs[1..]);
    }
  }

  // ---------- messages ----------

  /** The counts in the header are those of the sections. */
  predicate CountsMatch(m: Message) {
    && m.header.questions == |m.questions| && m.header.answers == |m.answers|
    && m.header.authorities == |m.authorities| && m.header.additions == |m.additionals|
  }

  predicate PlainRawMessage(m: Message) {
    AllPlainRaw(m.answers) && AllPlainRaw(m.authorities) && AllPlainRaw(m.additionals)
  }

  function NormalMessage(m: Message): (r: Message) {
    Message(m.header, MapAll(NormalQuestion, m.questions), MapAll(NormalRecord, m.answers),
            MapAll(NormalRecord, m.authorities), MapAll(NormalRecord, m.additionals))
  }

  /** Sections written at the end of chunk `c` stand right after it. */
  lemma {:induction false} SectionStands(b: seq<byte>, c: Chunk, d: Chunk)
    requires Has(b, 0, Then(c, d).bytes)
    ensures Has(b, 0, c.bytes) && Has(b, |c.bytes|, d.bytes)
    ensures |Then(c, d).bytes| == |c.bytes| + |d.bytes|
  {
    HasSplits(b, 0, c.bytes, d.bytes);
  }

  lemma {:induction false} QuestionSectionWritten(b: seq<byte>, m: Message)
    requires UpToQuestions(m).ok && Has(b, 0, UpToQuestions(m).bytes)
    ensures ParseHeader(b, 0) == Value(m.header, |UpToHeader(m).bytes|)
    ensures ParseMany(QuestionReader(b), |UpToHeader(m).bytes|, |m.questions|)
         == Value(MapAll(NormalQuestion, m.questions), |UpToQuestions(m).bytes|)
    ensures DictionaryHolds(b, UpToQuestions(m).dict, |UpToQuestions(m).bytes|)
  {
    var c := UpToHeader(m);
    SectionStands(b, c, EncodeMany(EncodeQuestion, |c.bytes|, c.dict, m.questions));
    HeaderWritten(b, m.header);
    QuestionsWritten(b, |c.bytes|, c.dict, m.questions);
  }

  /** A section of records written after chunk `c`. */
  lemma {:induction false} RecordSectionWritten(b: seq<byte>, c: Chunk, rrs: seq<Record>, d: Chunk)
    requires d == Then(c, EncodeMany(EncodeRecord, |c.bytes|, c.dict, rrs))
    requires AllPlainRaw(rrs) && d.ok && Has(b, 0, d.bytes) && DictionaryHolds(b, c.dict, |c.bytes|)
    ensures ParseMany(RecordReader(b), |c.bytes|, |rrs|) == Value(MapAll(NormalRecord, rrs), |d.bytes|)
    ensures DictionaryHolds(b, d.dict, |d.bytes|)
  {
    SectionStands(b, c, EncodeMany(EncodeRecord, |c.bytes|, c.dict, rrs));
    RecordsWritten(b, |c.bytes|, c.dict, rrs);
  }

  lemma {:induction false} EarlierSectionsStand(b: seq<byte>, m: Message)
    requires EncodeMessage(m).ok && Has(b, 0, EncodeMessage(m).bytes)
    ensures UpToQuestions(m).ok && Has(b, 0, UpToQuestions(m).bytes)
    ensures UpToAnswers(m).ok && Has(b, 0, UpToAnswers(m).bytes)
    ensures UpToAuthorities(m).ok && Has(b, 0, UpToAuthorities(m).bytes)
  {
    var c1, c2, c3 := UpToQuestions(m), UpToAnswers(m), UpToAuthorities(m);
    SectionStands(b, c3, EncodeMany(EncodeRecord, |c3.bytes|, c3.dict, m.additionals));
    SectionStands(b, c2, EncodeMany(EncodeRecord, |c2.bytes|, c2.dict, m.authorities));
    SectionStands(b, c1, EncodeMany(EncodeRecord, |c1.bytes|, c1.dict, m.answers));
  }

  /** Parsing the bytes of a message, whatever follows them, gives the message back, with its names in
      canonical form; the cursor ends at the end of the bytes and every dictionary entry stands in them. */
  lemma {:induction false} MessageRoundTripsIn(b: seq<byte>, m: Message)
    requires PlainRawMessage(m) && CountsMatch(m) && EncodeMessage(m).ok && Has(b, 0, Serialize(m))
    ensures ParseMessage(b) == Value(NormalMessage(m), |Serialize(m)|)
    ensures DictionaryHolds(b, EncodeMessage(m).dict, |Serialize(m)|)
  {
    EarlierSectionsStand(b, m);
    QuestionSectionWritten(b, m);
    RecordSectionWritten(b, UpToQuestions(m), m.answers, UpToAnswers(m));
    RecordSectionWritten(b, UpToAnswers(m), m.authorities, UpToAuthorities(m));
    RecordSectionWritten(b, UpToAuthorities(m), m.additionals, EncodeMessage(m));
  }

  lemma {:induction false} MessageRoundTrips(m: Message)
    requires PlainRawMessage(m) && CountsMatch(m) && EncodeMessage(m).ok
    ensures ParseMessage(Serialize(m)) == Value(NormalMessage(m), |Serialize(m)|)
    ensures DictionaryHolds(Serialize(m), EncodeMessage(m).dict, |Serialize(m)|)
  {
    MessageRoundTripsIn(Serialize(m), m);
  }
}
