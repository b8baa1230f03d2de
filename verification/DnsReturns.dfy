/**
 When reading a whole datagram returns: the names the reader comes to, and their pointers.
 */
module DnsReturns {
  import opened Bytes
  import opened NameParser
  import opened Chunks
  import opened DnsMessage

  /** The offset after something that was read, as a list: empty if it was not. */
  function Next<T>(r: Outcome<T>): (s: seq<nat>) {
    if r.Value? then [r.next] else []
  }

  /** The names in the data of a record, as far as the reader comes. */
  function NamesInData(b: seq<byte>, pos: nat, code: u16): (r: seq<nat>) {
    if code == 2 || code == 5 || code == 12 then [pos]
    else if code == 6 then [pos] + Next(ParseName(b, pos))
    else if code == 15 then Next(Get16(b, pos))
    else if code == 33 then if pos + 6 <= |b| then [pos + 6] else []
    else if code == 35 then NameInNaptr(b, pos)
    else []
  }

  function NameInNaptr(b: seq<byte>, pos: nat): (r: seq<nat>) {
    if pos + 4 > |b| then []
    else
      var flags := ParseCounted(b, pos + 4);
      if !flags.Value? then []
      else
        var services := ParseCounted(b, flags.next);
        if !services.Value? then [] else Next(ParseCounted(b, services.next))
  }

  /** The names in a record, as far as the reader comes. */
  function NamesInRecord(b: seq<byte>, pos: nat): (r: seq<nat>) {
    var name := ParseName(b, pos);
    [pos] +
    if !name.Value? || name.next + 10 > |b| then []
    else
      var p := name.next;
      if p + 10 + Word(b[p + 8], b[p + 9]) > |b| then []
      else NamesInData(b, p + 10, Word(b[p], b[p + 1]))
  }

  function NamesInMany<U>(parse: nat -> Outcome<U>, names: nat -> seq<nat>, pos: nat, count: nat): (r: seq<nat>)
    decreases count
  {
    if count == 0 then []
    else names(pos) + if parse(pos).Value? then NamesInMany(parse, names, parse(pos).next, count - 1) else []
  }

  function NamesInQuestions(b: seq<byte>, pos: nat, count: nat): (r: seq<nat>) {
    NamesInMany(QuestionReader(b), p => [p], pos, count)
  }

  function NamesInRecords(b: seq<byte>, pos: nat, count: nat): (r: seq<nat>) {
    NamesInMany(RecordReader(b), p => NamesInRecord(b, p), pos, count)
  }

  /** The names in up to three sections of records, one after the other. */
  function NamesInSections(b: seq<byte>, pos: nat, counts: seq<nat>): (r: seq<nat>)
    decreases |counts|
  {
    if counts == [] then []
    else
      var section := ParseMany(RecordReader(b), pos, counts[0]);
      NamesInRecords(b, pos, counts[0]) + if section.Value? then NamesInSections(b, section.next, counts[1..]) else []
  }

  /** All the names in a datagram that the reader comes to, in order. */
  function NamesInMessage(b: seq<byte>): (r: seq<nat>) {
    var header := ParseHeader(b, 0);
    if !header.Value? then []
    else
      var h := header.value;
      var questions := ParseMany(QuestionReader(b), header.next, h.questions);
      NamesInQuestions(b, header.next, h.questions) +
      if questions.Value? then NamesInSections(b, questions.next, [h.answers, h.authorities, h.additions]) else []
  }

  /** Reading one of these names does not return. */
  predicate SomeDiverges(b: seq<byte>, names: seq<nat>) {
    exists i :: 0 <= i < |names| && ParseName(b, names[i]) == Diverges
  }

  lemma {:induction false} NoneOf(b: seq<byte>)
    ensures !SomeDiverges(b, [])
  {
  }

  lemma {:induction false} OneOf(b: seq<byte>, p: nat)
    ensures SomeDiverges(b, [p]) <==> ParseName(b, p) == Diverges
  {
    if ParseName(b, p) == Diverges {
      assert [p][0] == p;
    }
  }

  lemma {:induction false} EitherOf(b: seq<byte>, x: seq<nat>, y: seq<nat>)
    ensures SomeDiverges(b, x + y) <==> SomeDiverges(b, x) || SomeDiverges(b, y)
  {
    if i :| 0 <= i < |x| && ParseName(b, x[i]) == Diverges {
      assert (x + y)[i] == x[i];
    }
    if i :| 0 <= i < |y| && ParseName(b, y[i]) == Diverges {
      assert (x + y)[|x| + i] == y[i];
    }
  }

  lemma {:induction false} DataReturns(b: seq<byte>, pos: nat, code: u16, length: u16)
    ensures ParseData(b, pos, code, length) == Diverges <==> SomeDiverges(b, NamesInData(b, pos, code))
  {
    OneOf(b, pos);
    NoneOf(b);
    if code == 6 {
      SoaReturns(b, pos);
    } else if code == 15 {
      MxReturns(b, pos);
    } else if code == 33 {
      SrvReturns(b, pos);
    } else if code == 35 {
      NaptrReturns(b, pos);
    }
  }

  lemma {:induction false} SoaReturns(b: seq<byte>, pos: nat)
    ensures ParseSOA(b, pos) == Diverges <==> SomeDiverges(b, [pos] + Next(ParseName(b, pos)))
  {
    var first := ParseName(b, pos);
    OneOf(b, pos);
    EitherOf(b, [pos], Next(first));
    if first.Value? {
      OneOf(b, first.next);
    } else {
      NoneOf(b);
    }
  }

  lemma {:induction false} MxReturns(b: seq<byte>, pos: nat)
    ensures ParseMX(b, pos) == Diverges <==> SomeDiverges(b, Next(Get16(b, pos)))
  {
    NoneOf(b);
    OneOf(b, pos + 2);
  }

  lemma {:induction false} SrvReturns(b: seq<byte>, pos: nat)
    ensures ParseSRV(b, pos) == Diverges <==> SomeDiverges(b, if pos + 6 <= |b| then [pos + 6] else [])
  {
    NoneOf(b);
    OneOf(b, pos + 6);
  }

  lemma {:induction false} NaptrReturns(b: seq<byte>, pos: nat)
    ensures ParseNAPTR(b, pos) == Diverges <==> SomeDiverges(b, NameInNaptr(b, pos))
  {
    NoneOf(b);
    if pos + 4 <= |b| {
      var flags := ParseCounted(b, pos + 4);
      if flags.Value? {
        var services := ParseCounted(b, flags.next);
        if services.Value? {
          var regexp := ParseCounted(b, services.next);
          if regexp.Value? {
            OneOf(b, regexp.next);
          }
        }
      }
    }
  }

  lemma {:induction false} RecordReturns(b: seq<byte>, pos: nat)
    ensures ParseRecord(b, pos) == Diverges <==> SomeDiverges(b, NamesInRecord(b, pos))
  {
    var name := ParseName(b, pos);
    OneOf(b, pos);
    NoneOf(b);
    if !name.Value? || name.next + 10 > |b| {
      EitherOf(b, [pos], []);
    } else {
      var p := name.next;
      var length := Word(b[p + 8], b[p + 9]);
      if p + 10 + length > |b| {
        EitherOf(b, [pos], []);
      } else {
        DataReturns(b, p + 10, Word(b[p], b[p + 1]), length);
        EitherOf(b, [pos], NamesInData(b, p + 10, Word(b[p], b[p + 1])));
      }
    }
  }

  lemma {:induction false} QuestionReturns(b: seq<byte>, pos: nat)
    ensures ParseQuestion(b, pos) == Diverges <==> SomeDiverges(b, [pos])
  {
    OneOf(b, pos);
  }

  /** Reading the item at an offset fails to return exactly when reading one of its names does. */
  ghost predicate Returns<U>(b: seq<byte>, parse: nat -> Outcome<U>, names: nat -> seq<nat>, pos: nat) {
    parse(pos) == Diverges <==> SomeDiverges(b, names(pos))
  }

  lemma {:induction false} ManyReturn<U>(b: seq<byte>, parse: nat -> Outcome<U>, names: nat -> seq<nat>, pos: nat, count: nat)
    requires forall p: nat :: Returns(b, parse, names, p)
    ensures ParseMany(parse, pos, count) == Diverges <==> SomeDiverges(b, NamesInMany(parse, names, pos, count))
    decreases count
  {
    if count == 0 {
      NoneOf(b);
    } else {
      assert Returns(b, parse, names, pos);
      var item := parse(pos);
      if item.Value? {
        ManyReturn(b, parse, names, item.next, count - 1);
        EitherOf(b, names(pos), NamesInMany(parse, names, item.next, count - 1));
      } else {
        assert names(pos) + [] == names(pos);
      }
    }
  }

  lemma {:induction false} QuestionsReturn(b: seq<byte>, pos: nat, count: nat)
    ensures ParseMany(QuestionReader(b), pos, count) == Diverges <==> SomeDiverges(b, NamesInQuestions(b, pos, count))
  {
    var names := (p: nat) => [p];
    forall p: nat ensures Returns(b, QuestionReader(b), names, p) {
      QuestionReturns(b, p);
    }
    ManyReturn(b, QuestionReader(b), names, pos, count);
  }

  lemma {:induction false} RecordsReturn(b: seq<byte>, pos: nat, count: nat)
    ensures ParseMany(RecordReader(b), pos, count) == Diverges <==> SomeDiverges(b, NamesInRecords(b, pos, count))
  {
    var names := (p: nat) => NamesInRecord(b, p);
    forall p: nat ensures Returns(b, RecordReader(b), names, p) {
      RecordReturns(b, p);
    }
    ManyReturn(b, RecordReader(b), names, pos, count);
  }

  /** Reading sections one after the other does not return. */
  predicate SectionsDiverge(b: seq<byte>, pos: nat, counts: seq<nat>)
    decreases |counts|
  {
    counts != [] &&
    var section := ParseMany(RecordReader(b), pos, counts[0]);
    section == Diverges || (section.Value? && SectionsDiverge(b, section.next, counts[1..]))
  }

  lemma {:induction false} SectionsReturn(b: seq<byte>, pos: nat, counts: seq<nat>)
    ensures SectionsDiverge(b, pos, counts) <==> SomeDiverges(b, NamesInSections(b, pos, counts))
    decreases |counts|
  {
    NoneOf(b);
    if counts != [] {
      var section := ParseMany(RecordReader(b), pos, counts[0]);
      var rest := if section.Value? then NamesInSections(b, section.next, counts[1..]) else [];
      RecordsReturn(b, pos, counts[0]);
      EitherOf(b, NamesInRecords(b, pos, counts[0]), rest);
      if section.Value? {
        SectionsReturn(b, section.next, counts[1..]);
      }
    }
  }

  lemma {:induction false} ThreeSections(b: seq<byte>, pos: nat, x: nat, y: nat, z: nat)
    ensures SectionsDiverge(b, pos, [x, y, z]) <==>
              var answers := ParseMany(RecordReader(b), pos, x);
              answers == Diverges ||
              (answers.Value? &&
               var authorities := ParseMany(RecordReader(b), answers.next, y);
               authorities == Diverges ||
               (authorities.Value? && ParseMany(RecordReader(b), authorities.next, z) == Diverges))
  {
    var none: seq<nat> := [];
    assert [x, y, z][1..] == [y, z] && [y, z][1..] == [z] && [z][1..] == none;
    assert forall p: nat :: !SectionsDiverge(b, p, none);
    assert forall p: nat :: SectionsDiverge(b, p, [z]) <==> ParseMany(RecordReader(b), p, z) == Diverges;
  }

  /** Reading a datagram fails to return exactly when one of the names that the reader comes to has
      pointers that form a cycle. */
  lemma {:induction false} MessageDivergesExactlyOnCycle(b: seq<byte>)
    ensures ParseMessage(b) == Diverges <==>
              exists i :: 0 <= i < |NamesInMessage(b)| && HasPointerCycle(b, NamesInMessage(b)[i])
  {
    var names := NamesInMessage(b);
    NoneOf(b);
    forall i | 0 <= i < |names| ensures ParseName(b, names[i]) == Diverges <==> HasPointerCycle(b, names[i]) {
      DivergesExactlyOnCycle(b, names[i]);
    }
    var header := ParseHeader(b, 0);
    if header.Value? {
      var h := header.value;
      var questions := ParseMany(QuestionReader(b), header.next, h.questions);
      var counts := [h.answers, h.authorities, h.additions];
      QuestionsReturn(b, header.next, h.questions);
      EitherOf(b, NamesInQuestions(b, header.next, h.questions),
               if questions.Value? then NamesInSections(b, questions.next, counts) else []);
      if questions.Value? {
        SectionsReturn(b, questions.next, counts);
        ThreeSections(b, questions.next, h.answers, h.authorities, h.additions);
      }
    }
    assert ParseMessage(b) == Diverges <==> SomeDiverges(b, names);
  }
}
