/**
 Writing domain names with compression (section 4.1.4 of RFC 1035). The writer threads a
 dictionary from dotted suffixes to the offsets where they were first written.
 */
module NameWriter {
  import opened Bytes
  import opened DomainText
  import opened NameParser
  import opened Chunks

  /** A length octet counts at most 255 bytes; the writer traps on longer labels. */
  predicate Countable(name: Name) {
    name.Part? ==> |name.text| <= 255 && Countable(name.rest)
  }

  /** Labels whose length octet the parser does not take for a pointer. */
  predicate Readable(name: Name) {
    name.Part? ==> |name.text| < 0xC0 && Readable(name.rest)
  }

  lemma {:induction false} ReadableIsCountable(name: Name)
    requires Readable(name)
    ensures Countable(name)
  {
    if name.Part? {
      ReadableIsCountable(name.rest);
    }
  }

  /** A string with its length octet (nothing, when the writer would trap). */
  function LabelBytes(text: Text): (r: seq<byte>)
    ensures |text| <= 255 ==> |r| == 1 + |text|
  {
    if |text| <= 255 then [|text|] + text else []
  }

  /** The offset clamped to 16 bits, with the two pointer bits set. */
  function PointerWord(offset: nat): (r: u16)
    ensures 0xC000 <= r
  {
    0xC000 + Min(offset, 0xFFFF) % POINTER_RANGE
  }

  /** A name as it is written: labels up to the root or up to a pointer. */
  datatype Wire = End | Jump(offset: nat) | Label(text: Text, rest: Wire)

  function WireBytes(w: Wire): (r: seq<byte>) {
    match w
    case End => [0]
    case Jump(offset) => U16(PointerWord(offset))
    case Label(text, rest) => LabelBytes(text) + WireBytes(rest)
  }

  /** Pointers fit in 14 bits and length octets do not look like pointers. */
  predicate WireOk(w: Wire) {
    match w
    case End => true
    case Jump(offset) => offset < POINTER_RANGE
    case Label(text, rest) => |text| < 0xC0 && WireOk(rest)
  }

  /** The writer's loop: labels are written until the remaining suffix is in the dictionary. */
  function Compress(offset: nat, dict: Dictionary, name: Name): (r: Wire)
    decreases name
  {
    match name
    case Root => End
    case Part(text, rest) =>
      if Join(name) in dict then Jump(dict[Join(name)])
      else Label(text, Compress(offset + 1 + |text|, dict[Join(name) := offset], rest))
  }

  /** The dictionary after the loop: the suffixes just written are added. */
  function Learn(offset: nat, dict: Dictionary, name: Name): (r: Dictionary)
    decreases name
  {
    match name
    case Root => dict
    case Part(text, rest) =>
      if Join(name) in dict then dict
      else Learn(offset + 1 + |text|, dict[Join(name) := offset], rest)
  }

  /** What the writer appends for a name when `offset` bytes are already written. */
  function EncodeName(offset: nat, dict: Dictionary, name: Name): (r: Chunk) {
    var w := Compress(offset, dict, name);
    Chunk(WireBytes(w), Learn(offset, dict, name), WireOk(w))
  }

  /** The same name without compression. */
  function PlainName(name: Name): (r: seq<byte>) {
    match name
    case Root => [0]
    case Part(text, rest) => LabelBytes(text) + PlainName(rest)
  }

  // ---------- what it means for a name to stand in the message ----------

  /** `name` stands at `pos`, in a segment that starts at `start`: a zero octet, a label followed
      by the rest, or a pointer strictly below the segment to a non-root name. */
  ghost predicate NameAt(b: seq<byte>, start: nat, pos: nat, name: Name)
    decreases start, name
  {
    pos < |b| &&
    if b[pos] == 0 then name == Root
    else if b[pos] >= 0xC0 then
      && pos + 1 < |b| && name.Part?
      && Target(b[pos], b[pos + 1]) < start
      && NameAt(b, Target(b[pos], b[pos + 1]), Target(b[pos], b[pos + 1]), name)
    else
      && name.Part? && b[pos] == |name.text| && Has(b, pos + 1, name.text)
      && NameAt(b, start, pos + 1 + |name.text|, name.rest)
  }

  /** The cursor after the segment at `pos`. */
  function SegmentEnd(b: seq<byte>, pos: nat): (r: nat)
    decreases |b| - pos
  {
    if pos >= |b| then pos
    else if b[pos] == 0 then pos + 1
    else if b[pos] >= 0xC0 then pos + 2
    else if pos + 1 + b[pos] > |b| then pos
    else SegmentEnd(b, pos + 1 + b[pos])
  }

  /** Every dictionary entry names an offset below `limit` at which its suffix stands. */
  ghost predicate DictionaryHolds(b: seq<byte>, dict: Dictionary, limit: nat) {
    forall k :: k in dict ==> dict[k] < limit && NameAt(b, dict[k], dict[k], Split(k))
  }

  /** The same, as a value. */
  ghost function Standing(b: seq<byte>): (r: (Dictionary, nat) -> bool) {
    (d, p) => DictionaryHolds(b, d, p)
  }

  /** The pointer at the end of a standing segment leads strictly below it, to a standing name. */
  lemma {:induction false} NameAtJumps(b: seq<byte>, start: nat, pos: nat, name: Name) returns (rest: Name)
    requires NameAt(b, start, pos, name) && JumpTarget(b, pos).Some?
    ensures var t := JumpTarget(b, pos).value; t < start && NameAt(b, t, t, rest)
    decreases name
  {
    if b[pos] >= 0xC0 {
      rest := name;
    } else {
      rest := NameAtJumps(b, start, pos + 1 + |name.text|, name.rest);
    }
  }

  lemma {:induction false} NameAtHopsDescend(b: seq<byte>, pos: nat, name: Name, k: nat)
    requires NameAt(b, pos, pos, name) && k > 0 && Hop(b, pos, k).Some?
    ensures Hop(b, pos, k - 1).Some? && Hop(b, pos, k).value < Hop(b, pos, k - 1).value
    decreases k
  {
    var rest := NameAtJumps(b, pos, pos, name);
    var t := JumpTarget(b, pos).value;
    if k == 1 {
      assert Hop(b, pos, 1) == Hop(b, t, 0) == Some(t);
    } else {
      NameAtHopsDescend(b, t, rest, k - 1);
    }
  }

  /** What the writer emits descends: the pointers met in reading a standing name go down. */
  lemma {:induction false} StandingNameDescends(b: seq<byte>, pos: nat, name: Name)
    requires NameAt(b, pos, pos, name)
    ensures DescendsFrom(b, pos)
  {
    forall k: nat | k > 0 && Hop(b, pos, k).Some?
      ensures Hop(b, pos, k - 1).Some? && Hop(b, pos, k).value < Hop(b, pos, k - 1).value {
      NameAtHopsDescend(b, pos, name, k);
    }
  }

  lemma {:induction false} NameAtLater(b: seq<byte>, start: nat, later: nat, pos: nat, name: Name)
    requires start <= later && NameAt(b, start, pos, name)
    ensures NameAt(b, later, pos, name)
    decreases name
  {
    if b[pos] != 0 && b[pos] < 0xC0 {
      NameAtLater(b, start, later, pos + 1 + |name.text|, name.rest);
    }
  }

  /** Appending bytes disturbs no name already written, nor where it ends. */
  lemma {:induction false} NameAtSurvivesAppend(b: seq<byte>, more: seq<byte>, start: nat, pos: nat, name: Name)
    requires NameAt(b, start, pos, name)
    ensures NameAt(b + more, start, pos, name)
    ensures SegmentEnd(b + more, pos) == SegmentEnd(b, pos) <= |b|
    decreases start, name
  {
    var c := b + more;
    assert c[pos] == b[pos];
    if b[pos] >= 0xC0 {
      assert c[pos + 1] == b[pos + 1];
      var t := Target(b[pos], b[pos + 1]);
      NameAtSurvivesAppend(b, more, t, t, name);
    } else if b[pos] != 0 {
      HasSurvivesAppend(b, more, pos + 1, name.text);
      NameAtSurvivesAppend(b, more, start, pos + 1 + |name.text|, name.rest);
    }
  }

  lemma {:induction false} DictionarySurvivesAppend(b: seq<byte>, more: seq<byte>, dict: Dictionary, limit: nat)
    requires DictionaryHolds(b, dict, limit)
    ensures DictionaryHolds(b + more, dict, limit)
  {
    forall k | k in dict ensures NameAt(b + more, dict[k], dict[k], Split(k)) {
      NameAtSurvivesAppend(b, more, dict[k], dict[k], Split(k));
    }
  }

  /** The parser steps over a label that stands at `pos`. */
  lemma {:induction false} StepOverLabel(b: seq<byte>, pos: nat, text: Text, part: Text, jumps: nat)
    requires pos < |b| && b[pos] == |part| && 0 < |part| < 0xC0 && Has(b, pos + 1, part)
    ensures NameFrom(b, pos, text, jumps) == NameFrom(b, pos + 1 + |part|, Extend(text, part), jumps)
    ensures SegmentEnd(b, pos) == SegmentEnd(b, pos + 1 + |part|)
  {
    assert b[pos + 1..pos + 1 + b[pos]] == part by {
      HasIsSlice(b, pos + 1, part);
    }
  }

  /** A standing name is read back, whatever follows it; at most `start` pointers are followed. */
  lemma {:induction false} StandingNameParses(b: seq<byte>, start: nat, pos: nat, name: Name, text: Text, jumps: nat)
    requires NameAt(b, start, pos, name) && AreLabels(name)
    requires start <= jumps
    ensures NameFrom(b, pos, text, jumps)
         == Value(if name == Root then text else Extend(text, Join(name)), SegmentEnd(b, pos))
    decreases start, name
  {
    if b[pos] >= 0xC0 {
      var t := Target(b[pos], b[pos + 1]);
      StandingNameParses(b, t, t, name, [], jumps - 1);
    } else if b[pos] != 0 {
      StepOverLabel(b, pos, text, name.text, jumps);
      StandingNameParses(b, start, pos + 1 + |name.text|, name.rest, Extend(text, name.text), jumps);
      JoinExtends(text, name);
    }
  }

  /** A standing name parses to its dotted text, with the cursor at the end of its segment. */
  lemma {:induction false} StandingName(b: seq<byte>, pos: nat, name: Name)
    requires NameAt(b, pos, pos, name) && AreLabels(name)
    ensures ParseName(b, pos) == Value(Join(name), SegmentEnd(b, pos))
  {
    StandingNameParses(b, pos, pos, name, [], pos + POINTER_RANGE);
    JumpBoundIsExact(b, pos, pos + POINTER_RANGE);
  }

  // ---------- the writer keeps its dictionary true ----------

  /** The parser reads back a pointer's offset exactly when it is below 0x4000. */
  lemma {:induction false} PointerReadsBack(offset: nat)
    ensures var w := U16(PointerWord(offset));
            w[0] >= 0xC0 && (Target(w[0], w[1]) == offset <==> offset < POINTER_RANGE)
  {
    var low := Min(offset, 0xFFFF) % POINTER_RANGE;
    assert (0xC000 + low) / 256 == 0xC0 + low / 256;
    assert (0xC000 + low) % 256 == low % 256;
  }

  lemma {:induction false} PointerStands(b: seq<byte>, start: nat, pos: nat, name: Name, target: nat)
    requires name.Part? && target < start && target < POINTER_RANGE && NameAt(b, target, target, name)
    requires Has(b, pos, U16(PointerWord(target)))
    ensures NameAt(b, start, pos, name) && SegmentEnd(b, pos) == pos + 2
  {
    PointerReadsBack(target);
    var w := U16(PointerWord(target));
    assert b[pos + 0] == w[0] && b[pos + 1] == w[1];
  }

  lemma {:induction false} LabelStands(b: seq<byte>, start: nat, pos: nat, name: Name, rest: seq<byte>)
    requires name.Part? && 0 < |name.text| < 0xC0
    requires Has(b, pos, LabelBytes(name.text) + rest)
    ensures Has(b, pos + 1 + |name.text|, rest)
    ensures b[pos] == |name.text| && Has(b, pos + 1, name.text)
    ensures NameAt(b, start, pos, name) <==> NameAt(b, start, pos + 1 + |name.text|, name.rest)
    ensures SegmentEnd(b, pos) == SegmentEnd(b, pos + 1 + |name.text|)
  {
    HasSplits(b, pos, LabelBytes(name.text), rest);
    HasSplits(b, pos, [|name.text|], name.text);
    assert b[pos + 0] == [|name.text|][0];
  }

  /** `dict` extends `base` only by suffixes longer than `length`. */
  ghost predicate OpenSuffixes(base: Dictionary, dict: Dictionary, length: nat) {
    forall k :: k in dict && |k| <= length ==> k in base && dict[k] == base[k]
  }

  /** What is left to write after one label. */
  lemma {:induction false} WritingStep(
    b: seq<byte>, pos: nat, base: Dictionary, dict: Dictionary, name: Name, w: Wire)
    requires AreLabels(name) && name.Part? && w == Compress(pos, dict, name) && w.Label?
    requires OpenSuffixes(base, dict, |Join(name)|) && WireOk(w) && Has(b, pos, WireBytes(w))
    ensures var next, extended := pos + 1 + |name.text|, dict[Join(name) := pos];
            && w.rest == Compress(next, extended, name.rest) && WireOk(w.rest)
            && Learn(pos, dict, name) == Learn(next, extended, name.rest)
            && Has(b, next, WireBytes(w.rest)) && pos + |WireBytes(w)| == next + |WireBytes(w.rest)|
            && OpenSuffixes(base, extended, |Join(name.rest)|)
  {
    HasSplits(b, pos, LabelBytes(name.text), WireBytes(w.rest));
    JoinShrinks(name);
  }

  /** One name, from any point inside it: `name` is written at `pos`, in a segment that starts
      at `start`; `base` is the dictionary from before the name. */
  lemma {:induction false} CompressedStands(
    b: seq<byte>, start: nat, pos: nat, base: Dictionary, dict: Dictionary, name: Name, w: Wire)
    requires AreLabels(name) && w == Compress(pos, dict, name)
    requires DictionaryHolds(b, base, start) && OpenSuffixes(base, dict, |Join(name)|)
    requires WireOk(w) && Has(b, pos, WireBytes(w))
    ensures NameAt(b, start, pos, name) && SegmentEnd(b, pos) == pos + |WireBytes(w)|
    decreases name
  {
    match w
    case End =>
      assert b[pos + 0] == [0][0];
    case Jump(target) =>
      SplitJoin(name);
      PointerStands(b, start, pos, name, target);
    case Label(text, rest) =>
      WritingStep(b, pos, base, dict, name, w);
      var next := pos + 1 + |text|;
      CompressedStands(b, start, next, base, dict[Join(name) := pos], name.rest, rest);
      LabelStands(b, start, pos, name, WireBytes(rest));
      assert |WireBytes(w)| == 1 + |text| + |WireBytes(rest)|;
  }

  /** Every suffix the writer adds to the dictionary stands in the segment it was written in. */
  lemma {:induction false} LearnedStands(
    b: seq<byte>, start: nat, pos: nat, base: Dictionary, dict: Dictionary, name: Name, w: Wire, key: Text)
    requires AreLabels(name) && w == Compress(pos, dict, name) && start <= pos
    requires DictionaryHolds(b, base, start) && OpenSuffixes(base, dict, |Join(name)|)
    requires WireOk(w) && Has(b, pos, WireBytes(w))
    requires key in Learn(pos, dict, name) && key !in dict
    ensures var at := Learn(pos, dict, name)[key];
            start <= at < pos + |WireBytes(w)| && NameAt(b, start, at, Split(key))
    decreases name
  {
    var extended := dict[Join(name) := pos];
    var next := pos + 1 + |name.text|;
    if key == Join(name) {
      FirstLearned(pos, dict, name);
      FirstLearnedStands(b, start, pos, base, dict, name, w);
    } else {
      WritingStep(b, pos, base, dict, name, w);
      LearnedStands(b, start, next, base, extended, name.rest, w.rest, key);
    }
  }

  lemma {:induction false} FirstLearned(pos: nat, dict: Dictionary, name: Name)
    requires name.Part? && Join(name) !in dict
    ensures var learned := Learn(pos, dict, name); Join(name) in learned && learned[Join(name)] == pos
  {
    LearnKeeps(pos + 1 + |name.text|, dict[Join(name) := pos], name.rest, Join(name));
  }

  lemma {:induction false} FirstLearnedStands(
    b: seq<byte>, start: nat, pos: nat, base: Dictionary, dict: Dictionary, name: Name, w: Wire)
    requires AreLabels(name) && name.Part? && w == Compress(pos, dict, name) && Join(name) !in dict
    requires DictionaryHolds(b, base, start) && OpenSuffixes(base, dict, |Join(name)|)
    requires WireOk(w) && Has(b, pos, WireBytes(w))
    ensures 0 < |WireBytes(w)| && NameAt(b, start, pos, Split(Join(name)))
  {
    CompressedStands(b, start, pos, base, dict, name, w);
    SplitJoin(name);
  }

  lemma {:induction false} LearnKeeps(offset: nat, dict: Dictionary, name: Name, key: Text)
    requires key in dict
    ensures key in Learn(offset, dict, name) && Learn(offset, dict, name)[key] == dict[key]
    decreases name
  {
    if name.Part? && Join(name) !in dict {
      LearnKeeps(offset + 1 + |name.text|, dict[Join(name) := offset], name.rest, key);
    }
  }

  /** Writing a name: it stands where it was written, every dictionary entry, old or new, stands,
      and the pointers in it go strictly below its start. */
  lemma {:induction false} NameWritten(b: seq<byte>, pos: nat, dict: Dictionary, name: Name)
    requires AreLabels(name) && DictionaryHolds(b, dict, pos)
    requires EncodeName(pos, dict, name).ok && Has(b, pos, EncodeName(pos, dict, name).bytes)
    ensures var c := EncodeName(pos, dict, name);
            && NameAt(b, pos, pos, name)
            && ParseName(b, pos) == Value(Join(name), pos + |c.bytes|)
            && DictionaryHolds(b, c.dict, pos + |c.bytes|)
  {
    var c := EncodeName(pos, dict, name);
    var w := Compress(pos, dict, name);
    CompressedStands(b, pos, pos, dict, dict, name, w);
    StandingName(b, pos, name);
    forall k | k in c.dict
      ensures c.dict[k] < pos + |c.bytes| && NameAt(b, c.dict[k], c.dict[k], Split(k))
    {
      if k in dict {
        LearnKeeps(pos, dict, name, k);
      } else {
        LearnedStands(b, pos, pos, dict, dict, name, w, k);
        NameAtLater(b, pos, c.dict[k], c.dict[k], Split(k));
      }
    }
  }

  // ---------- compression against plain encoding ----------

  lemma {:induction false} CompressedNoLonger(offset: nat, dict: Dictionary, name: Name)
    requires AreLabels(name) && Countable(name)
    ensures |WireBytes(Compress(offset, dict, name))| <= |PlainName(name)|
    decreases name
  {
    if name.Part? && Join(name) !in dict {
      CompressedNoLonger(offset + 1 + |name.text|, dict[Join(name) := offset], name.rest);
    }
  }

  predicate AllReadable(names: seq<Name>) {
    forall i :: 0 <= i < |names| ==> AreLabels(names[i]) && Readable(names[i])
  }

  function EncodeNames(offset: nat, dict: Dictionary, names: seq<Name>): (r: Chunk) {
    EncodeMany(EncodeName, offset, dict, names)
  }

  function PlainChunk(offset: nat, dict: Dictionary, name: Name): (r: Chunk) {
    Chunk(PlainName(name), dict, Readable(name))
  }

  function PlainNames(offset: nat, names: seq<Name>): (r: Chunk) {
    EncodeMany(PlainChunk, offset, map[], names)
  }

  function NameReader(b: seq<byte>): (r: nat -> Outcome<Text>) {
    (pos: nat) => ParseName(b, pos)
  }

  lemma {:induction false} NameKept(b: seq<byte>, pos: nat, dict: Dictionary, name: Name)
    requires AreLabels(name)
    ensures ItemKept(b, Standing(b), EncodeName, NameReader(b), Join, pos, dict, name)
  {
    var c := EncodeName(pos, dict, name);
    if DictionaryHolds(b, dict, pos) && c.ok && Has(b, pos, c.bytes) {
      NameWritten(b, pos, dict, name);
    }
  }

  lemma {:induction false} CompressedNamesParse(b: seq<byte>, pos: nat, dict: Dictionary, names: seq<Name>)
    requires AllReadable(names) && DictionaryHolds(b, dict, pos)
    requires EncodeNames(pos, dict, names).ok && Has(b, pos, EncodeNames(pos, dict, names).bytes)
    ensures ParseMany(NameReader(b), pos, |names|)
         == Value(MapAll(Join, names), pos + |EncodeNames(pos, dict, names).bytes|)
  {
    forall p: nat, d: Dictionary, i | 0 <= i < |names|
      ensures ItemKept(b, Standing(b), EncodeName, NameReader(b), Join, p, d, names[i])
    {
      NameKept(b, p, d, names[i]);
    }
    ManyKept(b, Standing(b), EncodeName, NameReader(b), Join, pos, dict, names);
  }

  lemma {:induction false} CompressedNamesNoLonger(
    offset: nat, dict: Dictionary, names: seq<Name>, plainOffset: nat)
    requires AllReadable(names)
    ensures |EncodeNames(offset, dict, names).bytes| <= |PlainNames(plainOffset, names).bytes|
    ensures PlainNames(plainOffset, names).ok
    decreases |names|
  {
    if names != [] {
      var c := EncodeName(offset, dict, names[0]);
      ReadableIsCountable(names[0]);
      CompressedNoLonger(offset, dict, names[0]);
      CompressedNamesNoLonger(offset + |c.bytes|, c.dict, names[1..], plainOffset + |PlainName(names[0])|);
    }
  }

  lemma {:induction false} PlainNameStands(b: seq<byte>, pos: nat, name: Name)
    requires AreLabels(name) && Readable(name) && Has(b, pos, PlainName(name))
    ensures NameAt(b, 0, pos, name) && SegmentEnd(b, pos) == pos + |PlainName(name)|
    decreases name
  {
    match name
    case Root =>
      assert b[pos + 0] == [0][0];
    case Part(text, rest) =>
      LabelStands(b, 0, pos, name, PlainName(rest));
      PlainNameStands(b, pos + 1 + |text|, rest);
  }

  lemma {:induction false} PlainNameParses(b: seq<byte>, pos: nat, name: Name)
    requires AreLabels(name) && Readable(name) && Has(b, pos, PlainName(name))
    ensures ParseName(b, pos) == Value(Join(name), pos + |PlainName(name)|)
  {
    PlainNameStands(b, pos, name);
    NameAtLater(b, 0, pos, pos, name);
    StandingName(b, pos, name);
  }

  lemma {:induction false} PlainNamesParse(b: seq<byte>, pos: nat, names: seq<Name>)
    requires AllReadable(names) && PlainNames(pos, names).ok && Has(b, pos, PlainNames(pos, names).bytes)
    ensures ParseMany(NameReader(b), pos, |names|)
         == Value(MapAll(Join, names), pos + |PlainNames(pos, names).bytes|)
  {
    var holds := (d: Dictionary, p: nat) => true;
    forall p: nat, d: Dictionary, i | 0 <= i < |names|
      ensures ItemKept(b, holds, PlainChunk, NameReader(b), Join, p, d, names[i])
    {
      if Has(b, p, PlainName(names[i])) {
        PlainNameParses(b, p, names[i]);
      }
    }
    ManyKept(b, holds, PlainChunk, NameReader(b), Join, pos, map[], names);
  }

  /** Compressing a list of names, after any header and before anything else, changes nothing a
      reader sees and never costs space. */
  lemma {:induction false} CompressionIsTransparent(header: seq<byte>, names: seq<Name>, after: seq<byte>)
    requires AllReadable(names) && EncodeNames(|header|, map[], names).ok
    ensures var c := EncodeNames(|header|, map[], names);
            var p := PlainNames(|header|, names);
            var compressed := ParseMany(NameReader(header + c.bytes + after), |header|, |names|);
            var plain := ParseMany(NameReader(header + p.bytes + after), |header|, |names|);
            && compressed.Value? && plain.Value? && compressed.value == plain.value == MapAll(Join, names)
            && |c.bytes| <= |p.bytes|
  {
    var c := EncodeNames(|header|, map[], names);
    var p := PlainNames(|header|, names);
    HasAppended(header, c.bytes, after);
    CompressedNamesParse(header + c.bytes + after, |header|, map[], names);
    CompressedNamesNoLonger(|header|, map[], names, |header|);
    HasAppended(header, p.bytes, after);
    PlainNamesParse(header + p.bytes + after, |header|, names);
  }

  // ---------- the exact limits ----------

  lemma {:induction false} FreshNameIsPlain(offset: nat, dict: Dictionary, name: Name)
    requires AreLabels(name)
    requires forall k :: k in dict ==> |k| > |Join(name)|
    ensures WireBytes(Compress(offset, dict, name)) == PlainName(name)
    decreases name
  {
    if name.Part? {
      JoinShrinks(name);
      FreshNameIsPlain(offset + 1 + |name.text|, dict[Join(name) := offset], name.rest);
    }
  }

  /** A length octet of 192 or more is read as a pointer, which ends the name two bytes on. */
  lemma {:induction false} LongLabelIsPointer(b: seq<byte>, pos: nat, part: Text, text: Text, jumps: nat)
    requires 0xC0 <= |part| <= 255 && Has(b, pos, LabelBytes(part))
    ensures var r := NameFrom(b, pos, text, jumps); r.Value? ==> r.next == pos + 2
  {
    assert b[pos + 0] == LabelBytes(part)[0];
  }

  /** With a label of 192 bytes or more, the parser never stops at the end of the name. */
  lemma {:induction false} LongLabelDerails(b: seq<byte>, pos: nat, name: Name, text: Text, jumps: nat)
    requires AreLabels(name) && Countable(name) && !Readable(name) && Has(b, pos, PlainName(name))
    ensures var r := NameFrom(b, pos, text, jumps); r.Value? ==> r.next < pos + |PlainName(name)|
    decreases name
  {
    HasSplits(b, pos, LabelBytes(name.text), PlainName(name.rest));
    if |name.text| < 0xC0 {
      LabelStands(b, 0, pos, name, PlainName(name.rest));
      StepOverLabel(b, pos, text, name.text, jumps);
      LongLabelDerails(b, pos + 1 + |name.text|, name.rest, Extend(text, name.text), jumps);
    } else {
      LongLabelIsPointer(b, pos, name.text, text, jumps);
    }
  }

  /** A first name is read back exactly when each of its labels is shorter than 192 bytes. */
  lemma {:induction false} FirstNameRoundTripsExactly(header: seq<byte>, name: Name, after: seq<byte>)
    requires AreLabels(name) && Countable(name)
    ensures var c := EncodeName(|header|, map[], name);
            ParseName(header + c.bytes + after, |header|) == Value(Join(name), |header| + |c.bytes|)
            <==> Readable(name)
  {
    var all := header + PlainName(name) + after;
    FreshNameIsPlain(|header|, map[], name);
    HasAppended(header, PlainName(name), after);
    if Readable(name) {
      PlainNameParses(all, |header|, name);
    } else {
      LongLabelDerails(all, |header|, name, [], POINTER_RANGE);
    }
  }

  // ---------- what the parser can yield ----------

  /** A short run of characters has short labels, whatever dots are in it. */
  lemma {:induction false} ShortTextIsReadable(text: Text, open: Text)
    requires |open| + |text| < 0xC0
    ensures Readable(SplitFrom(text, open))
    decreases |text|
  {
    if text != [] {
      ShortTextIsReadable(text[1..], if text[0] == DOT then [] else open + [text[0]]);
    }
  }

  /** A dot between two texts keeps their labels apart. */
  lemma {:induction false} ReadableAcrossDot(x: Text, y: Text, open: Text)
    requires Readable(SplitFrom(x, open)) && Readable(Split(y))
    ensures Readable(SplitFrom(x + [DOT] + y, open))
    decreases |x|
  {
    var all := x + [DOT] + y;
    if x == [] {
      assert all[1..] == y;
    } else {
      assert all[1..] == x[1..] + [DOT] + y;
      ReadableAcrossDot(x[1..], y, if x[0] == DOT then [] else open + [x[0]]);
    }
  }

  lemma {:induction false} ExtendIsReadable(text: Text, part: Text)
    requires Readable(Split(text)) && Readable(Split(part))
    ensures Readable(Split(Extend(text, part)))
  {
    if text != [] {
      ReadableAcrossDot(text, part, []);
    }
  }

  lemma {:induction false} ReadNameIsReadable(b: seq<byte>, pos: nat, text: Text, jumps: nat)
    requires Readable(Split(text)) && NameFrom(b, pos, text, jumps).Value?
    ensures Readable(Split(NameFrom(b, pos, text, jumps).value))
    decreases jumps, |b| - pos
  {
    if pos < |b| && b[pos] != 0 {
      if b[pos] >= 0xC0 {
        var target := Target(b[pos], b[pos + 1]);
        ReadNameIsReadable(b, target, [], jumps - 1);
        ExtendIsReadable(text, NameFrom(b, target, [], jumps - 1).value);
      } else {
        var part := b[pos + 1..pos + 1 + b[pos]];
        ShortTextIsReadable(part, []);
        ExtendIsReadable(text, part);
        ReadNameIsReadable(b, pos + 1 + b[pos], Extend(text, part), jumps);
      }
    }
  }

  /** No name the parser yields, from any buffer, has a label of 192 bytes or more. */
  lemma {:induction false} ParsedNameIsReadable(b: seq<byte>, pos: nat)
    requires ParseName(b, pos).Value?
    ensures Readable(Split(ParseName(b, pos).value))
  {
    ReadNameIsReadable(b, pos, [], POINTER_RANGE);
  }

  /** With the dictionary within a pointer's reach, only a long label can spoil a name. */
  lemma {:induction false} ReachableIsOk(pos: nat, dict: Dictionary, name: Name)
    requires AreLabels(name) && Readable(name)
    requires forall k :: k in dict && |k| <= |Join(name)| ==> dict[k] < POINTER_RANGE
    ensures WireOk(Compress(pos, dict, name))
    decreases name
  {
    if name.Part? && Join(name) !in dict {
      JoinShrinks(name);
      ReachableIsOk(pos + 1 + |name.text|, dict[Join(name) := pos], name.rest);
    }
  }

  /** A name written anywhere in a message, with or without pointers to what stands before it, is read
      back exactly when each of its labels is shorter than 192 bytes. */
  lemma {:induction false} NameRoundTripsExactly(b: seq<byte>, pos: nat, dict: Dictionary, name: Name)
    requires AreLabels(name) && DictionaryHolds(b, dict, pos)
    requires forall k :: k in dict ==> dict[k] < POINTER_RANGE
    requires Has(b, pos, EncodeName(pos, dict, name).bytes)
    ensures ParseName(b, pos) == Value(Join(name), pos + |EncodeName(pos, dict, name).bytes|) <==> Readable(name)
  {
    if Readable(name) {
      ReachableIsOk(pos, dict, name);
      NameWritten(b, pos, dict, name);
    } else if ParseName(b, pos) == Value(Join(name), pos + |EncodeName(pos, dict, name).bytes|) {
      ParsedNameIsReadable(b, pos);
      SplitJoin(name);
    }
  }

  /** The parser follows a pointer written for an offset of 0x4000 or more to a lower offset. */
  lemma {:induction false} LatePointerMisreads(b: seq<byte>, pos: nat, offset: nat)
    requires POINTER_RANGE <= offset < 2 * POINTER_RANGE && offset - POINTER_RANGE < |b|
    requires Has(b, pos, U16(PointerWord(offset))) && b[offset - POINTER_RANGE] == 0
    ensures ParseName(b, pos) == Value([], pos + 2)
  {
    var low := offset - POINTER_RANGE;
    assert PointerWord(offset) == PointerWord(low);
    PointerReadsBack(low);
    var w := U16(PointerWord(low));
    assert b[pos + 0] == w[0] && b[pos + 1] == w[1];
    assert NameFrom(b, low, [], POINTER_RANGE - 1) == Value([], low + 1);
  }

  /** Written twice after a header of 0x4000 bytes or more, a name comes back the first time only:
      the second time it is a pointer that the parser takes for one into the header. */
  lemma {:induction false} LateRepeatIsMisread(header: seq<byte>, name: Name, after: seq<byte>)
    requires AreLabels(name) && Readable(name) && name.Part?
    requires POINTER_RANGE <= |header| < 2 * POINTER_RANGE && header[|header| - POINTER_RANGE] == 0
    ensures var first := EncodeName(|header|, map[], name);
            var second := EncodeName(|header| + |first.bytes|, first.dict, name);
            var all := header + first.bytes + second.bytes + after;
            && ParseName(all, |header|) == Value(Join(name), |header| + |first.bytes|)
            && ParseName(all, |header| + |first.bytes|) == Value([], |header| + |first.bytes| + 2)
            && Join(name) != []
  {
    var first := EncodeName(|header|, map[], name);
    var next := |header| + |first.bytes|;
    var second := EncodeName(next, first.dict, name);
    LearnKeeps(|header| + 1 + |name.text|, map[Join(name) := |header|], name.rest, Join(name));
    assert second.bytes == U16(PointerWord(|header|));
    ReadableIsCountable(name);
    FirstNameRoundTripsExactly(header, name, second.bytes + after);
    var all := header + first.bytes + second.bytes + after;
    assert all == header + first.bytes + (second.bytes + after);
    HasAppended(header + first.bytes, second.bytes, after);
    assert all[|header| - POINTER_RANGE] == header[|header| - POINTER_RANGE];
    LatePointerMisreads(all, next, |header|);
    JoinShrinks(name);
  }
}
