/**
 Dotted domain names as the text the message types carry: a string is the sequence of its
 UTF-8 bytes. Splitting drops empty labels, as Swift's `split(separator:)` does by default.
 */
module DomainText {
  import opened Bytes

  type Text = seq<byte>

  const DOT: byte := 46

  /** A name as its labels, from the leftmost to the root. */
  datatype Name = Root | Part(text: Text, rest: Name)

  predicate IsLabel(text: Text) {
    text != [] && DOT !in text
  }

  predicate AreLabels(name: Name) {
    name.Part? ==> IsLabel(name.text) && AreLabels(name.rest)
  }

  function Join(name: Name): (r: Text) {
    match name
    case Root => []
    case Part(text, rest) => if rest == Root then text else text + [DOT] + Join(rest)
  }

  /** The parser's way of extending a name by one more label (or by a pointed-to name). */
  function Extend(text: Text, part: Text): (r: Text) {
    if text == [] then part else text + [DOT] + part
  }

  /** Closes the label collected so far, unless it is empty. */
  function Close(open: Text, rest: Name): (r: Name) {
    if open == [] then rest else Part(open, rest)
  }

  /** Splits `text`, with `open` the characters of the label being collected. */
  function SplitFrom(text: Text, open: Text): (r: Name)
    decreases |text|
  {
    if text == [] then Close(open, Root)
    else if text[0] == DOT then Close(open, SplitFrom(text[1..], []))
    else SplitFrom(text[1..], open + [text[0]])
  }

  function Split(text: Text): (r: Name) {
    SplitFrom(text, [])
  }

  /** The name without its empty labels. */
  function Canonical(text: Text): (r: Text) {
    Join(Split(text))
  }

  /** No empty label: the text does not start or end with a dot and has no two dots in a row. */
  predicate IsTidy(text: Text) {
    && (text != [] ==> text[0] != DOT && text[|text| - 1] != DOT)
    && forall i :: 0 <= i < |text| - 1 ==> text[i] != DOT || text[i + 1] != DOT
  }

  lemma {:induction false} DotIsFullStop()
    ensures DOT == '.' as int
  {
  }

  lemma {:induction false} SplitFromGivesLabels(text: Text, open: Text)
    requires DOT !in open
    ensures AreLabels(SplitFrom(text, open))
    decreases |text|
  {
    if text != [] {
      SplitFromGivesLabels(text[1..], if text[0] == DOT then [] else open + [text[0]]);
    }
  }

  /** Every label that `Split` yields is non-empty and free of dots. */
  lemma {:induction false} SplitGivesLabels(text: Text)
    ensures AreLabels(Split(text))
  {
    SplitFromGivesLabels(text, []);
  }

  /** A dot-free run of characters is collected into the open label. */
  lemma {:induction false} SplitFromCollects(run: Text, rest: Text, open: Text)
    requires DOT !in run
    ensures SplitFrom(run + rest, open) == SplitFrom(rest, open + run)
    decreases |run|
  {
    if run == [] {
      assert run + rest == rest && open + run == open;
    } else {
      assert (run + rest)[1..] == run[1..] + rest;
      SplitFromCollects(run[1..], rest, open + [run[0]]);
      assert open + [run[0]] + run[1..] == open + run;
    }
  }

  /** Splitting undoes joining. */
  lemma {:induction false} SplitJoin(name: Name)
    requires AreLabels(name)
    ensures Split(Join(name)) == name
  {
    match name
    case Root =>
    case Part(text, rest) =>
      assert [] + text == text;
      if rest == Root {
        SplitFromCollects(text, [], []);
        assert text + [] == text;
      } else {
        SplitJoin(rest);
        SplitFromCollects(text, [DOT] + Join(rest), []);
        assert Join(name) == text + ([DOT] + Join(rest));
        assert ([DOT] + Join(rest))[1..] == Join(rest);
      }
  }

  /** Joining is injective on labels, so a dictionary keyed by joined suffixes is unambiguous. */
  lemma {:induction false} JoinInjective(a: Name, b: Name)
    requires AreLabels(a) && AreLabels(b)
    ensures Join(a) == Join(b) <==> a == b
  {
    SplitJoin(a);
    SplitJoin(b);
  }

  /** Canonical names have the same labels, and making a name canonical twice changes nothing. */
  lemma {:induction false} CanonicalKeepsLabels(text: Text)
    ensures Split(Canonical(text)) == Split(text)
    ensures Canonical(Canonical(text)) == Canonical(text)
  {
    SplitGivesLabels(text);
    SplitJoin(Split(text));
  }

  /** Dropping the first label shortens the text. */
  lemma {:induction false} JoinShrinks(name: Name)
    requires AreLabels(name) && name.Part?
    ensures |Join(name.rest)| < |Join(name)|
  {
  }

  /** Extending a name label by label builds the joined name. */
  lemma {:induction false} JoinExtends(text: Text, name: Name)
    requires AreLabels(name) && name.Part?
    ensures Extend(text, Join(name))
         == if name.rest == Root then Extend(text, name.text)
            else Extend(Extend(text, name.text), Join(name.rest))
  {
  }

  /** Joined names have no empty label. */
  lemma {:induction false} JoinIsTidy(name: Name)
    requires AreLabels(name)
    ensures IsTidy(Join(name))
  {
    if name.Part? {
      var text := name.text;
      assert text[0] in text && text[|text| - 1] in text;
      if name.rest != Root {
        JoinIsTidy(name.rest);
        JoinShrinks(name.rest);
        TidyConcat(text, Join(name.rest));
      }
    }
  }

  lemma {:induction false} TidyConcat(text: Text, rest: Text)
    requires IsLabel(text) && rest != [] && IsTidy(rest)
    ensures IsTidy(text + [DOT] + rest)
  {
    var j := text + [DOT] + rest;
    var n := |text|;
    assert forall i :: 0 <= i < n ==> j[i] == text[i];
    forall i | 0 <= i < |j| - 1 ensures j[i] != DOT || j[i + 1] != DOT {
      if i > n {
        assert j[i] == rest[i - n - 1] && j[i + 1] == rest[i - n];
      }
    }
    assert j[|j| - 1] == rest[|rest| - 1];
  }

  lemma {:induction false} TidyRejoins(text: Text, open: Text)
    requires DOT !in open
    requires text != [] && text[0] == DOT ==> open != [] && |text| > 1
    requires IsTidy(open + text)
    ensures Join(SplitFrom(text, open)) == open + text
    decreases |text|
  {
    var whole := open + text;
    if text == [] {
      assert whole == open;
    } else if text[0] == DOT {
      var tail := text[1..];
      assert whole[|open|] == DOT && whole[|open| + 1] == text[1];
      TidySuffix(whole, |open| + 1);
      assert whole[|open| + 1..] == tail == [] + tail;
      TidyRejoins(tail, []);
      assert SplitFrom(tail, []) != Root;
    } else {
      assert (open + [text[0]]) + text[1..] == whole;
      assert whole[|whole| - 1] == text[|text| - 1];
      TidyRejoins(text[1..], open + [text[0]]);
    }
  }

  lemma {:induction false} TidySuffix(text: Text, n: nat)
    requires IsTidy(text) && n < |text| && text[n] != DOT
    ensures IsTidy(text[n..])
  {
    var tail := text[n..];
    assert tail[|tail| - 1] == text[|text| - 1];
    forall i | 0 <= i < |tail| - 1 ensures tail[i] != DOT || tail[i + 1] != DOT {
      assert tail[i] == text[n + i] && tail[i + 1] == text[n + i + 1];
    }
  }

  /** A name survives split and join exactly when it has no empty label. */
  lemma {:induction false} CanonicalExactlyTidy(text: Text)
    ensures Canonical(text) == text <==> IsTidy(text)
  {
    SplitGivesLabels(text);
    if Canonical(text) == text {
      JoinIsTidy(Split(text));
    }
    if IsTidy(text) {
      assert [] + text == text;
      TidyRejoins(text, []);
    }
  }
}
