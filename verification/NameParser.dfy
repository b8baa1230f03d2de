/**
 Reading a domain name from a DNS message, following compression pointers
 (section 4.1.4 of RFC 1035). The reader has no cycle check, so the model says exactly
 when it fails to return.
 */
module NameParser {
  import opened Bytes
  import opened DomainText

  /** A pointer carries a 14-bit offset. */
  const POINTER_RANGE := 0x4000

  function Target(high: byte, low: byte): (r: nat)
    requires 0xC0 <= high
    ensures r < POINTER_RANGE
  {
    Word(high - 0xC0, low)
  }

  /** One run of the label loop from `pos`, with `text` collected so far, allowed to follow at
      most `jumps` pointers. Reaching the end of the buffer ends the name silently. */
  function NameFrom(b: seq<byte>, pos: nat, text: Text, jumps: nat): (r: Outcome<Text>)
    decreases jumps, |b| - pos
  {
    if pos >= |b| then Value(text, pos)
    else if b[pos] == 0 then Value(text, pos + 1)
    else if b[pos] >= 0xC0 then
      if pos + 1 >= |b| then Refused
      else if jumps == 0 then Diverges
      else
        var (name, _) :- NameFrom(b, Target(b[pos], b[pos + 1]), [], jumps - 1);
        Value(Extend(text, name), pos + 2)
    else if pos + 1 + b[pos] > |b| then Refused
    else NameFrom(b, pos + 1 + b[pos], Extend(text, b[pos + 1..pos + 1 + b[pos]]), jumps)
  }

  /** Reading a name. 0x4000 jumps are as good as any number: see `JumpBoundIsExact`. */
  function ParseName(b: seq<byte>, pos: nat): (r: Outcome<Text>) {
    NameFrom(b, pos, [], POINTER_RANGE)
  }

  // ---------- when reading a name returns ----------

  /** The target of the pointer that ends the run of labels at `pos`, if one does. */
  function JumpTarget(b: seq<byte>, pos: nat): (r: Option<nat>)
    ensures r.Some? ==> r.value < POINTER_RANGE
    decreases |b| - pos
  {
    if pos >= |b| || b[pos] == 0 then None
    else if b[pos] >= 0xC0 then
      if pos + 1 < |b| then Some(Target(b[pos], b[pos + 1])) else None
    else if pos + 1 + b[pos] > |b| then None
    else JumpTarget(b, pos + 1 + b[pos])
  }

  /** Where `k` pointer jumps from `pos` lead, if that many are made. */
  function Hop(b: seq<byte>, pos: nat, k: nat): (r: Option<nat>)
    ensures k > 0 && r.Some? ==> r.value < POINTER_RANGE
    decreases k
  {
    if k == 0 then Some(pos)
    else
      match JumpTarget(b, pos)
      case None => None
      case Some(t) => Hop(b, t, k - 1)
  }

  /** Some segment start is reached twice. */
  ghost predicate HasPointerCycle(b: seq<byte>, pos: nat) {
    exists i: nat, j: nat :: 0 < i < j && Hop(b, pos, i).Some? && Hop(b, pos, i) == Hop(b, pos, j)
  }

  lemma {:induction false} DivergesWhenJumpsRunOut(b: seq<byte>, pos: nat, text: Text, jumps: nat)
    ensures NameFrom(b, pos, text, jumps) == Diverges <==> Hop(b, pos, jumps + 1).Some?
    decreases jumps, |b| - pos
  {
    if pos < |b| && b[pos] != 0 {
      if b[pos] >= 0xC0 {
        if pos + 1 < |b| && jumps > 0 {
          DivergesWhenJumpsRunOut(b, Target(b[pos], b[pos + 1]), [], jumps - 1);
        }
      } else if pos + 1 + b[pos] <= |b| {
        DivergesWhenJumpsRunOut(b, pos + 1 + b[pos], Extend(text, b[pos + 1..pos + 1 + b[pos]]), jumps);
      }
    }
  }

  /** A run that returns is not changed by allowing more jumps. */
  lemma {:induction false} MoreJumpsAgree(b: seq<byte>, pos: nat, text: Text, few: nat, many: nat)
    requires few <= many && NameFrom(b, pos, text, few) != Diverges
    ensures NameFrom(b, pos, text, many) == NameFrom(b, pos, text, few)
    decreases few, |b| - pos
  {
    if pos < |b| && b[pos] != 0 {
      if b[pos] >= 0xC0 {
        if pos + 1 < |b| {
          MoreJumpsAgree(b, Target(b[pos], b[pos + 1]), [], few - 1, many - 1);
        }
      } else if pos + 1 + b[pos] <= |b| {
        MoreJumpsAgree(b, pos + 1 + b[pos], Extend(text, b[pos + 1..pos + 1 + b[pos]]), few, many);
      }
    }
  }

  lemma {:induction false} HopsCompose(b: seq<byte>, pos: nat, i: nat, j: nat)
    requires Hop(b, pos, i).Some?
    ensures Hop(b, pos, i + j) == Hop(b, Hop(b, pos, i).value, j)
    decreases i
  {
    if i > 0 {
      HopsCompose(b, JumpTarget(b, pos).value, i - 1, j);
    }
  }

  lemma {:induction false} FewerHops(b: seq<byte>, pos: nat, i: nat, k: nat)
    requires i <= k && Hop(b, pos, k).Some?
    ensures Hop(b, pos, i).Some?
    decreases i
  {
    if i > 0 {
      FewerHops(b, JumpTarget(b, pos).value, i - 1, k - 1);
    }
  }

  /** A segment that leads back to itself is left never. */
  lemma {:induction false} LoopGoesOn(b: seq<byte>, p: nat, period: nat, k: nat)
    requires period > 0 && Hop(b, p, period) == Some(p)
    ensures Hop(b, p, k).Some?
    decreases k
  {
    if k <= period {
      FewerHops(b, p, k, period);
    } else {
      HopsCompose(b, p, period, k - period);
      LoopGoesOn(b, p, period, k - period);
    }
  }

  lemma {:induction false} CycleGoesOn(b: seq<byte>, pos: nat, i: nat, j: nat, k: nat)
    requires i < j && Hop(b, pos, i).Some? && Hop(b, pos, i) == Hop(b, pos, j)
    ensures Hop(b, pos, k).Some?
  {
    if k <= i {
      FewerHops(b, pos, k, i);
    } else {
      var p := Hop(b, pos, i).value;
      HopsCompose(b, pos, i, j - i);
      LoopGoesOn(b, p, j - i, k - i);
      HopsCompose(b, pos, i, k - i);
    }
  }

  /** More than `n` numbers below `n` repeat. */
  lemma {:induction false} Pigeonhole(s: seq<nat>, n: nat) returns (i: nat, j: nat)
    requires |s| > n && forall x :: x in s ==> x < n
    ensures i < j < |s| && s[i] == s[j]
    decreases n
  {
    assert s[0] in s;
    var last := |s| - 1;
    if k :| 0 <= k < last && s[k] == s[last] {
      return k, last;
    }
    // The last value occurs once: rename n - 1 to it and drop it.
    var v := s[last];
    var t := seq(last, m requires 0 <= m < last => if s[m] == n - 1 then v else s[m]);
    forall x | x in t ensures x < n - 1 {
      var m :| 0 <= m < last && t[m] == x;
      assert s[m] in s && s[last] in s;
    }
    i, j := Pigeonhole(t, n - 1);
  }

  /** More than 0x4000 jumps visit some offset twice. */
  lemma {:induction false} ManyHopsRepeat(b: seq<byte>, pos: nat)
    requires Hop(b, pos, POINTER_RANGE + 1).Some?
    ensures HasPointerCycle(b, pos)
  {
    forall k: nat | k <= POINTER_RANGE + 1 ensures Hop(b, pos, k).Some? {
      FewerHops(b, pos, k, POINTER_RANGE + 1);
    }
    var visited := seq(POINTER_RANGE + 1, k requires 0 <= k <= POINTER_RANGE => Hop(b, pos, k + 1).value);
    var i, j := Pigeonhole(visited, POINTER_RANGE);
    assert Hop(b, pos, i + 1) == Hop(b, pos, j + 1);
  }

  /** Reading a name fails to return exactly when the pointers from it form a cycle. */
  lemma {:induction false} DivergesExactlyOnCycle(b: seq<byte>, pos: nat)
    ensures ParseName(b, pos) == Diverges <==> HasPointerCycle(b, pos)
    ensures ParseName(b, pos) == Diverges <==> forall k: nat :: Hop(b, pos, k).Some?
  {
    DivergesWhenJumpsRunOut(b, pos, [], POINTER_RANGE);
    if ParseName(b, pos) == Diverges {
      ManyHopsRepeat(b, pos);
    }
    if HasPointerCycle(b, pos) {
      var i: nat, j: nat :| 0 < i < j && Hop(b, pos, i).Some? && Hop(b, pos, i) == Hop(b, pos, j);
      forall k: nat ensures Hop(b, pos, k).Some? {
        CycleGoesOn(b, pos, i, j, k);
      }
    }
  }

  /** Allowing more than 0x4000 jumps never changes the outcome. */
  lemma {:induction false} JumpBoundIsExact(b: seq<byte>, pos: nat, jumps: nat)
    requires POINTER_RANGE <= jumps
    ensures NameFrom(b, pos, [], jumps) == ParseName(b, pos)
  {
    if ParseName(b, pos) == Diverges {
      DivergesExactlyOnCycle(b, pos);
      DivergesWhenJumpsRunOut(b, pos, [], jumps);
    } else {
      MoreJumpsAgree(b, pos, [], POINTER_RANGE, jumps);
    }
  }

  /** Each pointer met in reading the name at `pos` goes strictly below the start of the segment it
      ends. */
  ghost predicate DescendsFrom(b: seq<byte>, pos: nat) {
    forall k: nat :: k > 0 && Hop(b, pos, k).Some? ==>
      Hop(b, pos, k - 1).Some? && Hop(b, pos, k).value < Hop(b, pos, k - 1).value
  }

  lemma {:induction false} DescendingHops(b: seq<byte>, pos: nat, k: nat)
    requires DescendsFrom(b, pos) && Hop(b, pos, k).Some?
    ensures Hop(b, pos, k).value + k <= pos
    decreases k
  {
    if k > 0 {
      DescendingHops(b, pos, k - 1);
    }
  }

  /** Where the segments met only point below themselves, reading the name returns. */
  lemma {:induction false} DescendingPointersReturn(b: seq<byte>, pos: nat)
    requires DescendsFrom(b, pos)
    ensures ParseName(b, pos) != Diverges
  {
    if ParseName(b, pos) == Diverges {
      DivergesExactlyOnCycle(b, pos);
      DescendingHops(b, pos, pos + 1);
    }
  }
}
