/**
 The Internet checksum: the one's complement of the folded sum of 16-bit words, with the checksum
 field itself left out of the sum.
 */
module Checksum {
  import opened Bytes

  type Octets = seq<byte>

  /** The 16-bit word at a position; a missing last octet counts as zero. */
  function WordAt(data: Octets, i: nat): (r: u16)
    requires i < |data|
  {
    Word(data[i], if i + 1 < |data| then data[i + 1] else 0)
  }

  /** The sum of the words from a position on, without the one at `skip`. */
  function SumFrom(data: Octets, skip: int, i: nat): (r: nat)
    decreases |data| - i
  {
    if i >= |data| then 0
    else (if i == skip then 0 else WordAt(data, i)) + SumFrom(data, skip, i + 2)
  }

  function Sum(data: Octets, skip: int): (r: nat) {
    SumFrom(data, skip, 0)
  }

  /** The one's complement value of a sum: its residue modulo 0xFFFF, where only an empty sum is 0. */
  function Residue(sum: nat): (r: u16) {
    if sum == 0 then 0 else 1 + (sum - 1) % 0xFFFF
  }

  /** What a receiver checks: all words, the checksum among them, add up to all ones. */
  predicate Verifies(data: Octets) {
    Residue(Sum(data, -1)) == 0xFFFF
  }

  /** Adding `0xFFFF` or a multiple of it to a sum that is not empty changes nothing. */
  lemma {:induction false} ResidueOfFold(sum: nat)
    requires sum >= 0x1_0000
    ensures Residue(sum % 0x1_0000 + sum / 0x1_0000) == Residue(sum)
    ensures sum % 0x1_0000 + sum / 0x1_0000 < sum
  {
    var high, low := sum / 0x1_0000, sum % 0x1_0000;
    assert sum - 1 == (low + high - 1) + 0xFFFF * high;
  }

  /** Two rounds of folding are enough for any 32-bit sum. */
  lemma {:induction false} TwoRoundsSuffice(sum: u32)
    ensures var once := sum % 0x1_0000 + sum / 0x1_0000; once % 0x1_0000 + once / 0x1_0000 < 0x1_0000
  {
    var once := sum % 0x1_0000 + sum / 0x1_0000;
    assert once <= 0x1_FFFE;
  }

  lemma {:induction false} SumIsSmall(data: Octets, skip: int, i: nat)
    ensures 2 * SumFrom(data, skip, i) <= 0xFFFF * (if i < |data| then |data| - i + 1 else 0)
    decreases |data| - i
  {
    if i < |data| {
      SumIsSmall(data, skip, i + 2);
    }
  }

  /** The sum of a whole packet and its pseudo header fits in 32 bits. */
  lemma {:induction false} SumFits(data: Octets, skip: int)
    requires |data| <= 0xFFFF + 13
    ensures Sum(data, skip) < 0x1_0000_0000
  {
    SumIsSmall(data, skip, 0);
  }

  lemma {:induction false} ResidueOfSmall(sum: nat)
    requires sum < 0x1_0000
    ensures Residue(sum) == sum
  {
  }

  /** Folds a 32-bit sum to 16 bits. */
  method FoldSum(total: u32) returns (r: u16)
    ensures r == Residue(total)
  {
    var sum := total;
    while sum >= 0x1_0000
      invariant 0 <= sum < 0x1_0000_0000 && Residue(sum) == Residue(total)
      decreases sum
    {
      ResidueOfFold(sum);
      sum := sum % 0x1_0000 + sum / 0x1_0000;
    }
    ResidueOfSmall(sum);
    r := sum;
  }

  /** The checksum as it is computed: adding in 32 bits traps on overflow. */
  method ComputeChecksum(data: Octets, skip: int) returns (r: u16)
    requires Sum(data, skip) < 0x1_0000_0000
    ensures r == 0xFFFF - Residue(Sum(data, skip))
  {
    var sum: u32 := 0;
    var i := 0;
    while i < |data|
      invariant 0 <= i && sum + SumFrom(data, skip, i) == Sum(data, skip)
    {
      if i == skip {
        i := i + 2;
        continue;
      }
      sum := sum + WordAt(data, i);
      i := i + 2;
    }
    var folded := FoldSum(sum);
    r := 0xFFFF - folded;
  }

  /** The data with another word at a position. */
  function SetWord(data: Octets, at: nat, v: u16): (r: Octets)
    requires at + 1 < |data|
    ensures |r| == |data| && r[at] == v / 256 && r[at + 1] == v % 256 && WordAt(r, at) == v
    ensures forall i :: 0 <= i < |data| && i != at && i != at + 1 ==> r[i] == data[i]
  {
    data[at := v / 256][at + 1 := v % 256]
  }

  /** Data that agree outside a word have the same sum without that word. */
  lemma {:induction false} SumsAgree(a: Octets, b: Octets, at: nat, i: nat)
    requires |a| == |b| && at + 1 < |a| && at % 2 == i % 2
    requires forall k :: 0 <= k < |a| && k != at && k != at + 1 ==> a[k] == b[k]
    ensures SumFrom(a, at, i) == SumFrom(b, at, i)
    decreases |a| - i
  {
    if i < |a| {
      assert i != at + 1 && i + 1 != at;
      if i != at {
        assert WordAt(a, i) == WordAt(b, i);
      }
      SumsAgree(a, b, at, i + 2);
    }
  }

  lemma {:induction false} SumWithField(data: Octets, at: nat, i: nat)
    requires at + 1 < |data| && at % 2 == i % 2
    ensures SumFrom(data, -1, i) == SumFrom(data, at, i) + if i <= at then WordAt(data, at) else 0
    decreases |data| - i
  {
    if i < |data| {
      SumWithField(data, at, i + 2);
    }
  }

  lemma {:induction false} SumAfterSetting(data: Octets, at: nat, v: u16)
    requires at + 1 < |data| && at % 2 == 0
    ensures Sum(SetWord(data, at, v), -1) == Sum(data, at) + v
  {
    var r := SetWord(data, at, v);
    SumsAgree(data, r, at, 0);
    SumWithField(r, at, 0);
  }

  lemma {:induction false} ResidueIsFull(sum: nat, v: u16)
    ensures var c := 0xFFFF - Residue(sum);
            Residue(sum + v) == 0xFFFF <==> v == c || (c == 0 && v == 0xFFFF)
  {
    if sum > 0 {
      var q, m := (sum - 1) / 0xFFFF, (sum - 1) % 0xFFFF;
      assert sum + v - 1 == 0xFFFF * q + (m + v);
      if m + v < 0xFFFF {
        assert (sum + v - 1) % 0xFFFF == m + v;
      } else if m + v < 2 * 0xFFFF {
        assert sum + v - 1 == 0xFFFF * (q + 1) + (m + v - 0xFFFF);
        assert (sum + v - 1) % 0xFFFF == m + v - 0xFFFF;
      }
    }
  }

  /** Exactly the computed checksum makes the data verify (and all ones does where that is zero). */
  lemma {:induction false} VerifiesExactly(data: Octets, at: nat, v: u16)
    requires at + 1 < |data| && at % 2 == 0
    ensures var c := 0xFFFF - Residue(Sum(data, at));
            Verifies(SetWord(data, at, v)) <==> v == c || (c == 0 && v == 0xFFFF)
  {
    SumAfterSetting(data, at, v);
    ResidueIsFull(Sum(data, at), v);
  }

  /** A change to one word of data that verify is noticed, unless it turns all zeros into all ones or
      back. */
  lemma {:induction false} ChangedWordIsNoticed(data: Octets, at: nat, v: u16)
    requires Verifies(data) && at + 1 < |data| && at % 2 == 0 && v != WordAt(data, at)
    ensures Verifies(SetWord(data, at, v)) ==> {v, WordAt(data, at)} == {0, 0xFFFF}
  {
    var w := WordAt(data, at);
    assert SetWord(data, at, w) == data;
    VerifiesExactly(data, at, w);
    VerifiesExactly(data, at, v);
  }

  /** What the residue means: congruent to the sum modulo 0xFFFF, and zero only for an empty sum. */
  lemma {:induction false} ResidueMeaning(sum: nat)
    ensures (sum - Residue(sum)) % 0xFFFF == 0 && 0 <= Residue(sum) <= 0xFFFF && (Residue(sum) == 0 <==> sum == 0)
  {
    if sum > 0 {
      var q := (sum - 1) / 0xFFFF;
      assert sum - Residue(sum) == 0xFFFF * q;
    }
  }

  lemma {:induction false} SumOfTail(x: Octets, y: Octets, i: nat)
    ensures SumFrom(x + y, -1, |x| + i) == SumFrom(y, -1, i)
    decreases |y| - i
  {
    if i < |y| {
      SumOfTail(x, y, i + 2);
      assert WordAt(x + y, |x| + i) == WordAt(y, i);
    }
  }

  /** `n` words of `x` are left from `i` on. */
  lemma {:induction false} SumSplitsFrom(x: Octets, y: Octets, i: nat, n: nat)
    requires |x| == i + 2 * n
    ensures SumFrom(x + y, -1, i) == SumFrom(x, -1, i) + Sum(y, -1)
    decreases n
  {
    if n > 0 {
      assert WordAt(x + y, i) == WordAt(x, i);
      SumSplitsFrom(x, y, i + 2, n - 1);
    } else {
      SumOfTail(x, y, 0);
    }
  }

  /** The sum of data made of whole words and more data is the sum of the two. */
  lemma {:induction false} SumSplits(x: Octets, y: Octets)
    requires |x| % 2 == 0
    ensures Sum(x + y, -1) == Sum(x, -1) + Sum(y, -1)
  {
    SumSplitsFrom(x, y, 0, |x| / 2);
  }

  /** One word, and one octet alone, in numbers. */
  lemma {:induction false} SumOfWord(high: byte, low: byte)
    ensures Sum([high, low], -1) == 256 * (high as int) + low && Sum([high], -1) == 256 * (high as int) && Sum([], -1) == 0
  {
    assert SumFrom([high, low], -1, 2) == 0 && SumFrom([high], -1, 2) == 0;
  }
}
