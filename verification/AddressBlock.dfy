/**
 Blocks of addresses written as an address and a prefix length, computed with bit masks: which
 addresses a block contains, how many, and what a pool over a block hands out.
 */
module AddressBlock {
  import Pools = AddressPool

  /** An address, most significant bit first: 32 bits, or 128. */
  type Bits = seq<bool>

  function Power(n: nat): (r: nat)
    ensures r > 0
  {
    if n == 0 then 1 else 2 * Power(n - 1)
  }

  function Number(b: Bits): (r: nat)
    ensures r < Power(|b|)
  {
    if b == [] then 0 else (if b[0] then Power(|b| - 1) else 0) + Number(b[1..])
  }

  /** All ones shifted left by `width - prefix`. */
  function Mask(width: nat, prefix: nat): (r: Bits) {
    seq(width, i => i < prefix)
  }

  function And(a: Bits, b: Bits): (r: Bits)
    requires |a| == |b|
  {
    seq(|a|, i requires 0 <= i < |a| => a[i] && b[i])
  }

  function Or(a: Bits, b: Bits): (r: Bits)
    requires |a| == |b|
  {
    seq(|a|, i requires 0 <= i < |a| => a[i] || b[i])
  }

  function Not(a: Bits): (r: Bits) {
    seq(|a|, i requires 0 <= i < |a| => !a[i])
  }

  function Lower(address: Bits, prefix: nat): (r: Bits)
    ensures |r| == |address|
  {
    And(address, Mask(|address|, prefix))
  }

  function Upper(address: Bits, prefix: nat): (r: Bits)
    ensures |r| == |address|
  {
    Or(address, Not(Mask(|address|, prefix)))
  }

  predicate Contains(address: Bits, prefix: nat, other: Bits) {
    Number(Lower(address, prefix)) <= Number(other) <= Number(Upper(address, prefix))
  }

  lemma {:induction false} BoundsStep(address: Bits, prefix: nat)
    requires address != []
    ensures Lower(address, prefix)[1..] == Lower(address[1..], if prefix == 0 then 0 else prefix - 1)
    ensures Upper(address, prefix)[1..] == Upper(address[1..], if prefix == 0 then 0 else prefix - 1)
    ensures Lower(address, prefix)[0] == (address[0] && prefix > 0)
    ensures Upper(address, prefix)[0] == (address[0] || prefix == 0)
  {
  }

  /** Without a prefix the bounds are all zeros and all ones. */
  lemma {:induction false} WholeBlock(address: Bits)
    ensures Number(Lower(address, 0)) == 0
    ensures Number(Upper(address, 0)) == Power(|address|) - 1
  {
    if address != [] {
      BoundsStep(address, 0);
      WholeBlock(address[1..]);
    }
  }

  /** A block of a prefix holds two to the number of remaining bits. */
  lemma {:induction false} BlockSize(address: Bits, prefix: nat)
    requires prefix <= |address|
    ensures Number(Upper(address, prefix)) - Number(Lower(address, prefix)) + 1 == Power(|address| - prefix)
    decreases prefix
  {
    if prefix == 0 {
      WholeBlock(address);
    } else {
      BoundsStep(address, prefix);
      BlockSize(address[1..], prefix - 1);
    }
  }

  lemma {:induction false} NumberIsInjective(a: Bits, b: Bits)
    requires |a| == |b| && Number(a) == Number(b)
    ensures a == b
  {
    if a != [] {
      assert a[0] == b[0];
      NumberIsInjective(a[1..], b[1..]);
      assert a == [a[0]] + a[1..] && b == [b[0]] + b[1..];
    }
  }

  /** The range check is exactly agreement on the leading bits. */
  lemma {:induction false} ContainsExactly(address: Bits, prefix: nat, other: Bits)
    requires prefix <= |address| == |other|
    ensures Contains(address, prefix, other) <==> other[..prefix] == address[..prefix]
    decreases prefix
  {
    if prefix == 0 {
      WholeBlock(address);
    } else {
      BoundsStep(address, prefix);
      ContainsExactly(address[1..], prefix - 1, other[1..]);
      PrefixStep(address, other, prefix);
    }
  }

  lemma {:induction false} PrefixStep(a: Bits, b: Bits, n: nat)
    requires 0 < n <= |a| == |b|
    ensures a[..n] == b[..n] <==> a[0] == b[0] && a[1..][..n - 1] == b[1..][..n - 1]
  {
    assert a[..n] == [a[0]] + a[1..][..n - 1] && b[..n] == [b[0]] + b[1..][..n - 1];
    assert a[..n][0] == a[0] && b[..n][0] == b[0];
    assert a[..n][1..] == a[1..][..n - 1] && b[..n][1..] == b[1..][..n - 1];
  }

  lemma {:induction false} FirstStaysInBlock(address: Bits, prefix: nat)
    requires prefix <= |address|
    ensures var lower, upper := Number(Lower(address, prefix)), Number(Upper(address, prefix));
            lower < Pools.Allocation(Power(|address|), lower, upper, lower).address < upper <==> prefix + 2 <= |address|
  {
    var lower, upper := Number(Lower(address, prefix)), Number(Upper(address, prefix));
    var hosts := |address| - prefix;
    BlockSize(address, prefix);
    Pools.InsideExactly(Power(|address|), lower, upper, lower);
    if hosts >= 2 {
      assert Power(hosts) == 4 * Power(hosts - 2);
    } else {
      assert Power(0) == 1 && Power(1) == 2;
    }
  }

  /** A fresh pool over a block never hands out the block's first or last address, nor one outside the
      block, exactly when at least two bits are left for hosts. */
  lemma {:induction false} PoolStaysInBlock(address: Bits, prefix: nat)
    requires prefix <= |address|
    ensures var lower, upper := Number(Lower(address, prefix)), Number(Upper(address, prefix));
            (forall i: nat :: lower < Pools.Handed(Power(|address|), lower, upper, lower, i) < upper) <==> prefix + 2 <= |address|
  {
    var size, lower, upper := Power(|address|), Number(Lower(address, prefix)), Number(Upper(address, prefix));
    FirstStaysInBlock(address, prefix);
    assert Pools.Handed(size, lower, upper, lower, 0) == Pools.Allocation(size, lower, upper, lower).address;
    if prefix + 2 <= |address| {
      Pools.InsideExactly(size, lower, upper, lower);
      forall i: nat ensures lower < Pools.Handed(size, lower, upper, lower, i) < upper {
        Pools.HandedAround(size, lower, upper, lower, i);
      }
    }
  }

  /** A fresh pool over such a block hands out each usable address of the block once before any
      comes back: all of those that share the prefix, but the first and the last. */
  lemma {:induction false} PoolEnumeratesBlock(address: Bits, prefix: nat, other: Bits) returns (i: nat)
    requires prefix + 2 <= |address| == |other| && other[..prefix] == address[..prefix]
    requires other != Lower(address, prefix) && other != Upper(address, prefix)
    ensures i < Power(|address| - prefix) - 2
    ensures var lower, upper := Number(Lower(address, prefix)), Number(Upper(address, prefix));
            Pools.Handed(Power(|address|), lower, upper, lower, i) == Number(other)
  {
    var lower, upper := Number(Lower(address, prefix)), Number(Upper(address, prefix));
    FirstStaysInBlock(address, prefix);
    Pools.InsideExactly(Power(|address|), lower, upper, lower);
    ContainsExactly(address, prefix, other);
    BlockSize(address, prefix);
    if Number(other) == lower {
      NumberIsInjective(other, Lower(address, prefix));
    }
    if Number(other) == upper {
      NumberIsInjective(other, Upper(address, prefix));
    }
    i := Pools.EveryAddressIsHandedOut(Power(|address|), lower, upper, lower, Number(other));
  }
}
