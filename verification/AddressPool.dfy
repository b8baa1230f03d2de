/**
 The pools that hand out fake addresses: a wrapping counter between two bounds that are never
 handed out.
 */
module AddressPool {
  /** Adding one, with wrap-around. */
  function Next(x: nat, size: nat): (r: nat)
    requires x < size
    ensures r < size
  {
    if x + 1 == size then 0 else x + 1
  }

  lemma {:induction false} NextWraps(x: nat, size: nat)
    requires x < size
    ensures Next(x, size) == (x + 1) % size
  {
    if x + 1 < size {
      Remainder(size, 0, x + 1);
    } else {
      Remainder(size, 1, 0);
    }
  }

  /** An allocation: the address handed out, and where the counter is left. */
  datatype Step = Step(address: nat, counter: nat)

  /** One allocation from a pool of `size` numbers. */
  function Allocation(size: nat, lower: nat, upper: nat, counter: nat): (r: Step)
    requires lower < size && upper < size && counter < size
    ensures r.address < size && r.counter == Next(r.address, size)
  {
    var first := if counter == lower then Next(counter, size) else counter;
    var address := if first == upper then Next(lower, size) else first;
    Step(address, Next(address, size))
  }

  class Pool {
    const size: nat
    const lower: nat
    const upper: nat
    var counter: nat

    ghost predicate Valid()
      reads this
    {
      lower < size && upper < size && counter < size
    }

    constructor (size: nat, lower: nat, upper: nat)
      requires lower < size && upper < size
      ensures Valid() && this.size == size && this.lower == lower && this.upper == upper && counter == lower
    {
      this.size, this.lower, this.upper, counter := size, lower, upper, lower;
    }

    /** The counter before it is advanced, with wrap-around. */
    method LoadThenIncrement() returns (r: nat)
      requires Valid()
      modifies this`counter
      ensures Valid() && r == old(counter) && counter == Next(old(counter), size)
    {
      r := counter;
      counter := Next(counter, size);
    }

    /** Hands out an address, skipping both bounds. */
    method Allocate() returns (address: nat)
      requires Valid()
      modifies this`counter
      ensures Valid() && Step(address, counter) == Allocation(size, lower, upper, old(counter))
    {
      address := LoadThenIncrement();
      if address == lower {
        address := LoadThenIncrement();
      }
      if address == upper {
        counter := Next(lower, size);
        address := LoadThenIncrement();
      }
    }

    method Store(desired: nat)
      requires Valid() && desired < size
      modifies this`counter
      ensures Valid() && counter == desired
    {
      counter := desired;
    }
  }

  /** An allocation stays strictly between the bounds exactly when they leave room and the counter
      has not been stored outside them. */
  lemma {:induction false} InsideExactly(size: nat, lower: nat, upper: nat, counter: nat)
    requires lower < size && upper < size && counter < size
    ensures lower < Allocation(size, lower, upper, counter).address < upper <==>
              lower + 2 <= upper && lower <= counter <= upper
  {
  }

  /** Adjacent bounds: the upper one is handed out. */
  lemma {:induction false} NoRoomHandsOutUpper(size: nat, lower: nat, counter: nat)
    requires lower + 1 < size && lower <= counter <= lower + 1
    ensures Allocation(size, lower, lower + 1, counter) == Step(lower + 1, Next(lower + 1, size))
  {
  }

  /** The `i`-th address handed out from here on. */
  function Handed(size: nat, lower: nat, upper: nat, counter: nat, i: nat): (r: nat)
    requires lower < size && upper < size && counter < size
    decreases i
  {
    var step := Allocation(size, lower, upper, counter);
    if i == 0 then step.address
    else Handed(size, lower, upper, step.counter, i - 1)
  }

  ghost predicate Roomy(size: nat, lower: nat, upper: nat, counter: nat) {
    lower + 2 <= upper < size && lower <= counter <= upper
  }

  /** Which of the usable addresses comes next. */
  function Place(lower: nat, upper: nat, counter: nat): (r: nat)
    requires lower + 2 <= upper && lower <= counter <= upper
    ensures r < upper - lower - 1
  {
    if counter == lower || counter == upper then 0 else counter - lower - 1
  }

  /** `i` steps around a cycle of `n` places. */
  function Around(place: nat, i: nat, n: nat): (r: nat)
    requires place < n
    ensures r < n
    decreases i
  {
    if i == 0 then place else Around(Next(place, n), i - 1, n)
  }

  /** One allocation hands out the next usable address and moves on to the one after it. */
  lemma {:induction false} AllocationInTurn(size: nat, lower: nat, upper: nat, counter: nat)
    requires Roomy(size, lower, upper, counter)
    ensures var step := Allocation(size, lower, upper, counter);
            && step.address == lower + 1 + Place(lower, upper, counter)
            && Roomy(size, lower, upper, step.counter)
            && Place(lower, upper, step.counter) == Next(Place(lower, upper, counter), upper - lower - 1)
  {
  }

  lemma {:induction false} HandedAround(size: nat, lower: nat, upper: nat, counter: nat, i: nat)
    requires Roomy(size, lower, upper, counter)
    ensures Handed(size, lower, upper, counter, i) == lower + 1 + Around(Place(lower, upper, counter), i, upper - lower - 1)
    decreases i
  {
    AllocationInTurn(size, lower, upper, counter);
    if i > 0 {
      HandedAround(size, lower, upper, Allocation(size, lower, upper, counter).counter, i - 1);
    }
  }

  lemma {:induction false} Multiple(n: nat, d: int)
    ensures d > 0 ==> n * d >= n
    ensures d < 0 ==> n * d <= 0 - n
  {
  }

  lemma {:induction false} Remainder(n: nat, q: nat, r: nat)
    requires r < n
    ensures (n * q + r) % n == r
  {
    var m := n * q + r;
    var d := m / n - q;
    assert n * d + m % n - r == 0 by {
      assert n * (m / n) + m % n == m;
      assert n * (m / n) - n * q == n * d;
    }
    Multiple(n, d);
  }

  lemma {:induction false} NextOfRemainder(m: nat, n: nat)
    requires n > 0
    ensures (m + 1) % n == Next(m % n, n)
  {
    var q := m / n;
    if m % n == n - 1 {
      Remainder(n, q + 1, 0);
      assert m + 1 == n * (q + 1) + 0;
    } else {
      Remainder(n, q, m % n + 1);
      assert m + 1 == n * q + (m % n + 1);
    }
  }

  lemma {:induction false} AroundIsRemainder(m: nat, i: nat, n: nat)
    requires n > 0
    ensures Around(m % n, i, n) == (m + i) % n
    decreases i
  {
    if i > 0 {
      NextOfRemainder(m, n);
      AroundIsRemainder(m + 1, i - 1, n);
    }
  }

  /** The addresses strictly between the bounds are handed out in turn, over and over. */
  lemma {:induction false} HandedInTurn(size: nat, lower: nat, upper: nat, counter: nat, i: nat)
    requires Roomy(size, lower, upper, counter)
    ensures Handed(size, lower, upper, counter, i) == lower + 1 + (Place(lower, upper, counter) + i) % (upper - lower - 1)
  {
    var n, place := upper - lower - 1, Place(lower, upper, counter);
    HandedAround(size, lower, upper, counter, i);
    Remainder(n, 0, place);
    AroundIsRemainder(place, i, n);
  }

  /** Two numbers less than `n` apart have different remainders. */
  lemma {:induction false} CloseRemaindersDiffer(a: nat, b: nat, n: nat)
    requires a < b < a + n
    ensures a % n != b % n
  {
    var d := b / n - a / n;
    assert n * d == b - a - b % n + a % n by {
      assert n * (b / n) + b % n == b && n * (a / n) + a % n == a;
    }
    Multiple(n, d);
  }

  lemma {:induction false} FullTurn(m: nat, n: nat)
    requires n > 0
    ensures (m + n) % n == m % n
  {
    Remainder(n, m / n + 1, m % n);
    assert m + n == n * (m / n + 1) + m % n;
  }

  /** No address comes back before all the others between the bounds have been handed out. */
  lemma {:induction false} NoEarlyRepeat(size: nat, lower: nat, upper: nat, counter: nat, i: nat, j: nat)
    requires Roomy(size, lower, upper, counter) && i < j
    ensures j - i < upper - lower - 1 ==> Handed(size, lower, upper, counter, i) != Handed(size, lower, upper, counter, j)
    ensures j - i == upper - lower - 1 ==> Handed(size, lower, upper, counter, i) == Handed(size, lower, upper, counter, j)
  {
    var n, place := upper - lower - 1, Place(lower, upper, counter);
    HandedInTurn(size, lower, upper, counter, i);
    HandedInTurn(size, lower, upper, counter, j);
    if j - i < n {
      CloseRemaindersDiffer(place + i, place + j, n);
    } else if j - i == n {
      FullTurn(place + i, n);
    }
  }

  /** Every address strictly between the bounds is among the next `upper - lower - 1` ones. */
  lemma {:induction false} EveryAddressIsHandedOut(size: nat, lower: nat, upper: nat, counter: nat, address: nat) returns (i: nat)
    requires Roomy(size, lower, upper, counter) && lower < address < upper
    ensures i < upper - lower - 1 && Handed(size, lower, upper, counter, i) == address
  {
    var n, place := upper - lower - 1, Place(lower, upper, counter);
    var want := address - lower - 1;
    i := if want >= place then want - place else want - place + n;
    HandedInTurn(size, lower, upper, counter, i);
    if want >= place {
      Remainder(n, 0, want);
    } else {
      Remainder(n, 1, want);
    }
  }
}
