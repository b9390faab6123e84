/** What the ring buffers share: which sequence number a slot holds, and the bit masks frames carry. */
module Rings {
  import opened Bytes

  /** The largest sequence number in 1..n that maps to slot i of a ring of `capacity` slots; 0 if none. */
  function Latest(i: nat, n: nat, capacity: nat): (k: nat)
    requires capacity > 0
    ensures k <= n
  {
    if n == 0 then 0 else if n % capacity == i then n else Latest(i, n - 1, capacity)
  }

  lemma {:induction false} LatestIsLargest(i: nat, n: nat, capacity: nat, k: nat)
    requires capacity > 0 && 1 <= k <= n && k % capacity == i
    ensures k <= Latest(i, n, capacity) && Latest(i, n, capacity) % capacity == i
  {
    if n % capacity != i {
      LatestIsLargest(i, n - 1, capacity, k);
    }
  }

  /** Two sequence numbers in the same slot are at least a whole ring apart. */
  lemma SameSlotApart(h: nat, k: nat, capacity: nat)
    requires capacity > 0 && h < k && h % capacity == k % capacity
    ensures h + capacity <= k
  {
    var q, q', rest := h / capacity, k / capacity, h % capacity;
    assert h == capacity * q + rest && k == capacity * q' + rest;
    if q' < q {
      MulStrict(capacity, q', q, rest, rest);
    } else if q < q' - 1 {
      MulStrict(capacity, q + 1, q', rest, rest);
    }
    assert capacity * (q + 1) == capacity * q + capacity;
  }

  lemma NextInSlot(k: nat, capacity: nat)
    requires capacity > 0
    ensures (k + capacity) % capacity == k % capacity
  {
    var q, rest := k / capacity, k % capacity;
    assert k == capacity * q + rest;
    assert capacity * (q + 1) == capacity * q + capacity;
    ModUnique(k + capacity, capacity, q + 1, rest);
  }

  /** A number keeps its slot until the number a whole ring later. */
  lemma {:induction false} LatestWithinRing(h: nat, n: nat, capacity: nat)
    requires capacity > 0 && 1 <= h <= n < h + capacity
    ensures Latest(h % capacity, n, capacity) == h
  {
    if h < n {
      if n % capacity == h % capacity { SameSlotApart(h, n, capacity); }
      LatestWithinRing(h, n - 1, capacity);
    }
  }

  /** A slot's first number is at most the capacity. */
  lemma {:induction false} NoneBefore(n: nat, m: nat, capacity: nat)
    requires capacity > 0 && m < n <= capacity
    ensures Latest(n % capacity, m, capacity) == 0
  {
    if m > 0 {
      if m % capacity == n % capacity { SameSlotApart(m, n, capacity); }
      NoneBefore(n, m - 1, capacity);
    }
  }

  /** What number n displaces from its slot: n - capacity, or nothing in the first round. */
  lemma Displaced(n: nat, capacity: nat)
    requires capacity > 0 && n > 0
    ensures Latest(n % capacity, n - 1, capacity) == if n <= capacity then 0 else n - capacity
  {
    hide Latest;
    if n <= capacity {
      NoneBefore(n, n - 1, capacity);
    } else {
      NextInSlot(n - capacity, capacity);
      LatestWithinRing(n - capacity, n - 1, capacity);
    }
  }

  // ---------------------------------------------------------------- masks

  const BIT_ALL: nat := 0xFFFF_FFFF

  /** `a & b != 0`. */
  predicate Meets(a: nat, b: nat) {
    a > 0 && b > 0 && ((a % 2 == 1 && b % 2 == 1) || Meets(a / 2, b / 2))
  }

  /** Bit k is set in both. */
  predicate BothHave(a: nat, b: nat, k: nat) {
    a / Power2(k) % 2 == 1 && b / Power2(k) % 2 == 1
  }

  ghost predicate ShareBit(a: nat, b: nat) {
    exists k: nat :: BothHave(a, b, k)
  }

  /** Two masks meet if and only if some bit is set in both. */
  lemma {:induction false} MeetsIffShareBit(a: nat, b: nat)
    ensures Meets(a, b) <==> ShareBit(a, b)
  {
    hide BothHave;
    if a > 0 && b > 0 {
      MeetsIffShareBit(a / 2, b / 2);
      LowBit(a, b);
      if Meets(a / 2, b / 2) {
        var k: nat :| BothHave(a / 2, b / 2, k);
        NextBit(a, b, k);
      }
      if ShareBit(a, b) {
        var k: nat :| BothHave(a, b, k);
        if k > 0 { NextBit(a, b, k - 1); }
      }
    } else {
      forall k: nat
        ensures !BothHave(a, b, k)
      {
        ZeroBits(a, b, k);
      }
    }
  }

  lemma LowBit(a: nat, b: nat)
    ensures BothHave(a, b, 0) <==> a % 2 == 1 && b % 2 == 1
  {
  }

  lemma NextBit(a: nat, b: nat, k: nat)
    ensures BothHave(a, b, k + 1) <==> BothHave(a / 2, b / 2, k)
  {
    HalveThenDivide(a, Power2(k));
    HalveThenDivide(b, Power2(k));
  }

  lemma HalveThenDivide(a: nat, p: nat)
    requires p > 0
    ensures a / (2 * p) == a / 2 / p
  {
    var q, r := a / 2 / p, a / 2 % p;
    assert a / 2 == p * q + r && a == 2 * (a / 2) + a % 2;
    assert a == 2 * p * q + (2 * r + a % 2);
    ModUnique(a, 2 * p, q, 2 * r + a % 2);
  }

  lemma ZeroBits(a: nat, b: nat, k: nat)
    requires a == 0 || b == 0
    ensures !BothHave(a, b, k)
  {
    ModUnique(0, Power2(k), 0, 0);
  }

  lemma {:induction false} AllOnesMeets(a: nat, b: nat, width: nat)
    requires a == Power2(width) - 1 && b < Power2(width)
    ensures Meets(a, b) <==> b > 0
  {
    if width > 0 {
      assert a / 2 == Power2(width - 1) - 1;
      AllOnesMeets(a / 2, b / 2, width - 1);
    }
  }

  /** The mask used by close reaches every interest but the empty one. */
  lemma BitAllMeets(b: nat)
    requires b <= BIT_ALL
    ensures Meets(BIT_ALL, b) <==> b > 0
  {
    assert Power2(8) == 256;
    assert Power2(16) == 256 * Power2(8) by { assert Power2(12) == 16 * Power2(8); }
    assert Power2(24) == 256 * Power2(16) by { assert Power2(20) == 16 * Power2(16); }
    assert Power2(32) == 256 * Power2(24) by { assert Power2(28) == 16 * Power2(24); }
    AllOnesMeets(BIT_ALL, b, 32);
  }

  /** `usize::next_power_of_two`. */
  function NextPowerOfTwo(n: nat): (p: nat)
    ensures n <= p && p > 0
  {
    PowerFrom(n, 1)
  }

  function PowerFrom(n: nat, p: nat): (q: nat)
    requires p > 0
    ensures n <= q && p <= q
    decreases n - p
  {
    if n <= p then p else PowerFrom(n, 2 * p)
  }

  /** It is a power of two, and no smaller power of two reaches n. */
  lemma {:induction false} PowerFromIsLeast(n: nat, e: nat) returns (e': nat)
    requires e == 0 || Power2(e - 1) < n
    ensures PowerFrom(n, Power2(e)) == Power2(e')
    ensures e' == 0 || Power2(e' - 1) < n
    decreases n - Power2(e)
  {
    if n <= Power2(e) {
      e' := e;
    } else {
      e' := PowerFromIsLeast(n, e + 1);
    }
  }
}
