/** Minting fake IPv4 addresses from record indices and getting the index back. */
module Address {
  import opened Basics

  /** A 32-bit word. */
  type Word = x: int | 0 <= x < 0x1_0000_0000

  /** Bitwise and, or, and complement. */
  function And(a: nat, b: nat): nat {
    if a == 0 || b == 0 then 0 else 2 * And(a / 2, b / 2) + (if a % 2 == 1 && b % 2 == 1 then 1 else 0)
  }

  function Or(a: nat, b: nat): nat {
    if a == 0 then b else if b == 0 then a
    else 2 * Or(a / 2, b / 2) + (if a % 2 == 1 || b % 2 == 1 then 1 else 0)
  }

  function Not(a: Word): Word {
    0xFFFF_FFFF - a
  }

  /** The value of a word read as a C `int`. */
  function Signed(a: Word): int {
    if a < 0x8000_0000 then a else a - 0x1_0000_0000
  }

  lemma {:induction false} AndBound(a: nat, b: nat)
    ensures And(a, b) <= a && And(a, b) <= b && And(b, a) == And(a, b)
  {
    if a != 0 && b != 0 { AndBound(a / 2, b / 2); }
  }

  lemma {:induction false} OrBound(a: nat, b: nat, k: nat, top: nat)
    requires a < top && b < top && top == Pow2(k)
    ensures Or(a, b) < top
    decreases k
  {
    if a != 0 && b != 0 { OrBound(a / 2, b / 2, k - 1, top / 2); }
  }

  lemma {:induction false} AndOr(a: nat, b: nat, m: nat)
    ensures And(Or(a, b), m) == Or(And(a, m), And(b, m))
  {
    if a != 0 && b != 0 && m != 0 {
      AndOr(a / 2, b / 2, m / 2);
      OrHalf(a, b);
      AndHalf(a, m);
      AndHalf(b, m);
      OrHalf(And(a, m), And(b, m));
    }
  }

  lemma {:induction false} OrHalf(a: nat, b: nat)
    ensures Or(a, b) / 2 == Or(a / 2, b / 2) && Or(a, b) % 2 == (if a % 2 == 1 || b % 2 == 1 then 1 else 0)
  {
  }

  lemma {:induction false} AndHalf(a: nat, b: nat)
    ensures And(a, b) / 2 == And(a / 2, b / 2) && And(a, b) % 2 == (if a % 2 == 1 && b % 2 == 1 then 1 else 0)
  {
  }

  lemma {:induction false} AndOnes(x: nat, m: nat, k: nat)
    requires m == Pow2(k) - 1 && x <= m
    ensures And(x, m) == x
    decreases k
  {
    if x != 0 && k > 0 {
      assert m / 2 == Pow2(k - 1) - 1 && m % 2 == 1;
      AndOnes(x / 2, m / 2, k - 1);
    }
  }

  /** `net | idx`, the address in an answer. */
  function Mint(net: Word, idx: nat): nat {
    Or(net, idx)
  }

  /** `ip & ~mask`, the index that a lookup uses. */
  function HostIndex(mask: Word, ip: nat): nat {
    And(ip, Not(mask))
  }

  /** `hev_mapped_dns_construct` refuses a cache with more records than host numbers. */
  predicate Accepts(mask: Word, max: int) {
    max <= Signed(Not(mask))
  }

  /** A netmask is a run of ones followed by a run of zeroes. */
  ghost predicate Contiguous(mask: Word) {
    exists k: nat :: Not(mask) == Pow2(k) - 1
  }

  /** The index survives the trip through its address. */
  predicate Survives(net: Word, mask: Word, idx: nat) {
    HostIndex(mask, Mint(net, idx)) == idx
  }

  /** The index has no bits outside the host part. */
  predicate FitsHost(mask: Word, idx: nat) {
    And(idx, Not(mask)) == idx
  }

  lemma {:induction false} SurvivesIff(net: Word, mask: Word, idx: nat)
    ensures Survives(net, mask, idx) <==> Or(And(net, Not(mask)), And(idx, Not(mask))) == idx
  {
    AndOr(net, idx, Not(mask));
  }

  /** Every index of the cache survives exactly when the network has no host bits and
      every index fits into the host bits. */
  lemma {:induction false} RoundTripIff(net: Word, mask: Word, max: nat)
    requires max >= 1
    ensures (forall i: nat :: i < max ==> Survives(net, mask, i)) <==>
      And(net, Not(mask)) == 0 && forall i: nat :: i < max ==> FitsHost(mask, i)
  {
    SurvivesIff(net, mask, 0);
    if And(net, Not(mask)) == 0 {
      forall i: nat ensures Survives(net, mask, i) <==> FitsHost(mask, i) {
        SurvivesIff(net, mask, i);
      }
    } else {
      assert !Survives(net, mask, 0);
    }
  }

  /** For a proper netmask the construction check covers the indices, so only the host
      bits of the network matter. */
  lemma {:induction false} NetmaskRoundTripIff(net: Word, mask: Word, max: nat)
    requires max >= 1 && Accepts(mask, max) && Contiguous(mask)
    ensures (forall i: nat :: i < max ==> Survives(net, mask, i)) <==> And(net, Not(mask)) == 0
  {
    var k: nat :| Not(mask) == Pow2(k) - 1;
    forall i: nat | i < max ensures FitsHost(mask, i) {
      AndOnes(i, Not(mask), k);
    }
    RoundTripIff(net, mask, max);
  }

  /** 10.0.0.1 with netmask 255.255.255.0 is accepted, but index 0 comes back as 1. */
  lemma {:induction false} HostBits()
    ensures Contiguous(0xFFFF_FF00) && Accepts(0xFFFF_FF00, 255)
    ensures HostIndex(0xFFFF_FF00, Mint(0x0A00_0001, 0)) == 1
  {
    assert Pow2(4) == 16 && Pow2(8) == 16 * Pow2(4);
    assert And(0x0A00_0001, 0xFF) == 1;
  }

  /** The address of an index below `max` is again a 32-bit word. */
  lemma {:induction false} MintWord(net: Word, mask: Word, max: nat, idx: nat)
    requires idx < max && Accepts(mask, max)
    ensures Mint(net, idx) < 0x1_0000_0000
  {
    assert Pow2(32) == 0x1_0000_0000 by {
      assert Pow2(8) == 256;
      assert Pow2(16) == 256 * Pow2(8);
      assert Pow2(24) == 256 * Pow2(16);
      assert Pow2(32) == 256 * Pow2(24);
    }
    OrBound(net, idx, 32, 0x1_0000_0000);
  }
}
