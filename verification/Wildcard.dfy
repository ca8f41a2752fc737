/** IOS wildcard bits as a network (apps/api/app/firewall/ios.py, `wildcard_to_prefix`). */
module Wildcard {
  import opened Wrappers
  import opened AclPolicy
  import opened Addresses

  function BitAnd(x: nat, y: nat): nat {
    if x == 0 || y == 0 then 0 else 2 * BitAnd(x / 2, y / 2) + (if x % 2 == 1 && y % 2 == 1 then 1 else 0)
  }

  function Bit(x: nat, i: nat): nat {
    if i == 0 then x % 2 else Bit(x / 2, i - 1)
  }

  /** Bitwise AND is bit by bit. */
  lemma {:induction false} BitOfAnd(x: nat, y: nat, i: nat)
    ensures Bit(BitAnd(x, y), i) == if Bit(x, i) == 1 && Bit(y, i) == 1 then 1 else 0
  {
    if x == 0 || y == 0 {
      ZeroBits(i);
    } else if i > 0 {
      BitOfAnd(x / 2, y / 2, i - 1);
    }
  }

  lemma {:induction false} ZeroBits(i: nat)
    ensures Bit(0, i) == 0
  {
    if i > 0 {
      ZeroBits(i - 1);
    }
  }

  function TrailingZeros(x: nat, width: nat): (n: nat)
    ensures n <= width
  {
    if width == 0 || x % 2 == 1 then 0 else 1 + TrailingZeros(x / 2, width - 1)
  }

  /** The prefix length `ip_network` reads from a dotted netmask. */
  function PrefixOfMask(netmask: Address): PrefixLength {
    32 - TrailingZeros(netmask, 32)
  }

  /** The network as a rule endpoint, or nothing for text or for bits that are not contiguous. */
  function WildcardToPrefix(address: Host, wildcard: Host): Option<Spec> {
    if address.NotV4? || wildcard.NotV4? then None
    else
      var bits := wildcard.address;
      var netmask := ADDRESS_SPACE - 1 - bits;
      if BitAnd(bits + 1, bits) != 0 then None else Some(Net(address.address, PrefixOfMask(netmask)))
  }

  // ---------------------------------------------------------------------
  // Exactly the contiguous wildcards
  // ---------------------------------------------------------------------

  lemma {:induction false} AndWithItself(x: nat)
    ensures BitAnd(x, x) == x
  {
    if x > 0 {
      AndWithItself(x / 2);
    }
  }

  /** If adding one clears every bit, the bits are a run of low ones. */
  lemma {:induction false} ClearingMeansLowRun(bits: nat) returns (k: nat)
    requires BitAnd(bits + 1, bits) == 0
    ensures bits + 1 == Pow2(k)
  {
    var half := bits / 2;
    if bits == 0 {
      k := 0;
    } else if bits % 2 == 0 {
      assert (bits + 1) / 2 == half;
      AndWithItself(half);
    } else {
      assert (bits + 1) / 2 == half + 1;
      var shorter := ClearingMeansLowRun(half);
      k := shorter + 1;
    }
  }

  lemma {:induction false} LowRunClears(k: nat)
    ensures BitAnd(Pow2(k), Pow2(k) - 1) == 0
  {
    if k > 0 {
      LowRunClears(k - 1);
      DoubledAnd(Pow2(k - 1), Pow2(k - 1) - 1);
    }
  }

  lemma DoubledAnd(x: nat, y: nat)
    ensures BitAnd(2 * x, 2 * y + 1) == 2 * BitAnd(x, y)
  {
    if x > 0 {
      assert (2 * y + 1) / 2 == y && (2 * x) / 2 == x;
    }
  }

  lemma {:induction false} LowRunBits(k: nat, i: nat)
    ensures Bit(Pow2(k) - 1, i) == if i < k then 1 else 0
  {
    if k == 0 {
      ZeroBits(i);
    } else {
      assert Pow2(k) == 2 * Pow2(k - 1);
      assert (Pow2(k) - 1) / 2 == Pow2(k - 1) - 1 && (Pow2(k) - 1) % 2 == 1;
      if i > 0 {
        LowRunBits(k - 1, i - 1);
      }
    }
  }

  lemma {:induction false} LowRunFits(k: nat)
    requires Pow2(k) <= ADDRESS_SPACE
    ensures k <= 32
  {
    if k > 32 {
      AddressSpaceIsPow2();
      Pow2Grows(32, k);
    }
  }

  lemma {:induction false} Pow2Grows(j: nat, k: nat)
    requires j < k
    ensures Pow2(j) < Pow2(k)
  {
    if j < k - 1 {
      Pow2Grows(j, k - 1);
    }
  }

  /** The netmask of a run of k low ones has k trailing zeros. */
  lemma {:induction false} MaskZeros(k: nat, width: nat)
    requires k <= width
    ensures Pow2(k) <= Pow2(width)
    ensures TrailingZeros(Pow2(width) - Pow2(k), width) == k
  {
    if k == 0 {
      if width > 0 {
        assert Pow2(width) == 2 * Pow2(width - 1);
      }
    } else {
      MaskZeros(k - 1, width - 1);
      DoubledZeros(Pow2(width - 1) - Pow2(k - 1), width - 1);
    }
  }

  lemma DoubledZeros(x: nat, width: nat)
    ensures TrailingZeros(2 * x, width + 1) == 1 + TrailingZeros(x, width)
  {
  }

  // ---------------------------------------------------------------------
  // The network covers what the wildcard covers
  // ---------------------------------------------------------------------

  lemma {:induction false} BitsDetermine(a: nat, h: nat, width: nat)
    requires a < Pow2(width) && h < Pow2(width)
    requires forall i: nat | i < width :: Bit(a, i) == Bit(h, i)
    ensures a == h
  {
    if width == 0 {
      assert Pow2(0) == 1;
    } else {
      forall i: nat | i < width - 1 ensures Bit(a / 2, i) == Bit(h / 2, i) {
        assert Bit(a, i + 1) == Bit(h, i + 1);
      }
      BitsDetermine(a / 2, h / 2, width - 1);
      assert Bit(a, 0) == Bit(h, 0);
    }
  }

  function ShiftedRight(a: nat, k: nat): nat {
    if k == 0 then a else ShiftedRight(a / 2, k - 1)
  }

  lemma {:induction false} ShiftIsDivision(a: nat, k: nat)
    ensures ShiftedRight(a, k) == a / Pow2(k)
  {
    if k > 0 {
      ShiftIsDivision(a / 2, k - 1);
      HalvesFirst(a, Pow2(k - 1));
    }
  }

  lemma {:induction false} ShiftedBits(a: nat, k: nat, i: nat)
    ensures Bit(ShiftedRight(a, k), i) == Bit(a, i + k)
  {
    if k > 0 {
      ShiftedBits(a / 2, k - 1, i);
    }
  }

  lemma {:induction false} ShiftedFits(a: nat, k: nat, width: nat)
    requires k <= width && a < Pow2(width)
    ensures ShiftedRight(a, k) < Pow2(width - k)
  {
    if k > 0 {
      ShiftedFits(a / 2, k - 1, width - 1);
    }
  }

  /** The bits from k up are what is left after shifting the k low ones away. */
  lemma SameHighBitsSameShift(a: nat, h: nat, k: nat, width: nat)
    requires k <= width && a < Pow2(width) && h < Pow2(width)
    requires forall i: nat | k <= i < width :: Bit(a, i) == Bit(h, i)
    ensures ShiftedRight(a, k) == ShiftedRight(h, k)
  {
    ShiftedFits(a, k, width);
    ShiftedFits(h, k, width);
    forall i: nat | i < width - k ensures Bit(ShiftedRight(a, k), i) == Bit(ShiftedRight(h, k), i) {
      ShiftedBits(a, k, i);
      ShiftedBits(h, k, i);
    }
    BitsDetermine(ShiftedRight(a, k), ShiftedRight(h, k), width - k);
  }

  lemma SameShiftSameHighBit(a: nat, h: nat, k: nat, i: nat)
    requires k <= i && ShiftedRight(a, k) == ShiftedRight(h, k)
    ensures Bit(a, i) == Bit(h, i)
  {
    ShiftedBits(a, k, i - k);
    ShiftedBits(h, k, i - k);
  }

  lemma HalvesFirst(a: nat, p: nat)
    requires p > 0
    ensures a / (2 * p) == (a / 2) / p
  {
    var q := (a / 2) / p;
    DivisionBlocks(a / 2, p, q);
    DivisionBlocks(a, 2 * p, q);
    assert q * (2 * p) == 2 * (q * p);
  }

  /** The addresses a wildcard entry stands for: those that agree with the base wherever the wildcard bit is 0. */
  ghost predicate AgreesOutside(base: Address, bits: Address, a: Address) {
    forall i: nat | i < 32 && Bit(bits, i) == 0 :: Bit(a, i) == Bit(base, i)
  }

  /** The conversion succeeds exactly for runs of low ones, and then the rule's network
      accepts exactly the addresses the wildcard stands for. */
  lemma WildcardConversionIsExact(base: Address, bits: Address, a: Address)
    ensures var spec := WildcardToPrefix(V4(base), V4(bits));
            && (spec.Some? <==> exists k: nat :: bits + 1 == Pow2(k))
            && (spec.Some? ==> (Contains(spec.value, V4(a)) <==> AgreesOutside(base, bits, a)))
  {
    hide Pow2, Bit, BitAnd, TrailingZeros, AgreesOutside;
    if BitAnd(bits + 1, bits) == 0 {
      var k := ClearingMeansLowRun(bits);
      AddressSpaceIsPow2();
      LowRunFits(k);
      MaskZeros(k, 32);
      ConvertedNetwork(base, bits, k, a);
    } else if k: nat :| bits + 1 == Pow2(k) {
      LowRunClears(k);
    }
  }

  lemma ConvertedNetwork(base: Address, bits: Address, k: nat, a: Address)
    requires k <= 32 && bits + 1 == Pow2(k)
    ensures Contains(Net(base, 32 - k), V4(a)) <==> AgreesOutside(base, bits, a)
  {
    hide Pow2, ShiftedRight;
    AddressSpaceIsPow2();
    ShiftIsDivision(a, k);
    ShiftIsDivision(base, k);
    assert BlockSize(32 - k) == Pow2(k);
    forall i: nat | i < 32 ensures Bit(bits, i) == 0 <==> k <= i {
      assert bits == Pow2(k) - 1;
      LowRunBits(k, i);
    }
    if AgreesOutside(base, bits, a) {
      assert forall i: nat | k <= i < 32 :: Bit(a, i) == Bit(base, i);
      SameHighBitsSameShift(a, base, k, 32);
    }
    if Contains(Net(base, 32 - k), V4(a)) {
      forall i: nat | i < 32 && Bit(bits, i) == 0 ensures Bit(a, i) == Bit(base, i) {
        SameShiftSameHighBit(a, base, k, i);
      }
    }
  }
}
