/** The addresses a rule endpoint covers, as sets (RFC 4632, section 3.1). */
module Addresses {
  import opened Intervals
  import opened AclPolicy

  /** The addresses an endpoint of a rule covers. */
  function Covered(spec: Spec): set<int> {
    set a: int | 0 <= a < ADDRESS_SPACE && Contains(spec, V4(a))
  }

  lemma {:induction false} Pow2Adds(m: nat, n: nat)
    ensures Pow2(m) * Pow2(n) == Pow2(m + n)
  {
    if m > 0 {
      Pow2Adds(m - 1, n);
    }
  }

  /** A network lies inside the address space: its size divides 2^32. */
  lemma NetworkFits(address: Address, prefix: PrefixLength)
    ensures (address / BlockSize(prefix)) * BlockSize(prefix) + BlockSize(prefix) <= ADDRESS_SPACE
  {
    Pow2Adds(32 - prefix, prefix);
    AddressSpaceIsPow2();
    BlockFits(address, BlockSize(prefix), Pow2(prefix));
  }

  lemma BlockFits(a: nat, size: nat, count: nat)
    requires size > 0 && a < size * count
    ensures (a / size) * size + size <= size * count
  {
    var q := a / size;
    assert a == q * size + a % size;
    if q >= count {
      MultiplyMonotone(count, q, size);
    } else {
      MultiplyMonotone(q + 1, count, size);
    }
  }

  lemma MultiplyMonotone(a: nat, b: nat, c: nat)
    requires a <= b
    ensures a * c <= b * c
  {
  }

  /** A network of prefix p covers exactly 2^(32-p) addresses. */
  lemma NetworkSize(address: Address, prefix: PrefixLength)
    ensures |Covered(Net(address, prefix))| == BlockSize(prefix)
  {
    CoveredIsInterval(address, prefix);
    hide Pow2, BlockSize, Covered;
    var lo := (address / BlockSize(prefix)) * BlockSize(prefix);
    IntervalSize(lo, lo + BlockSize(prefix));
  }

  lemma CoveredIsInterval(address: Address, prefix: PrefixLength)
    ensures var lo := (address / BlockSize(prefix)) * BlockSize(prefix);
            Covered(Net(address, prefix)) == Interval(lo, lo + BlockSize(prefix))
  {
    NetworkFits(address, prefix);
    hide Pow2, Contains, BlockSize;
    var size := BlockSize(prefix);
    var lo := (address / size) * size;
    forall a: int | 0 <= a < ADDRESS_SPACE
      ensures Contains(Net(address, prefix), V4(a)) <==> lo <= a < lo + size
    {
      InNetwork(address, prefix, a);
    }
    StartsAtZero(address, size);
  }

  lemma StartsAtZero(address: nat, size: nat)
    requires size > 0
    ensures (address / size) * size >= 0
  {
  }

  lemma InNetwork(address: Address, prefix: PrefixLength, a: Address)
    ensures var lo := (address / BlockSize(prefix)) * BlockSize(prefix);
            Contains(Net(address, prefix), V4(a)) <==> lo <= a < lo + BlockSize(prefix)
  {
    hide Pow2;
    DivisionBlocks(a, BlockSize(prefix), address / BlockSize(prefix));
  }

  lemma AddressSpaceIsPow2()
    ensures Pow2(32) == ADDRESS_SPACE
  {
    assert Pow2(8) == 256;
    Pow2Adds(8, 8);
    hide Pow2;
    Pow2Adds(16, 16);
  }

  lemma DivisionBlocks(a: nat, size: nat, block: nat)
    requires size > 0
    ensures a / size == block <==> block * size <= a < block * size + size
  {
    var q, r := a / size, a % size;
    assert a == q * size + r;
    if q < block {
      assert (q + 1) * size <= block * size;
    } else if q > block {
      assert q * size >= (block + 1) * size;
    }
  }

  lemma {:induction false} Pow2Grows(m: nat, n: nat)
    requires m < n
    ensures Pow2(m) < Pow2(n)
  {
    if m < n - 1 {
      Pow2Grows(m, n - 1);
    }
  }

  /** Two endpoints stand for the same: the same unreadable text, or the same hosts. */
  ghost predicate NamesSame(a: Spec, b: Spec) {
    if a.Malformed? || b.Malformed? then a == b else forall host :: Contains(a, host) <==> Contains(b, host)
  }

  /** Networks that cover the same hosts have the same prefix length. */
  lemma SameHostsSamePrefix(x: Address, p: PrefixLength, y: Address, q: PrefixLength)
    requires forall host :: Contains(Net(x, p), host) <==> Contains(Net(y, q), host)
    ensures p == q
  {
    hide Pow2, Contains;
    NetworkSize(x, p);
    NetworkSize(y, q);
    assert Covered(Net(x, p)) == Covered(Net(y, q));
    if p < q {
      Pow2Grows(32 - q, 32 - p);
    } else if q < p {
      Pow2Grows(32 - p, 32 - q);
    }
  }
}
