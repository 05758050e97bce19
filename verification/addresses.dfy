/** IPv4 addresses as 32-bit unsigned values, CIDR prefix blocks
    (section 3.1 of RFC 4632) and the scanner's `IpIterator`. */
module Addresses {
  import opened Wrappers
  import opened Arith

  const U32_MAX: nat := 0xFFFF_FFFF

  /** A `u32`; an IPv4 address is its big-endian 32-bit value. */
  type U32 = x: nat | x <= U32_MAX

  /** `std::net::IpAddr`. An IPv6 address is kept opaque: nothing in the
      scanner looks inside one. */
  datatype IpAddr = V4(bits: U32) | V6(v6bits: nat)

  function Pow2(k: nat): (r: nat)
    ensures r >= 1
  {
    if k == 0 then 1 else 2 * Pow2(k - 1)
  }

  lemma {:induction false} Pow2Add(a: nat, b: nat)
    ensures Pow2(a + b) == Pow2(a) * Pow2(b)
    decreases a
  {
    if a > 0 {
      Pow2Add(a - 1, b);
    }
  }

  lemma Pow2Of32()
    ensures Pow2(32) == U32_MAX + 1
  {
    assert Pow2(4) == 0x10;
    assert Pow2(8) == 0x100;
    assert Pow2(12) == 0x1000;
    assert Pow2(16) == 0x1_0000;
    assert Pow2(20) == 0x10_0000;
    assert Pow2(24) == 0x100_0000;
    assert Pow2(28) == 0x1000_0000;
  }

  /** Number of host bits in a block of prefix length `prefix`. */
  function HostBits(prefix: nat): nat
    requires prefix <= 32
  {
    32 - prefix
  }

  /** Number of addresses in a block of prefix length `prefix`. */
  function BlockSize(prefix: nat): (n: nat)
    requires prefix <= 32
    ensures n >= 1
  {
    Pow2(HostBits(prefix))
  }

  /** The blocks of one prefix length tile the 32-bit space. */
  lemma BlockSizeTiles(prefix: nat)
    requires prefix <= 32
    ensures Pow2(prefix) * BlockSize(prefix) == U32_MAX + 1
  {
    Pow2Add(prefix, HostBits(prefix));
    assert prefix + HostBits(prefix) == 32;
    Pow2Of32();
  }

  /** `x` lies in the same block as `a`: the two agree on every bit above the
      `HostBits(prefix)` low bits. */
  predicate SameBlock(x: nat, a: nat, prefix: nat)
    requires prefix <= 32
  {
    x / BlockSize(prefix) == a / BlockSize(prefix)
  }

  /** The first address of `a`'s block: the low host bits cleared, the high
      bits kept. */
  function Network(a: U32, prefix: nat): (n: U32)
    requires prefix <= 32
    ensures n <= a
    ensures n % BlockSize(prefix) == 0
    ensures SameBlock(n, a, prefix)
  {
    RoundDown(a, BlockSize(prefix))
  }

  /** The last address of `a`'s block: the low host bits set, the high bits
      kept; the block holds `BlockSize(prefix)` addresses. */
  function Broadcast(a: U32, prefix: nat): (b: U32)
    requires prefix <= 32
    ensures a <= b
    ensures b % BlockSize(prefix) == BlockSize(prefix) - 1
    ensures SameBlock(b, a, prefix)
    ensures b - Network(a, prefix) + 1 == BlockSize(prefix)
  {
    var m := BlockSize(prefix);
    var b := Network(a, prefix) + m - 1;
    assert b <= U32_MAX && a <= b && b % m == m - 1 && b / m == a / m by {
      BlockSizeTiles(prefix);
      RoundDownLast(a, m, Pow2(prefix));
    }
    b
  }

  /** The block is exactly the addresses between network and broadcast. */
  lemma BlockIsInterval(x: nat, a: U32, prefix: nat)
    requires prefix <= 32
    ensures SameBlock(x, a, prefix) <==> Network(a, prefix) <= x <= Broadcast(a, prefix)
  {
    RoundDownBlock(x, a, BlockSize(prefix));
  }

  /** Prefix 32 is a single-address block; prefix 0 is the whole space. */
  lemma BlockExtremes(a: U32)
    ensures Network(a, 32) == a == Broadcast(a, 32)
    ensures Network(a, 0) == 0 && Broadcast(a, 0) == U32_MAX
  {
    Pow2Of32();
  }

  /** `lo..=hi` as a sequence; empty when `lo > hi`. */
  function InclusiveRange(lo: nat, hi: nat): (r: seq<nat>)
    ensures |r| == if lo <= hi then hi - lo + 1 else 0
    ensures forall i :: 0 <= i < |r| ==> r[i] == lo + i
  {
    seq(if lo <= hi then hi - lo + 1 else 0, i => lo + i)
  }

  predicate StrictlyAscending(s: seq<nat>) {
    forall i, j :: 0 <= i < j < |s| ==> s[i] < s[j]
  }

  // ---------------------------------------------------------------------------
  // IpIterator

  /** `IpIterator { current, end }`. The source stores `current` in a `u32`;
      here it is unbounded so that the stepping can be modelled both as written
      (`NextChecked`) and as intended (`Next`). */
  datatype IpIterator = IpIterator(current: nat, end: U32)

  datatype Step = Yield(ip: U32, rest: IpIterator) | Exhausted | Overflow

  /** Addresses the iterator still has to yield. */
  function Remaining(it: IpIterator): nat {
    if it.current <= it.end then it.end - it.current + 1 else 0
  }

  /** `IpIterator::next` as written: `self.current += 1` on a `u32`, which
      overflows (a panic in a checked build) when `current` is `u32::MAX`. */
  function NextChecked(it: IpIterator): (s: Step)
    requires it.current <= U32_MAX
    ensures s.Yield? ==> s.rest.current <= U32_MAX && Remaining(s.rest) < Remaining(it)
  {
    if it.current <= it.end then
      if it.current == U32_MAX then Overflow
      else Yield(it.current, IpIterator(it.current + 1, it.end))
    else Exhausted
  }

  datatype IterError = AddOverflow

  /** `iterator.collect()` over the as-written iterator. */
  function CollectChecked(it: IpIterator): Result<seq<U32>, IterError>
    requires it.current <= U32_MAX
    decreases Remaining(it)
  {
    match NextChecked(it)
    case Exhausted => Ok([])
    case Overflow => Err(AddOverflow)
    case Yield(ip, rest) =>
      var tail :- CollectChecked(rest);
      Ok([ip] + tail)
  }

  /** `IpIterator::next` with the counter widened so that stepping past
      `u32::MAX` cannot overflow. */
  function Next(it: IpIterator): Step
    requires it.current <= U32_MAX + 1
  {
    if it.current <= it.end then Yield(it.current, IpIterator(it.current + 1, it.end))
    else Exhausted
  }

  /** `iterator.collect()`: every value of `[current, end]` once, ascending. */
  function Collect(it: IpIterator): (r: seq<U32>)
    requires it.current <= U32_MAX + 1
    ensures r == InclusiveRange(it.current, it.end)
    decreases Remaining(it)
  {
    match Next(it)
    case Yield(ip, rest) =>
      var r := [ip] + Collect(rest);
      assert r == InclusiveRange(it.current, it.end) by {
        var expected := InclusiveRange(it.current, it.end);
        assert |r| == |expected|;
        forall i | 0 <= i < |r| ensures r[i] == expected[i] {
          if i > 0 { assert r[i] == Collect(rest)[i - 1]; }
        }
      }
      r
    case _ => []
  }

  /** The as-written iterator fails exactly when it has to step over the last
      address of the 32-bit space, and agrees with `Collect` otherwise. */
  lemma {:induction false} CollectCheckedOverflow(it: IpIterator)
    requires it.current <= U32_MAX
    ensures CollectChecked(it) == Err(AddOverflow) <==> it.current <= it.end == U32_MAX
    ensures CollectChecked(it).Ok? ==> CollectChecked(it).value == Collect(it)
    decreases Remaining(it)
  {
    if it.current <= it.end && it.current < U32_MAX {
      CollectCheckedOverflow(IpIterator(it.current + 1, it.end));
    }
  }

  // ---------------------------------------------------------------------------
  // get_collected_ips

  datatype CidrError = InvalidCidr

  /** `NetworkScanner::get_collected_ips`: the text `"{target}/{prefix}"` must
      parse as an IPv4 network (an IPv6 target or a prefix over 32 panics with
      "Invalid CIDR"); its network and broadcast addresses bound the iterator. */
  function CollectedIps(target: IpAddr, prefix: nat): (r: Result<seq<U32>, CidrError>)
    ensures r.Ok? <==> target.V4? && prefix <= 32
    ensures r.Ok? ==> |r.value| == BlockSize(prefix)
    ensures r.Ok? ==> r.value[0] == Network(target.bits, prefix)
    ensures r.Ok? ==> r.value[|r.value| - 1] == Broadcast(target.bits, prefix)
    ensures r.Ok? ==> StrictlyAscending(r.value)
  {
    if target.V6? || prefix > 32 then Err(InvalidCidr)
    else Ok(Collect(IpIterator(Network(target.bits, prefix), Broadcast(target.bits, prefix))))
  }

  /** The collected list holds exactly the addresses of the target's block. */
  lemma CollectedIpsMembers(target: IpAddr, prefix: nat, x: nat)
    requires target.V4? && prefix <= 32
    ensures x in CollectedIps(target, prefix).value <==> SameBlock(x, target.bits, prefix)
  {
    var ips := CollectedIps(target, prefix).value;
    var n := Network(target.bits, prefix);
    BlockIsInterval(x, target.bits, prefix);
    if n <= x <= Broadcast(target.bits, prefix) {
      assert ips[x - n] == x;
    }
  }

  /** As written, `get_collected_ips` panics for every block whose broadcast
      address is 255.255.255.255, such as any `/0` block. */
  lemma CollectedIpsAsWrittenOverflows(target: IpAddr, prefix: nat)
    requires target.V4? && prefix <= 32
    ensures CollectChecked(IpIterator(Network(target.bits, prefix), Broadcast(target.bits, prefix))) == Err(AddOverflow)
      <==> Broadcast(target.bits, prefix) == U32_MAX
  {
    var n, b := Network(target.bits, prefix), Broadcast(target.bits, prefix);
    assert n <= b;
    CollectCheckedOverflow(IpIterator(n, b));
  }
}
