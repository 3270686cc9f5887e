/** IPv4 address pools: `Ipv4Range` of `server-node/src/dhcp.rs`, with its 32-bit arithmetic. */
module Ipv4 {
  import opened Wrappers

  const TWO_TO_32 := 0x1_0000_0000

  type u32 = x: int | 0 <= x < TWO_TO_32

  /** An address is its 32-bit number. */
  type Address = u32

  datatype Bounds = Bounds(start: Address, end: Address) {
    predicate Contains(a: int) {
      start <= a < end
    }
  }

  /** `Ipv4Range::new` asserts `start <= end`. The end is not part of the pool. */
  type Ipv4Range = r: Bounds | r.start <= r.end witness Bounds(0, 0)

  function Len(r: Ipv4Range): u32 {
    r.end - r.start
  }

  // ---------------------------------------------------------------- rotated iteration

  /** The Rust range `low..high`: empty when `low >= high`. */
  function Span(low: Address, high: Address): (s: seq<Address>)
    ensures |s| == if low < high then high - low else 0
    ensures forall i | 0 <= i < |s| :: s[i] == low + i
    decreases high - low
  {
    if low >= high then [] else [low] + Span(low + 1, high)
  }

  function IterStartingAt(r: Ipv4Range, at: Address): seq<Address> {
    Span(at, r.end) + Span(r.start, at)
  }

  /** The sequence enumerates the pool: every pool address once, and nothing else. */
  ghost predicate Enumerates(s: seq<Address>, r: Ipv4Range) {
    && (forall i | 0 <= i < |s| :: r.Contains(s[i]))
    && (forall i, j | 0 <= i < j < |s| :: s[i] != s[j])
    && (forall a: Address | r.Contains(a) :: a in s)
  }

  /** The rotated iterator enumerates the pool exactly when the cursor lies within its bounds,
      the end included. */
  lemma RotationIsExact(r: Ipv4Range, at: Address)
    ensures Enumerates(IterStartingAt(r, at), r) <==> r.start <= at <= r.end
  {
    var s := IterStartingAt(r, at);
    if r.start <= at <= r.end {
      forall a: Address | r.Contains(a) ensures a in s {
        var i := if a >= at then a - at else (r.end - at) + (a - r.start);
        assert s[i] == a;
      }
    } else if at < r.start {
      if at < r.end { assert s[0] == at; }
    } else {
      assert s[r.end - r.start] == r.end;
    }
  }

  // ---------------------------------------------------------------- CIDR blocks

  function Pow2(n: nat): (p: nat)
    ensures p >= 1
  {
    if n == 0 then 1 else 2 * Pow2(n - 1)
  }

  /** How u32 arithmetic treats a result out of range: a debug build panics, a release build wraps. */
  datatype Build = Debug | Release

  /** `None` is an arithmetic panic. */
  function InU32(x: int, build: Build): Option<u32> {
    if 0 <= x < TWO_TO_32 then Some(x)
    else match build
         case Debug => None
         case Release => Some(x % TWO_TO_32)
  }

  /** `Ipv4Range::from_cidr`, evaluated left to right in u32. `None` is a panic, of the arithmetic or
      of the assertion in `Ipv4Range::new`. */
  function FromCidr(ip: Address, prefixLength: u32, build: Build): Option<Ipv4Range> {
    match InU32(32 - prefixLength, build)
    case None => None
    case Some(bits) =>
      match InU32(Pow2(bits), build)
      case None => None
      case Some(size) =>
        match InU32(ip + size, build)
        case None => None
        case Some(sum) =>
          match InU32(sum - 1, build)
          case None => None
          case Some(end) => if ip <= end then Some(Bounds(ip, end)) else None
  }

  /** The addresses of the block `net/prefixLength` of section 3.1 of RFC 4632. */
  ghost predicate InBlock(a: int, net: Address, prefixLength: nat)
    requires prefixLength <= 32
  {
    a / Pow2(32 - prefixLength) == net / Pow2(32 - prefixLength)
  }

  lemma {:induction false} Pow2IsStrictlyMonotone(i: nat, j: nat)
    requires i < j
    ensures Pow2(i) < Pow2(j)
    decreases j
  {
    if i + 1 < j { Pow2IsStrictlyMonotone(i, j - 1); }
  }

  lemma Pow2Of32()
    ensures Pow2(32) == TWO_TO_32
  {
    assert Pow2(8) == 256;
    assert Pow2(16) == 65536 by { assert Pow2(12) == 4096; }
    assert Pow2(24) == 0x100_0000 by { assert Pow2(20) == 0x10_0000; }
    assert Pow2(28) == 0x1000_0000;
  }

  lemma {:induction false} Pow2Splits(i: nat, j: nat)
    ensures Pow2(i + j) == Pow2(i) * Pow2(j)
    decreases j
  {
    if j > 0 {
      Pow2Splits(i, j - 1);
      DoubleProduct(Pow2(i), Pow2(j - 1));
      assert i + j - 1 == i + (j - 1);
    }
  }

  lemma DoubleProduct(a: nat, b: nat)
    ensures 2 * (a * b) == a * (2 * b)
  {
  }

  /** Large powers of two wrap to zero. */
  lemma LargePow2Wraps(n: nat)
    requires n >= 32
    ensures Pow2(n) >= TWO_TO_32 && Pow2(n) % TWO_TO_32 == 0
  {
    Pow2Of32();
    Pow2Splits(n - 32, 32);
    var k := Pow2(n - 32);
    assert Pow2(n) == k * TWO_TO_32;
    MulMonotone(1, k, TWO_TO_32);
  }

  lemma BlockSize(prefixLength: u32)
    requires 1 <= prefixLength <= 32
    ensures Pow2(32 - prefixLength) < TWO_TO_32
  {
    Pow2Of32();
    Pow2IsStrictlyMonotone(32 - prefixLength, 32);
  }

  /** The prefix lengths for which the block size does not fit make a release build compute with a
      size of zero. */
  lemma OddPrefix(ip: Address, prefixLength: u32)
    requires prefixLength == 0 || prefixLength > 32
    ensures FromCidr(ip, prefixLength, Debug) == None
    ensures FromCidr(ip, prefixLength, Release) == if ip == 0 then Some(Bounds(0, TWO_TO_32 - 1)) else None
  {
    if prefixLength == 0 {
      LargePow2Wraps(32);
    } else {
      LargePow2Wraps((32 - prefixLength) % TWO_TO_32);
    }
  }

  /** The constructor succeeds on exactly these arguments. The topmost block of a size works in a
      release build only, and so do the other prefix lengths, but only for address 0. */
  lemma FromCidrSucceeds(ip: Address, prefixLength: u32, build: Build)
    ensures FromCidr(ip, prefixLength, build).Some? <==>
            if 1 <= prefixLength <= 32
            then ip + Pow2(32 - prefixLength) < TWO_TO_32 || (ip + Pow2(32 - prefixLength) == TWO_TO_32 && build == Release)
            else ip == 0 && build == Release
  {
    if 1 <= prefixLength <= 32 { BlockSize(prefixLength); } else { OddPrefix(ip, prefixLength); }
  }

  /** For an aligned base the pool is the CIDR block without its last address. */
  lemma FromCidrIsBlock(net: Address, prefixLength: u32, build: Build, a: int)
    requires 1 <= prefixLength <= 32 && FromCidr(net, prefixLength, build).Some?
    requires net % Pow2(32 - prefixLength) == 0
    ensures FromCidr(net, prefixLength, build).value.Contains(a) <==>
            InBlock(a, net, prefixLength) && a != net + Pow2(32 - prefixLength) - 1
  {
    FromCidrBounds(net, prefixLength, build);
    BlockIsInterval(a, net, Pow2(32 - prefixLength));
  }

  lemma BlockIsInterval(a: int, net: nat, size: nat)
    requires size > 0 && net % size == 0
    ensures a / size == net / size <==> net <= a < net + size
  {
    var q := net / size;
    assert q * size == net;
    if net <= a < net + size { QuotientUnique(a, size, q); }
    var k := a / size;
    assert k * size <= a < k * size + size;
  }

  lemma FromCidrBounds(ip: Address, prefixLength: u32, build: Build)
    requires 1 <= prefixLength <= 32 && FromCidr(ip, prefixLength, build).Some?
    ensures FromCidr(ip, prefixLength, build).value.start == ip
    ensures FromCidr(ip, prefixLength, build).value.end == ip + Pow2(32 - prefixLength) - 1
  {
    BlockSize(prefixLength);
    FromCidrSucceeds(ip, prefixLength, build);
  }

  /** The topmost block of every size is refused by a debug build, and served by a release build
      without its last address. */
  lemma TopBlock(prefixLength: u32)
    requires 1 <= prefixLength <= 32
    ensures var net := TWO_TO_32 - Pow2(32 - prefixLength);
            && 0 <= net < TWO_TO_32 && FromCidr(net, prefixLength, Debug) == None
            && FromCidr(net, prefixLength, Release) == Some(Bounds(net, TWO_TO_32 - 1))
  {
    BlockSize(prefixLength);
  }

  lemma QuotientUnique(a: nat, d: nat, q: nat)
    requires d > 0 && q * d <= a < q * d + d
    ensures a / d == q
  {
    var k := a / d;
    assert k * d <= a < k * d + d;
    if k < q { MulMonotone(k + 1, q, d); assert false; }
    if k > q { MulMonotone(q + 1, k, d); assert false; }
  }

  // ---------------------------------------------------------------- division

  /** The pools cut `r` into `parts` consecutive pieces of equal length, the last of which takes
      the remainder as well. */
  ghost predicate IsEqualDivision(r: Ipv4Range, parts: nat, pools: seq<Ipv4Range>)
    requires parts > 0
  {
    && |pools| == parts
    && pools[0].start == r.start
    && pools[parts - 1].end == r.end
    && (forall i | 0 <= i < parts - 1 :: pools[i + 1].start == pools[i].end)
    && (forall i | 0 <= i < parts - 1 :: Len(pools[i]) == Len(r) / parts)
    && Len(pools[parts - 1]) == Len(r) / parts + Len(r) % parts
  }

  /** Where part `i` of an equal division begins. */
  function Cut(r: Ipv4Range, parts: nat, i: nat): (a: Address)
    requires 0 < parts && i <= parts
    ensures r.start <= a <= r.end
  {
    CutInRange(Len(r), parts, i);
    r.start + i * (Len(r) / parts)
  }

  lemma CutInRange(len: nat, parts: nat, i: nat)
    requires 0 < parts && i <= parts
    ensures 0 <= i * (len / parts) <= parts * (len / parts) <= len
    ensures parts * (len / parts) + len % parts == len
  {
    MulMonotone(i, parts, len / parts);
  }

  lemma MulMonotone(i: nat, j: nat, x: nat)
    requires i <= j
    ensures 0 <= i * x <= j * x
  {
    assert j * x == i * x + (j - i) * x;
  }

  function Divided(r: Ipv4Range, parts: nat): (pools: seq<Ipv4Range>)
    requires 0 < parts
    ensures |pools| == parts
    ensures IsEqualDivision(r, parts, pools)
  {
    DividedIsEqual(r, parts);
    seq(parts, i requires 0 <= i < parts => Piece(r, parts, i))
  }

  function Piece(r: Ipv4Range, parts: nat, i: nat): Ipv4Range
    requires i < parts
  {
    MulMonotone(i, i + 1, Len(r) / parts);
    Bounds(Cut(r, parts, i), if i == parts - 1 then r.end else Cut(r, parts, i + 1))
  }

  lemma DividedIsEqual(r: Ipv4Range, parts: nat)
    requires 0 < parts
    ensures IsEqualDivision(r, parts, seq(parts, i requires 0 <= i < parts => Piece(r, parts, i)))
  {
    var size := Len(r) / parts;
    forall i | 0 <= i < parts - 1 ensures Len(Piece(r, parts, i)) == size {
      assert (i + 1) * size == i * size + size;
    }
    CutInRange(Len(r), parts, parts);
    assert parts * size == (parts - 1) * size + size;
  }

  /** An equal division is unique. */
  lemma {:induction false} EqualDivisionUnique(r: Ipv4Range, parts: nat, p: seq<Ipv4Range>, q: seq<Ipv4Range>, n: nat)
    requires 0 < parts && IsEqualDivision(r, parts, p) && IsEqualDivision(r, parts, q)
    requires n <= parts
    ensures p[..n] == q[..n]
  {
    if n > 0 {
      EqualDivisionUnique(r, parts, p, q, n - 1);
      if n > 1 {
        assert p[n - 2] == p[..n - 1][n - 2] == q[..n - 1][n - 2] == q[n - 2];
        assert p[n - 2 + 1].start == p[n - 2].end && q[n - 2 + 1].start == q[n - 2].end;
      }
      assert p[n - 1] == q[n - 1] by {
        if n < parts { assert Len(p[n - 1]) == Len(q[n - 1]); }
      }
      assert p[..n] == p[..n - 1] + [p[n - 1]] && q[..n] == q[..n - 1] + [q[n - 1]];
    }
  }

  /** `Ipv4Range::divide`. Every intermediate value is a u32, so nothing overflows. */
  method Divide(r: Ipv4Range, parts: u32) returns (pools: seq<Ipv4Range>)
    requires parts > 0
    ensures IsEqualDivision(r, parts, pools)
    ensures pools == Divided(r, parts)
  {
    var poolSize: u32 := Len(r) / parts;
    pools := [];
    for i := 0 to parts
      invariant |pools| == i
      invariant i > 0 ==> pools[0].start == r.start && pools[i - 1].end == r.start + i * poolSize
      invariant forall k | 0 <= k < i :: Len(pools[k]) == poolSize
      invariant forall k | 0 <= k < i - 1 :: pools[k + 1].start == pools[k].end
    {
      CutInRange(Len(r), parts, i);
      CutInRange(Len(r), parts, i + 1);
      var low: u32, high: u32 := i * poolSize, (i + 1) * poolSize;
      assert high == low + poolSize;
      pools := pools + [Bounds(r.start + low, r.start + high)];
    }
    CutInRange(Len(r), parts, parts);
    var last := pools[parts - 1];
    var end: u32 := last.end + Len(r) % parts;
    pools := pools[parts - 1 := Bounds(last.start, end)];
    EqualDivisionUnique(r, parts, pools, Divided(r, parts), parts);
    assert pools[..parts] == pools && Divided(r, parts)[..parts] == Divided(r, parts);
  }

  lemma {:induction false} PoolsAreOrdered(r: Ipv4Range, parts: nat, pools: seq<Ipv4Range>, i: nat, j: nat)
    requires 0 < parts && IsEqualDivision(r, parts, pools)
    requires i < j < parts
    ensures pools[i].end <= pools[j].start
    decreases j
  {
    assert pools[j - 1 + 1].start == pools[j - 1].end;
    if i < j - 1 { PoolsAreOrdered(r, parts, pools, i, j - 1); }
  }

  lemma {:induction false} PoolsCover(r: Ipv4Range, parts: nat, pools: seq<Ipv4Range>, a: int, n: nat)
    requires 0 < parts && IsEqualDivision(r, parts, pools)
    requires n < parts && r.start <= a < pools[n].end
    ensures exists i :: 0 <= i <= n && pools[i].Contains(a)
  {
    if pools[n].Contains(a) {
    } else {
      assert n > 0 && pools[n - 1 + 1].start == pools[n - 1].end;
      PoolsCover(r, parts, pools, a, n - 1);
    }
  }

  /** A division is a partition: an address is in the divided pool if and only if it is in one of
      the parts, and no address is in two. */
  lemma DivisionIsPartition(r: Ipv4Range, parts: nat, pools: seq<Ipv4Range>, a: int)
    requires 0 < parts && IsEqualDivision(r, parts, pools)
    ensures r.Contains(a) <==> exists i :: 0 <= i < parts && pools[i].Contains(a)
    ensures forall i, j | 0 <= i < parts && 0 <= j < parts && pools[i].Contains(a) && pools[j].Contains(a) :: i == j
  {
    if r.Contains(a) { PoolsCover(r, parts, pools, a, parts - 1); }
    forall i | 0 <= i < parts && pools[i].Contains(a) ensures r.Contains(a) {
      if i > 0 { PoolsAreOrdered(r, parts, pools, 0, i); }
      if i < parts - 1 { PoolsAreOrdered(r, parts, pools, i, parts - 1); }
    }
    forall i, j | 0 <= i < parts && 0 <= j < parts && pools[i].Contains(a) && pools[j].Contains(a)
      ensures i == j
    {
      if i < j { PoolsAreOrdered(r, parts, pools, i, j); }
      if j < i { PoolsAreOrdered(r, parts, pools, j, i); }
    }
  }
}
