/**
  The Bloom filter that peers announce to each other: a byte vector changed in place, with double
  hashing over the first sixteen bytes of a SHA-256 digest. It is proved against the set of its bits.
*/
module BloomFilter {
  import opened Basics
  import opened Division
  import opened Words

  const DEFAULT_FILTER_SIZE_BITS: nat := 8192
  const DEFAULT_HASH_COUNT: nat := 5

  type byte = x: nat | x < 256 witness 0

  /** The two base hashes, read little-endian from the digest of an address. */
  datatype Digest = Digest(h1: u64, h2: u64)

  /** SHA-256 on addresses; its values are left open. */
  type Sha = NodeAddr -> Digest

  datatype BloomError = InvalidSize(expected: nat, got: nat) | SizeNotByteAligned(bits: nat) | ZeroHashCount

  datatype Result<T> = Ok(value: T) | Err(error: BloomError)

  /** A filter as a value: what `clone` and `==` see. */
  datatype Filter = Filter(bits: seq<byte>, hashCount: nat) {
    function NumBits(): nat {
      8 * |bits|
    }

    predicate GetBit(i: nat)
      requires i < NumBits()
    {
      Bit(bits[i / 8], i % 8)
    }

    /** The positions whose bit is one. */
    ghost function Ones(): set<nat> {
      set i: nat | i < NumBits() && GetBit(i)
    }

    ghost predicate IsDefault() {
      NumBits() == DEFAULT_FILTER_SIZE_BITS && hashCount == DEFAULT_HASH_COUNT
    }
  }

  /** Hash function number `k`, with 64-bit wrap-around. */
  function Hash(d: Digest, k: nat, numBits: nat): (i: nat)
    requires numBits > 0
    ensures i < numBits
  {
    Wrapped(d.h1, d.h2, k, Pow2(64), numBits)
  }

  /** The positions of an address under the first `count` hash functions. */
  function Positions(d: Digest, count: nat, numBits: nat): (s: set<nat>)
    requires numBits > 0
    ensures forall i | i in s :: i < numBits
  {
    if count == 0 then {} else Positions(d, count - 1, numBits) + {Hash(d, count - 1, numBits)}
  }

  lemma {:induction false} PositionsGrow(d: Digest, count: nat, more: nat, numBits: nat)
    requires numBits > 0 && count <= more
    ensures Positions(d, count, numBits) <= Positions(d, more, numBits)
  {
    if count < more {
      PositionsGrow(d, count, more - 1, numBits);
    }
  }

  /** The positions are those of the hash functions below the count. */
  lemma {:induction false} PositionsAre(d: Digest, count: nat, numBits: nat, i: nat)
    requires numBits > 0
    ensures i in Positions(d, count, numBits) <==> exists k: nat | k < count :: Hash(d, k, numBits) == i
  {
    hide Hash;
    if count > 0 {
      PositionsAre(d, count - 1, numBits, i);
    }
  }

  /** Double hashing: each hash function adds the second base hash once more to the first, in 64 bits. */
  lemma HashIs(d: Digest, k: nat, numBits: nat)
    requires numBits > 0
    ensures Hash(d, k, numBits) == ((d.h1 + k * d.h2) % Pow2(64)) % numBits
    ensures Hash(d, 0, numBits) == d.h1 % numBits
  {
    hide Pow2;
    WrapOnce(d.h1, d.h2, k, Pow2(64), numBits);
    WrapOnce(d.h1, d.h2, 0, Pow2(64), numBits);
    SmallMod(d.h1, Pow2(64));
  }

  /** Where the size divides the range of the hash, as every power of two does, no wrap-around shows. */
  lemma HashWithoutWrap(d: Digest, k: nat, numBits: nat)
    requires numBits > 0 && Pow2(64) % numBits == 0
    ensures Hash(d, k, numBits) == (d.h1 + k * d.h2) % numBits
  {
    WrapHidden(d.h1, d.h2, k, Pow2(64), numBits);
  }

  /** The default size is such a power. */
  lemma DefaultHash(d: Digest, k: nat)
    ensures Hash(d, k, DEFAULT_FILTER_SIZE_BITS) == (d.h1 + k * d.h2) % 8192
  {
    assert Pow2(13) == 8192;
    PowersDivide(13, 64);
    hide Pow2;
    HashWithoutWrap(d, k, 8192);
  }

  lemma {:induction false} PowersDivide(a: nat, b: nat)
    requires a <= b
    ensures Pow2(b) % Pow2(a) == 0
    decreases b
  {
    if a < b {
      PowersDivide(a, b - 1);
      var p, q := Pow2(a), Pow2(b - 1) / Pow2(a);
      assert Pow2(b - 1) == p * q;
      DivModIs(Pow2(b), p, 2 * q, 0);
    } else {
      DivModIs(Pow2(b), Pow2(a), 1, 0);
    }
  }

  function PopCount(b: nat): nat {
    if b == 0 then 0 else b % 2 + PopCount(b / 2)
  }

  /** Two filters are equal exactly when they have the same parameters and the same bits set. */
  lemma EqualIffSameOnes(f: Filter, g: Filter)
    ensures f == g <==> f.hashCount == g.hashCount && f.NumBits() == g.NumBits() && f.Ones() == g.Ones()
  {
    hide Bit;
    if f.NumBits() == g.NumBits() && f.Ones() == g.Ones() {
      forall k | 0 <= k < |f.bits| ensures f.bits[k] == g.bits[k] {
        forall j | 0 <= j < 8 ensures Bit(f.bits[k], j) == Bit(g.bits[k], j) {
          var i := 8 * k + j;
          assert i / 8 == k && i % 8 == j;
          assert (i in f.Ones()) == f.GetBit(i) && (i in g.Ones()) == g.GetBit(i);
        }
        SameBitsSameNat(f.bits[k], g.bits[k], 8);
      }
    }
  }

  /** Positions count bits from the least significant one of the first byte. */
  lemma OneBitLayout(f: Filter, i: nat)
    requires i < f.NumBits() && f.Ones() == {i}
    ensures f.bits[i / 8] == Pow2(i % 8)
    ensures forall k | 0 <= k < |f.bits| && k != i / 8 :: f.bits[k] == 0
  {
    hide Bit, Pow2, Filter.Ones;
    EmptyHasNone(f.NumBits(), f.hashCount);
    var g := EmptyFilter(f.NumBits(), f.hashCount);
    SettingAdds(g, i);
    EqualIffSameOnes(f, Setting(g, i));
  }

  lemma {:induction false} SameBitsSameNat(a: nat, b: nat, n: nat)
    requires a < Pow2(n) && b < Pow2(n)
    requires forall j | 0 <= j < n :: Bit(a, j) == Bit(b, j)
    ensures a == b
  {
    if n > 0 {
      assert Bit(a, 0) == Bit(b, 0);
      forall j | 0 <= j < n - 1 ensures Bit(a / 2, j) == Bit(b / 2, j) {
        assert Bit(a, j + 1) == Bit(b, j + 1);
      }
      SameBitsSameNat(a / 2, b / 2, n - 1);
    }
  }

  // ----- counting -----

  function CountOnesOf(bits: seq<byte>): nat {
    if bits == [] then 0 else CountOnesOf(bits[..|bits| - 1]) + PopCount(bits[|bits| - 1])
  }

  ghost function OnesBelow(b: nat, n: nat): set<nat> {
    set j: nat | j < n && Bit(b, j)
  }

  lemma {:induction false} PopCountIsCard(b: nat, n: nat)
    requires b < Pow2(n)
    ensures PopCount(b) == |OnesBelow(b, n)|
  {
    hide Bit, OnesBelow;
    if n > 0 {
      PopCountIsCard(b / 2, n - 1);
      var half := OnesBelow(b / 2, n - 1);
      var up := set j | j in half :: j + 1;
      CardOfShift(half, up, 1);
      OnesBelowHalf(b, n, half, up);
    } else {
      assert OnesBelow(b, n) == {} by {
        NothingBelowZero(b);
      }
    }
  }

  lemma NothingBelowZero(b: nat)
    ensures OnesBelow(b, 0) == {}
  {}

  lemma OnesBelowHalf(b: nat, n: nat, half: set<nat>, up: set<nat>)
    requires n > 0 && half == OnesBelow(b / 2, n - 1)
    requires up == set j | j in half :: j + 1
    ensures OnesBelow(b, n) == up + (if b % 2 == 1 then {0} else {}) && 0 !in up
  {
    hide PopCount;
    forall j: nat ensures j in OnesBelow(b, n) <==> j in up + (if b % 2 == 1 then {0} else {}) {
      if j > 0 {
        assert Bit(b, j) == Bit(b / 2, j - 1);
        assert j in up <==> j - 1 in half;
      } else {
        assert Bit(b, 0) == (b % 2 == 1);
      }
    }
  }

  lemma {:induction false} CardOfShift(s: set<nat>, t: set<nat>, d: nat)
    requires t == set j | j in s :: j + d
    ensures |t| == |s|
    decreases |s|
  {
    if s != {} {
      var x :| x in s;
      var rest := set j | j in s - {x} :: j + d;
      forall y ensures y in t - {x + d} <==> y in rest {
        if y in t - {x + d} {
          var j :| j in s && j + d == y;
          assert j in s - {x};
        }
      }
      CardOfShift(s - {x}, t - {x + d}, d);
    } else {
      assert t == {};
    }
  }

  /** The byte-wise population count is the number of positions set. */
  lemma {:induction false} CountOnesIsCard(f: Filter)
    ensures CountOnesOf(f.bits) == |f.Ones()|
    decreases |f.bits|
  {
    hide Bit, PopCount;
    var n := |f.bits|;
    if n > 0 {
      var g := Filter(f.bits[..n - 1], f.hashCount);
      var last := OnesBelow(f.bits[n - 1], 8);
      var top := set j | j in last :: j + g.NumBits();
      CountOnesIsCard(g);
      PopCountIsCard(f.bits[n - 1], 8);
      CardOfShift(last, top, g.NumBits());
      OnesOfLast(f, g, last, top);
      assert |g.Ones() + top| == |g.Ones()| + |top|;
    } else {
      assert f.Ones() == {};
    }
  }

  lemma OnesOfLast(f: Filter, g: Filter, last: set<nat>, top: set<nat>)
    requires |f.bits| > 0 && g.bits == f.bits[..|f.bits| - 1]
    requires last == OnesBelow(f.bits[|f.bits| - 1], 8)
    requires top == set j | j in last :: j + g.NumBits()
    ensures f.Ones() == g.Ones() + top && g.Ones() !! top
  {
    hide Bit;
    var base := g.NumBits();
    forall i: nat ensures i in f.Ones() <==> i in g.Ones() + top {
      if i < base {
        assert f.bits[i / 8] == g.bits[i / 8];
        assert f.GetBit(i) == g.GetBit(i);
        assert i !in top;
      } else {
        assert i !in g.Ones();
        if i < f.NumBits() {
          assert i / 8 == |f.bits| - 1 && i % 8 == i - base;
          assert f.GetBit(i) == (i - base in last);
          if i - base in last {
            assert (i - base) + base in top;
          }
        }
      }
    }
  }

  // ----- the filter object -----

  class BloomFilter {
    const bits: array<byte>
    const hashCount: nat

    ghost predicate Valid()
      reads bits
    {
      bits.Length > 0 && 0 < hashCount < 256
    }

    function Value(): Filter
      reads bits
    {
      Filter(bits[..], hashCount)
    }

    constructor Of(bytes: seq<byte>, hashCount: nat)
      requires bytes != [] && 0 < hashCount < 256
      ensures Valid() && fresh(bits) && Value() == Filter(bytes, hashCount)
    {
      bits := new byte[|bytes|](i requires 0 <= i < |bytes| => bytes[i]);
      this.hashCount := hashCount;
    }

    static method FromBytes(bytes: seq<byte>, hashCount: nat) returns (r: Result<BloomFilter>)
      requires hashCount < 256
      ensures hashCount == 0 ==> r == Err(ZeroHashCount)
      ensures hashCount > 0 && bytes == [] ==> r == Err(SizeNotByteAligned(0))
      ensures hashCount > 0 && bytes != [] ==>
                r.Ok? && r.value.Valid() && fresh(r.value) && fresh(r.value.bits)
                && r.value.Value() == Filter(bytes, hashCount)
    {
      if hashCount == 0 {
        return Err(ZeroHashCount);
      }
      if bytes == [] {
        return Err(SizeNotByteAligned(0));
      }
      var f := new BloomFilter.Of(bytes, hashCount);
      r := Ok(f);
    }

    static method WithParams(numBits: nat, hashCount: nat) returns (r: Result<BloomFilter>)
      requires hashCount < 256
      ensures numBits == 0 || numBits % 8 != 0 ==> r == Err(SizeNotByteAligned(numBits))
      ensures numBits > 0 && numBits % 8 == 0 && hashCount == 0 ==> r == Err(ZeroHashCount)
      ensures r.Err? <==> numBits == 0 || numBits % 8 != 0 || hashCount == 0
      ensures r.Ok? ==> r.value.Valid() && fresh(r.value) && fresh(r.value.bits)
                        && r.value.Value().NumBits() == numBits && r.value.hashCount == hashCount
                        && r.value.Value().Ones() == {}
    {
      if numBits == 0 || numBits % 8 != 0 {
        return Err(SizeNotByteAligned(numBits));
      }
      if hashCount == 0 {
        return Err(ZeroHashCount);
      }
      var f := new BloomFilter.Of(seq(numBits / 8, _ => 0), hashCount);
      forall j: nat ensures !Bit(0, j) { ZeroBit(j); }
      r := Ok(f);
    }

    method SetBit(index: nat)
      requires index < 8 * bits.Length
      modifies bits
      ensures Value().Ones() == old(Value().Ones()) + {index}
    {
      ghost var was := Value();
      ByteOr(bits[index / 8], index % 8);
      bits[index / 8] := OrNat(bits[index / 8], Pow2(index % 8));
      SettingAdds(was, index);
    }

    method Insert(d: Digest)
      requires Valid()
      modifies bits
      ensures Value().Ones() == old(Value().Ones()) + Positions(d, hashCount, 8 * bits.Length)
    {
      hide Hash;
      for i := 0 to hashCount
        invariant Value().Ones() == old(Value().Ones()) + Positions(d, i, 8 * bits.Length)
      {
        SetBit(Hash(d, i, 8 * bits.Length));
      }
    }

    /** No false negatives, and a positive exactly when every position of the address is set. */
    method Contains(d: Digest) returns (ok: bool)
      requires Valid()
      ensures ok == MayContain(Value(), d)
    {
      hide Hash, Bit;
      for i := 0 to hashCount
        invariant Positions(d, i, 8 * bits.Length) <= Value().Ones()
      {
        var k := Hash(d, i, 8 * bits.Length);
        if !Bit(bits[k / 8], k % 8) {
          PositionsGrow(d, i + 1, hashCount, 8 * bits.Length);
          assert k in Positions(d, hashCount, 8 * bits.Length) && k !in Value().Ones();
          return false;
        }
        assert Value().GetBit(k) && k in Value().Ones();
        assert Positions(d, i + 1, 8 * bits.Length) == Positions(d, i, 8 * bits.Length) + {k};
      }
      ok := true;
    }

    /** A size mismatch leaves the filter alone; otherwise the bits are united. The hash count of the
        other filter plays no part. */
    method Merge(other: Filter) returns (r: Result<()>)
      modifies bits
      ensures r.Err? <==> other.NumBits() != 8 * bits.Length
      ensures r.Err? ==> r == Err(InvalidSize(8 * bits.Length, other.NumBits())) && Value() == old(Value())
      ensures r.Ok? ==> Value().Ones() == old(Value().Ones()) + other.Ones()
    {
      if 8 * bits.Length != other.NumBits() {
        return Err(InvalidSize(8 * bits.Length, other.NumBits()));
      }
      ghost var was := Value();
      for i := 0 to bits.Length
        invariant forall k | 0 <= k < i :: bits[k] == OrByte(was.bits[k], other.bits[k])
        invariant forall k | i <= k < bits.Length :: bits[k] == was.bits[k]
      {
        bits[i] := OrByte(bits[i], other.bits[i]);
      }
      hide Bit;
      forall i: nat | i < was.NumBits()
        ensures Value().GetBit(i) == (was.GetBit(i) || other.GetBit(i))
      {
        OrBit(was.bits[i / 8], other.bits[i / 8], i % 8);
      }
      r := Ok(());
    }

    /** A new filter with the bits of both; this one stays as it is. */
    method Union(other: Filter) returns (r: Result<BloomFilter>)
      requires Valid()
      ensures r.Err? <==> other.NumBits() != 8 * bits.Length
      ensures r.Err? ==> r == Err(InvalidSize(8 * bits.Length, other.NumBits()))
      ensures r.Ok? ==> fresh(r.value) && fresh(r.value.bits) && r.value.hashCount == hashCount
                        && r.value.bits.Length == bits.Length
                        && r.value.Value().Ones() == Value().Ones() + other.Ones()
    {
      hide Filter.Ones;
      var result := new BloomFilter.Of(bits[..], hashCount);
      var merged := result.Merge(other);
      if merged.Err? {
        return Err(merged.error);
      }
      r := Ok(result);
    }

    method Clear()
      modifies bits
      ensures Value().Ones() == {}
    {
      forall k | 0 <= k < bits.Length {
        bits[k] := 0;
      }
      forall j: nat ensures !Bit(0, j) { ZeroBit(j); }
    }

    method CountOnes() returns (n: nat)
      ensures n == |Value().Ones()|
    {
      n := 0;
      for i := 0 to bits.Length
        invariant n == CountOnesOf(bits[..i])
      {
        assert bits[..i + 1][..i] == bits[..i];
        n := n + PopCount(bits[i]);
      }
      assert bits[..bits.Length] == bits[..];
      CountOnesIsCard(Value());
    }
  }

  /** A filter with one more bit set. */
  function Setting(f: Filter, index: nat): (g: Filter)
    requires index < f.NumBits()
    ensures g.NumBits() == f.NumBits() && g.hashCount == f.hashCount
  {
    ByteOr(f.bits[index / 8], index % 8);
    f.(bits := f.bits[index / 8 := OrNat(f.bits[index / 8], Pow2(index % 8))])
  }

  lemma SettingAdds(f: Filter, index: nat)
    requires index < f.NumBits()
    ensures Setting(f, index).Ones() == f.Ones() + {index}
  {
    hide Bit;
    var g := Setting(f, index);
    forall i: nat | i < f.NumBits() ensures g.GetBit(i) == (i == index || f.GetBit(i)) {
      OrBit(f.bits[i / 8], Pow2(index % 8), i % 8);
      Pow2Bit(index % 8, i % 8);
    }
  }

  function OrByte(a: byte, b: byte): byte {
    OrBelow(a, b, 8);
    OrNat(a, b)
  }

  lemma ByteOr(a: byte, j: nat)
    requires j < 8
    ensures OrNat(a, Pow2(j)) < 256
  {
    Pow2Grows(j + 1, 8);
    OrBelow(a, Pow2(j), 8);
  }

  lemma {:induction false} Pow2Bit(b: nat, j: nat)
    ensures Bit(Pow2(b), j) == (j == b)
  {
    if b > 0 && j > 0 {
      Pow2Bit(b - 1, j - 1);
    } else if b == 0 && j > 0 {
      ZeroBit(j - 1);
    }
  }

  /** What a query answers. */
  ghost predicate MayContain(f: Filter, d: Digest) {
    f.NumBits() > 0 && Positions(d, f.hashCount, f.NumBits()) <= f.Ones()
  }

  // ----- what a whole history of inserts and merges leaves -----

  datatype Op = InsertOp(d: Digest) | MergeOp(f: Filter)

  ghost function OpOnes(op: Op, hashCount: nat, numBits: nat): set<nat>
    requires numBits > 0
  {
    match op
    case InsertOp(d) => Positions(d, hashCount, numBits)
    case MergeOp(f) => if f.NumBits() == numBits then f.Ones() else {}
  }

  /** The bits after a history of operations, each adding what its method adds. */
  ghost function OnesAfter(ops: seq<Op>, hashCount: nat, numBits: nat): set<nat>
    requires numBits > 0
  {
    if ops == [] then {}
    else OnesAfter(ops[..|ops| - 1], hashCount, numBits) + OpOnes(ops[|ops| - 1], hashCount, numBits)
  }

  lemma {:induction false} OnesAfterIsUnion(ops: seq<Op>, hashCount: nat, numBits: nat, i: nat)
    requires numBits > 0
    ensures i in OnesAfter(ops, hashCount, numBits) <==>
            exists op | op in ops :: i in OpOnes(op, hashCount, numBits)
  {
    if ops != [] {
      OnesAfterIsUnion(ops[..|ops| - 1], hashCount, numBits, i);
    }
  }

  /** Order and repetition do not matter: histories with the same operations leave the same filter. */
  lemma OrderIrrelevant(ops: seq<Op>, other: seq<Op>, f: Filter, g: Filter)
    requires f.NumBits() == g.NumBits() > 0 && f.hashCount == g.hashCount
    requires f.Ones() == OnesAfter(ops, f.hashCount, f.NumBits())
    requires g.Ones() == OnesAfter(other, g.hashCount, g.NumBits())
    requires forall op :: op in ops <==> op in other
    ensures f == g
  {
    forall i: nat ensures i in f.Ones() <==> i in g.Ones() {
      OnesAfterIsUnion(ops, f.hashCount, f.NumBits(), i);
      OnesAfterIsUnion(other, f.hashCount, f.NumBits(), i);
    }
    EqualIffSameOnes(f, g);
  }

  /** Everything inserted, directly or into a merged filter of the same size that uses at least as many
      hash functions, is reported ever after. */
  lemma NoFalseNegatives(ops: seq<Op>, f: Filter, d: Digest)
    requires f.NumBits() > 0 && f.Ones() == OnesAfter(ops, f.hashCount, f.NumBits())
    requires InsertOp(d) in ops ||
             exists g: Filter :: MergeOp(g) in ops && g.NumBits() == f.NumBits()
                                 && f.hashCount <= g.hashCount && MayContain(g, d)
    ensures MayContain(f, d)
  {
    forall i | i in Positions(d, f.hashCount, f.NumBits()) ensures i in f.Ones() {
      OnesAfterIsUnion(ops, f.hashCount, f.NumBits(), i);
      if InsertOp(d) !in ops {
        var g: Filter :| MergeOp(g) in ops && g.NumBits() == f.NumBits()
                         && f.hashCount <= g.hashCount && MayContain(g, d);
        PositionsGrow(d, f.hashCount, g.hashCount, f.NumBits());
        assert i in OpOnes(MergeOp(g), f.hashCount, f.NumBits());
      } else {
        assert i in OpOnes(InsertOp(d), f.hashCount, f.NumBits());
      }
    }
  }

  // ----- merging filters of different hash counts -----

  /** `m` is what `f` becomes when `g` is merged into it. */
  ghost predicate MergesTo(f: Filter, g: Filter, m: Filter) {
    f.NumBits() == g.NumBits() == m.NumBits() && m.hashCount == f.hashCount && m.Ones() == f.Ones() + g.Ones()
  }

  /** Merging keeps the members of every filter with `other` hash functions in every filter with `own`. */
  ghost predicate KeepsMembers(own: nat, other: nat, numBits: nat) {
    forall f, g, m, d | MergesTo(f, g, m) && f.NumBits() == numBits && f.hashCount == own && g.hashCount == other
                        && MayContain(g, d) :: MayContain(m, d)
  }

  /** An empty filter. */
  function EmptyFilter(numBits: nat, hashCount: nat): Filter {
    Filter(seq(numBits / 8, _ => 0), hashCount)
  }

  lemma EmptyHasNone(numBits: nat, hashCount: nat)
    requires numBits % 8 == 0
    ensures EmptyFilter(numBits, hashCount).Ones() == {} && EmptyFilter(numBits, hashCount).NumBits() == numBits
  {
    forall j: nat ensures !Bit(0, j) { ZeroBit(j); }
  }

  /** The filter with exactly the positions of one digest. */
  lemma {:induction false} Only(d: Digest, count: nat, numBits: nat, hashCount: nat) returns (f: Filter)
    requires numBits > 0 && numBits % 8 == 0
    ensures f.NumBits() == numBits && f.hashCount == hashCount && f.Ones() == Positions(d, count, numBits)
    decreases count
  {
    hide Hash, Filter.Ones, Setting;
    if count == 0 {
      f := EmptyFilter(numBits, hashCount);
      EmptyHasNone(numBits, hashCount);
    } else {
      var g := Only(d, count - 1, numBits, hashCount);
      SettingAdds(g, Hash(d, count - 1, numBits));
      f := Setting(g, Hash(d, count - 1, numBits));
    }
  }

  /** A digest with a position that fewer hash functions do not have is lost: an empty filter takes in one
      that holds just this digest and does not report it. */
  lemma LosesMember(d: Digest, own: nat, other: nat, numBits: nat) returns (f: Filter, g: Filter, m: Filter)
    requires numBits > 0 && numBits % 8 == 0
    requires !(Positions(d, own, numBits) <= Positions(d, other, numBits))
    ensures MergesTo(f, g, m) && f.NumBits() == numBits && f.hashCount == own && g.hashCount == other
    ensures f.Ones() == {} && MayContain(g, d) && !MayContain(m, d)
  {
    hide Positions, Filter.Ones;
    f := EmptyFilter(numBits, own);
    EmptyHasNone(numBits, own);
    g := Only(d, other, numBits, other);
    m := g.(hashCount := own);
    SameBitsSameOnes(m, g);
  }

  lemma SameBitsSameOnes(f: Filter, g: Filter)
    requires f.bits == g.bits
    ensures f.Ones() == g.Ones()
  {
    hide Bit;
    forall i: nat | i < f.NumBits() ensures f.GetBit(i) == g.GetBit(i) {}
  }

  /** `own` hash functions never reach a position that `other` ones do not. */
  ghost predicate Covers(own: nat, other: nat, numBits: nat)
    requires numBits > 0
  {
    forall d: Digest :: Positions(d, own, numBits) <= Positions(d, other, numBits)
  }

  lemma KeepsMembersIffCovers(own: nat, other: nat, numBits: nat)
    requires numBits > 0 && numBits % 8 == 0
    ensures KeepsMembers(own, other, numBits) <==> Covers(own, other, numBits)
  {
    if Covers(own, other, numBits) {
      forall f, g, m, d | MergesTo(f, g, m) && f.NumBits() == numBits && f.hashCount == own && g.hashCount == other
                          && MayContain(g, d)
        ensures MayContain(m, d)
      {
        assert Positions(d, own, numBits) <= Positions(d, other, numBits);
      }
    } else {
      var d: Digest :| !(Positions(d, own, numBits) <= Positions(d, other, numBits));
      var f, g, m := LosesMember(d, own, other, numBits);
    }
  }

  /** The exact condition, for every size: a merge keeps the other filter's members if and only if that filter
      uses at least as many hash functions, or so many that they reach all positions these digests ever
      reach, which needs a size that divides the range of the hash. */
  lemma MergeKeepsMembersIff(own: nat, other: nat, numBits: nat)
    requires 0 < own < 256 && 0 < other < 256 && numBits > 0 && numBits % 8 == 0
    ensures KeepsMembers(own, other, numBits)
            <==> own <= other || (numBits <= other && Pow2(64) % numBits == 0)
  {
    KeepsMembersIffCovers(own, other, numBits);
    if own <= other {
      forall d: Digest ensures Positions(d, own, numBits) <= Positions(d, other, numBits) {
        PositionsGrow(d, own, other, numBits);
      }
    } else if other < numBits {
      StrideMisses(own, other, numBits);
    } else if Pow2(64) % numBits == 0 {
      forall d: Digest ensures Positions(d, own, numBits) <= Positions(d, other, numBits) {
        Periodic(d, own, numBits);
        PositionsGrow(d, numBits, other, numBits);
      }
    } else {
      WrapMisses(own, other, numBits);
    }
  }

  lemma {:induction false} SmallStride(d: Digest, count: nat, numBits: nat)
    requires d == Digest(0, 1) && count <= numBits && count <= 256
    requires numBits > 0
    ensures forall i :: i in Positions(d, count, numBits) <==> 0 <= i < count
  {
    if count > 0 {
      SmallStride(d, count - 1, numBits);
      StrideHash(count - 1, numBits);
    }
  }

  lemma StrideHash(k: nat, numBits: nat)
    requires k < numBits && k < 256
    ensures Hash(Digest(0, 1), k, numBits) == k
  {
    Pow2Grows(8, 64);
    assert Pow2(8) == 256;
    hide Pow2;
    SmallMod(k, Pow2(64));
    SmallMod(k, numBits);
  }

  /** The digest whose positions count up has one more position than fewer hash functions reach. */
  lemma StrideMisses(own: nat, other: nat, numBits: nat)
    requires other < own < 256 && other < numBits
    ensures !Covers(own, other, numBits)
  {
    hide Hash;
    var d := Digest(0, 1);
    SmallStride(d, other, numBits);
    StrideHash(other, numBits);
    PositionsGrow(d, other + 1, own, numBits);
    assert other in Positions(d, other + 1, numBits);
    assert !(Positions(d, own, numBits) <= Positions(d, other, numBits));
  }

  /** With a size that divides the hash range, positions repeat after as many hash functions as bits. */
  lemma {:induction false} Periodic(d: Digest, count: nat, numBits: nat)
    requires numBits > 0 && Pow2(64) % numBits == 0
    ensures Positions(d, count, numBits) <= Positions(d, numBits, numBits)
  {
    if count > 0 {
      Periodic(d, count - 1, numBits);
      var k := (count - 1) % numBits;
      Repeats(d.h1, d.h2, count - 1, Pow2(64), numBits);
      hide Wrapped;
      PositionsGrow(d, k + 1, numBits, numBits);
      assert Hash(d, k, numBits) in Positions(d, k + 1, numBits);
    }
  }

  /** Otherwise there is a digest that stays at position zero until the hash wraps around. */
  lemma WrapMisses(own: nat, other: nat, numBits: nat)
    requires 0 < other < own < 256 && 0 < numBits <= other && Pow2(64) % numBits != 0
    ensures !Covers(own, other, numBits)
  {
    HashRange();
    hide Pow2, Wrapped, Positions, Covers, Hash;
    var w := Pow2(64);
    DivModIs(w, 1, w, 0);
    var q := StrideFits(other, numBits, w);
    var d := Digest(0, numBits * q);
    AtZero(d, q, other, numBits, other - 1, w);
    WrapsAway(d, q, other, numBits, w);
    MissesOne(d, own, other, numBits);
  }

  lemma HashRange()
    ensures Pow2(64) >= 0x200_0000
  {
    Pow2Grows(25, 64);
    assert Pow2(8) == 0x100;
    assert Pow2(16) == 0x1_0000;
    assert Pow2(20) == 0x10_0000;
    assert Pow2(25) == 0x200_0000;
  }

  lemma WrapsAway(d: Digest, q: nat, k: nat, numBits: nat, w: nat)
    requires numBits > 0 && d.h1 == 0 && d.h2 == numBits * q && w == Pow2(64) && w % numBits != 0
    requires w <= k * (numBits * q) < 2 * w
    ensures Hash(d, k, numBits) != 0
  {
    hide Pow2, Wrapped;
    ElsewhereAfterWrap(numBits, q, k, w);
  }

  lemma MissesOne(d: Digest, own: nat, other: nat, numBits: nat)
    requires other < own && numBits > 0
    requires Positions(d, other, numBits) <= {0} && Hash(d, other, numBits) != 0
    ensures !Covers(own, other, numBits)
  {
    hide Hash, Positions, Pow2, Wrapped;
    PositionsGrow(d, other + 1, own, numBits);
    LastPosition(d, other, numBits);
    var last := Hash(d, other, numBits);
    assert last in Positions(d, own, numBits) && last !in Positions(d, other, numBits);
  }

  lemma LastPosition(d: Digest, k: nat, numBits: nat)
    requires numBits > 0
    ensures Hash(d, k, numBits) in Positions(d, k + 1, numBits)
  {
    hide Hash;
  }

  lemma {:induction false} AtZero(d: Digest, q: nat, count: nat, numBits: nat, last: nat, w: nat)
    requires numBits > 0 && d.h1 == 0 && d.h2 == numBits * q && w == Pow2(64)
    requires count <= last + 1 && last * (numBits * q) < w
    ensures Positions(d, count, numBits) <= {0}
  {
    hide Pow2, Wrapped;
    if count > 0 {
      AtZero(d, q, count - 1, numBits, last, w);
      Product(count - 1, numBits * q, last, numBits * q);
      ZeroBeforeWrap(numBits, q, count - 1, w);
    }
  }
}
