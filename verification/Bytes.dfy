/**
  Little-endian integers, and records of them laid out one after the other.
*/
module Bytes {

  type byte = b: int | 0 <= b < 256

  type u8 = b: int | 0 <= b < 256
  type u16 = x: int | 0 <= x < 0x1_0000
  type u32 = x: int | 0 <= x < 0x1_0000_0000
  type u64 = x: int | 0 <= x < 0x1_0000_0000_0000_0000
  type i32 = x: int | -0x8000_0000 <= x < 0x8000_0000

  function Pow256(n: nat): (p: nat)
    ensures p > 0
  {
    if n == 0 then 1 else 256 * Pow256(n - 1)
  }

  /** The `n` low bytes of a number, lowest first. */
  function Le(n: nat, v: nat): (b: seq<byte>)
    ensures |b| == n
  {
    if n == 0 then [] else [v % 256] + Le(n - 1, v / 256)
  }

  function FromLe(b: seq<byte>): (v: nat)
    ensures v < Pow256(|b|)
  {
    if b == [] then 0 else b[0] + 256 * FromLe(b[1..])
  }

  lemma {:induction false} FromLeOfLe(n: nat, v: nat)
    requires v < Pow256(n)
    ensures FromLe(Le(n, v)) == v
  {
    if n > 0 {
      FromLeOfLe(n - 1, v / 256);
      assert Le(n, v)[1..] == Le(n - 1, v / 256);
    }
  }

  lemma {:induction false} LeOfFromLe(b: seq<byte>)
    ensures Le(|b|, FromLe(b)) == b
  {
    if b != [] {
      LeOfFromLe(b[1..]);
      assert b == [b[0]] + b[1..];
    }
  }

  /** Little-endian: the first byte counts once, and what follows `n` bytes counts `256` to the `n` times. */
  lemma {:induction false} FromLeJoins(a: seq<byte>, b: seq<byte>)
    ensures FromLe(a + b) == FromLe(a) + Pow256(|a|) * FromLe(b)
    ensures forall x: byte :: FromLe([x]) == x
  {
    if a == [] {
      assert a + b == b;
    } else {
      FromLeJoins(a[1..], b);
      assert (a + b)[1..] == a[1..] + b;
      Times256(Pow256(|a| - 1), FromLe(b));
    }
  }

  lemma Times256(p: nat, v: nat)
    ensures 256 * (p * v) == (256 * p) * v
  {}

  /** The two types hold the same numbers modulo the size of the word, and convert back and forth. */
  lemma TwosComplement(x: i32, y: u32)
    ensures ToI32(ToU32(x)) == x && ToU32(ToI32(y)) == y
    ensures (ToU32(x) - x) % 0x1_0000_0000 == 0
  {}

  /** Two's complement. */
  function ToU32(x: i32): u32 {
    if x < 0 then x + 0x1_0000_0000 else x
  }

  function ToI32(x: u32): i32 {
    if x >= 0x8000_0000 then x - 0x1_0000_0000 else x
  }

  // ----- records -----

  function Size(widths: seq<nat>): nat {
    if widths == [] then 0 else widths[0] + Size(widths[1..])
  }

  /** Where field `i` starts. */
  function Offset(widths: seq<nat>, i: nat): (at: nat)
    requires i < |widths|
    ensures at + widths[i] <= Size(widths)
  {
    if i == 0 then 0 else widths[0] + Offset(widths[1..], i - 1)
  }

  ghost predicate Fits(widths: seq<nat>, values: seq<nat>) {
    |values| == |widths| && forall i | 0 <= i < |widths| :: values[i] < Pow256(widths[i])
  }

  function Pack(widths: seq<nat>, values: seq<nat>): (b: seq<byte>)
    requires |values| == |widths|
    ensures |b| == Size(widths)
  {
    if widths == [] then [] else Le(widths[0], values[0]) + Pack(widths[1..], values[1..])
  }

  function Unpack(widths: seq<nat>, b: seq<byte>): (values: seq<nat>)
    requires Size(widths) <= |b|
    ensures |values| == |widths|
  {
    if widths == [] then [] else [FromLe(b[..widths[0]])] + Unpack(widths[1..], b[widths[0]..])
  }

  lemma {:induction false} UnpackOfPack(widths: seq<nat>, values: seq<nat>, rest: seq<byte>)
    requires Fits(widths, values)
    ensures Unpack(widths, Pack(widths, values) + rest) == values
  {
    if widths != [] {
      hide Le, FromLe, Pow256;
      var head, tail := Le(widths[0], values[0]), Pack(widths[1..], values[1..]) + rest;
      assert Pack(widths, values) + rest == head + tail;
      SplitAt(head, tail);
      FromLeOfLe(widths[0], values[0]);
      FitsTail(widths, values);
      UnpackOfPack(widths[1..], values[1..], rest);
      assert values == [values[0]] + values[1..];
    }
  }

  lemma SplitAt(a: seq<byte>, b: seq<byte>)
    ensures (a + b)[..|a|] == a && (a + b)[|a|..] == b
  {}

  lemma FitsTail(widths: seq<nat>, values: seq<nat>)
    requires widths != [] && Fits(widths, values)
    ensures values[0] < Pow256(widths[0]) && Fits(widths[1..], values[1..])
  {}

  lemma {:induction false} PackOfUnpack(widths: seq<nat>, b: seq<byte>)
    requires Size(widths) <= |b|
    ensures Fits(widths, Unpack(widths, b))
    ensures Pack(widths, Unpack(widths, b)) == b[..Size(widths)]
  {
    if widths != [] {
      var tail := b[widths[0]..];
      PackOfUnpack(widths[1..], tail);
      LeOfFromLe(b[..widths[0]]);
      var values := Unpack(widths, b);
      assert values[1..] == Unpack(widths[1..], tail);
      forall i | 0 <= i < |widths| ensures values[i] < Pow256(widths[i]) {
        if i > 0 {
          assert values[i] == values[1..][i - 1] && widths[i] == widths[1..][i - 1];
        }
      }
      assert b[..Size(widths)] == b[..widths[0]] + tail[..Size(widths[1..])];
    }
  }

  /** The number in `width` bytes from `offset`. */
  function Field(b: seq<byte>, offset: nat, width: nat): (v: nat)
    requires offset + width <= |b|
    ensures v < Pow256(width)
  {
    FromLe(b[offset..offset + width])
  }

  /** Reading at a fixed offset reads the field of the record that starts there. */
  lemma {:induction false} FieldIs(widths: seq<nat>, b: seq<byte>, i: nat)
    requires Size(widths) <= |b| && i < |widths|
    ensures Field(b, Offset(widths, i), widths[i]) == Unpack(widths, b)[i]
  {
    hide FromLe;
    if i > 0 {
      var n := widths[0];
      var at := Offset(widths[1..], i - 1);
      assert widths[1..][i - 1] == widths[i];
      FieldIs(widths[1..], b[n..], i - 1);
      SliceShift(b, n, at, at + widths[i]);
      assert Offset(widths, i) == n + at;
      assert Unpack(widths, b)[i] == Unpack(widths[1..], b[n..])[i - 1];
    } else {
      assert b[0..0 + widths[0]] == b[..widths[0]];
    }
  }

  lemma SliceShift(b: seq<byte>, n: nat, from: nat, until: nat)
    requires n + until <= |b| && from <= until
    ensures b[n..][from..until] == b[n + from..n + until]
  {}

  lemma {:induction false} OffsetStep(widths: seq<nat>, i: nat)
    requires i + 1 < |widths|
    ensures Offset(widths, i + 1) == Offset(widths, i) + widths[i]
  {
    if i > 0 {
      assert widths[1..][i - 1] == widths[i];
      OffsetStep(widths[1..], i - 1);
    }
  }

  /** Appending a field to a record. */
  lemma {:induction false} PackAppend(widths: seq<nat>, values: seq<nat>, w: nat, v: nat)
    requires |values| == |widths|
    ensures Pack(widths + [w], values + [v]) == Pack(widths, values) + Le(w, v)
  {
    hide Le;
    if widths == [] {
      assert Pack([w], [v]) == Le(w, v) + Pack([], []);
      assert widths + [w] == [w] && values + [v] == [v];
    } else {
      assert (widths + [w])[1..] == widths[1..] + [w] && (values + [v])[1..] == values[1..] + [v];
      PackAppend(widths[1..], values[1..], w, v);
    }
  }

  lemma PowersOf256()
    ensures Pow256(1) == 0x100 && Pow256(2) == 0x1_0000 && Pow256(4) == 0x1_0000_0000
    ensures Pow256(8) == 0x1_0000_0000_0000_0000
  {}
}
