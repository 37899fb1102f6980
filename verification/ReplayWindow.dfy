/**
  The anti-replay window of a transport session: a fixed array of 64-bit words that is shifted in place
  when a higher counter arrives. It is proved against the plain set of every counter ever accepted.
*/
module ReplayWindow {
  import opened Words

  const REPLAY_WINDOW_SIZE: nat := 2048

  /** Bit `i` of a bitmap stored lowest word first. */
  predicate BitAt(words: seq<u64>, i: nat)
    requires i < 64 * |words|
  {
    Bit(words[i / 64], i % 64)
  }

  /** `to` is `from` with every bit moved up by `shift`, zeros coming in below. */
  ghost predicate ShiftedUp(from: seq<u64>, to: seq<u64>, shift: nat) {
    |from| == |to| &&
    forall i: nat | i < 64 * |to| :: BitAt(to, i) == (shift <= i && BitAt(from, i - shift))
  }

  /** The word the carry loop leaves at index `k`. */
  function CarriedWord(words: seq<u64>, b: nat, k: nat): u64
    requires k < |words| && 0 < b < 64
  {
    Or(Shl(words[k], b), if k == 0 then 0 else Shr(words[k - 1], 64 - b))
  }

  lemma CarriedBit(words: seq<u64>, b: nat, i: nat)
    requires 0 < b < 64 && i < 64 * |words|
    ensures Bit(CarriedWord(words, b, i / 64), i % 64) == (b <= i && BitAt(words, i - b))
  {
    hide Shl, Shr, Bit, OrNat, Pow2;
    var k, j := i / 64, i % 64;
    OrBit(Shl(words[k], b), if k == 0 then 0 else Shr(words[k - 1], 64 - b), j);
    ShiftLeftBit(words[k], b, j);
    if k == 0 {
      ZeroBit(j);
    } else {
      ShiftRightBit(words[k - 1], 64 - b, j);
    }
    if b <= j {
      assert (i - b) / 64 == k && (i - b) % 64 == j - b;
    } else if k > 0 {
      assert (i - b) / 64 == k - 1 && (i - b) % 64 == j + 64 - b;
    }
  }

  lemma AllShiftedOut(from: seq<u64>, to: seq<u64>, shift: nat)
    requires |from| == |to| && 64 * |to| <= shift
    requires forall i: nat | i < 64 * |to| :: !BitAt(to, i)
    ensures ShiftedUp(from, to, shift)
  {}

  function CarriedWords(words: seq<u64>, b: nat): (r: seq<u64>)
    requires 0 < b < 64
  {
    seq(|words|, k requires 0 <= k < |words| => CarriedWord(words, b, k))
  }

  /** Whole words moved up by `w`. */
  function MovedWords(words: seq<u64>, w: nat): seq<u64> {
    seq(|words|, k requires 0 <= k < |words| => if k < w then ZERO else words[k - w])
  }

  lemma MovedWordsAre(from: seq<u64>, words: seq<u64>, w: nat)
    requires |words| == |from| && w <= |from|
    requires forall k | 0 <= k < w :: words[k] == 0
    requires forall k | w <= k < |from| :: words[k] == from[k - w]
    ensures words == MovedWords(from, w)
  {}

  /** Copying whole words up by `w` and then carrying `b` bits moves the whole bitmap by `64 * w + b`. */
  lemma WordsThenBits(from: seq<u64>, mid: seq<u64>, to: seq<u64>, w: nat, b: nat)
    requires b < 64
    requires mid == if w == 0 then from else MovedWords(from, w)
    requires to == if b == 0 then mid else CarriedWords(mid, b)
    ensures ShiftedUp(from, to, 64 * w + b)
  {
    hide Bit, CarriedWord;
    forall i: nat | i < 64 * |to|
      ensures BitAt(to, i) == (64 * w + b <= i && BitAt(from, i - (64 * w + b)))
    {
      if b > 0 {
        CarriedBit(mid, b, i);
      }
      if b <= i {
        var m := i - b;
        if m / 64 < w {
          ZeroBit(m % 64);
        } else {
          assert (m - 64 * w) / 64 == m / 64 - w && (m - 64 * w) % 64 == m % 64;
        }
      }
    }
  }

  /** What the window stands for: the highest counter and every counter accepted so far. */
  datatype History = History(highest: nat, accepted: set<nat>) {
    ghost predicate Valid() {
      && (forall c | c in accepted :: c <= highest)
      && (highest == 0 || highest in accepted)
    }

    /** Neither seen nor too old. */
    predicate Fresh(counter: nat) {
      counter !in accepted && highest < counter + REPLAY_WINDOW_SIZE
    }

    function Accept(counter: nat): History {
      History(if counter > highest then counter else highest, accepted + {counter})
    }
  }

  const EMPTY := History(0, {})

  class ReplayWindow {
    var highest: u64
    const bitmap: array<u64>
    ghost var accepted: set<nat>

    ghost predicate Valid()
      reads this, bitmap
    {
      && bitmap.Length == REPLAY_WINDOW_SIZE / 64
      && Value().Valid()
      && forall i: nat | i < REPLAY_WINDOW_SIZE ::
           BitAt(bitmap[..], i) == (i <= highest && highest - i in accepted)
    }

    ghost function Value(): History
      reads this
    {
      History(highest, accepted)
    }

    constructor ()
      ensures Valid() && fresh(bitmap) && Value() == EMPTY
    {
      highest := 0;
      bitmap := new u64[REPLAY_WINDOW_SIZE / 64](_ => 0);
      accepted := {};
      new;
      AllZero(bitmap[..]);
    }

    /** May this counter be accepted? Changes nothing. */
    method Check(counter: u64) returns (ok: bool)
      requires Valid()
      ensures ok == Value().Fresh(counter)
    {
      hide Bit, Pow2, Shl;
      if counter > highest {
        return true;
      }
      var diff := highest - counter;
      if diff >= REPLAY_WINDOW_SIZE {
        return false;
      }
      MaskBit(bitmap[diff / 64], diff % 64);
      ok := And(bitmap[diff / 64], Shl(ONE, diff % 64)) == 0;
      assert BitAt(bitmap[..], diff) == (counter in accepted);
    }

    /** Mark a counter as received. A counter below the window would index outside the bitmap. */
    method Accept(counter: u64)
      requires Valid() && highest < counter + REPLAY_WINDOW_SIZE
      modifies this, bitmap
      ensures Valid() && Value() == old(Value()).Accept(counter)
    {
      hide Bit, Pow2, Shl;
      if counter > highest {
        var shift := counter - highest;
        if shift >= REPLAY_WINDOW_SIZE {
          Clear();
        } else {
          ShiftBitmap(shift);
        }
        SetBit(0);
        highest := counter;
      } else {
        SetBit(highest - counter);
      }
      accepted := accepted + {counter};
    }

    /** Receive one packet: check, decrypt (`authentic` is whether that succeeds), then accept. */
    method Receive(counter: u64, authentic: bool) returns (delivered: bool)
      requires Valid()
      modifies this, bitmap
      ensures Valid() && delivered == (old(Value()).Fresh(counter) && authentic)
      ensures Value() == Step(old(Value()), Packet(counter, authentic))
    {
      delivered := Check(counter);
      if delivered && authentic {
        Accept(counter);
      } else {
        delivered := false;
      }
    }

    method Reset()
      requires Valid()
      modifies this, bitmap
      ensures Valid() && Value() == EMPTY
    {
      highest := 0;
      Clear();
      accepted := {};
    }

    method Clear()
      modifies bitmap
      ensures forall i: nat | i < 64 * bitmap.Length :: !BitAt(bitmap[..], i)
    {
      forall k | 0 <= k < bitmap.Length {
        bitmap[k] := 0;
      }
      AllZero(bitmap[..]);
    }

    method SetBit(i: nat)
      requires i < 64 * bitmap.Length
      modifies bitmap
      ensures forall m: nat | m < 64 * bitmap.Length ::
                BitAt(bitmap[..], m) == (m == i || old(BitAt(bitmap[..], m)))
    {
      hide Bit, Pow2, Shl, Or;
      ghost var was := bitmap[..];
      bitmap[i / 64] := Or(bitmap[i / 64], Shl(ONE, i % 64));
      forall m: nat | m < 64 * bitmap.Length
        ensures BitAt(bitmap[..], m) == (m == i || BitAt(was, m))
      {
        OrBits(was[i / 64], Shl(ONE, i % 64), m % 64);
        OneBit(i % 64, m % 64);
      }
    }

    /** Whole words first, from high to low; then single bits with a carry, from low to high. */
    method ShiftBitmap(shift: nat)
      requires bitmap.Length == REPLAY_WINDOW_SIZE / 64
      modifies bitmap
      ensures ShiftedUp(old(bitmap[..]), bitmap[..], shift)
    {
      hide MovedWords, CarriedWords, ShiftedUp, BitAt, Pow2;
      ghost var from := bitmap[..];
      if shift >= REPLAY_WINDOW_SIZE {
        Clear();
        AllShiftedOut(from, bitmap[..], shift);
        return;
      }
      var wordShift, bitShift := shift / 64, shift % 64;
      if wordShift > 0 {
        ShiftWords(wordShift);
      }
      ghost var mid := bitmap[..];
      if bitShift > 0 {
        ShiftBits(bitShift);
      }
      WordsThenBits(from, mid, bitmap[..], wordShift, bitShift);
    }

    method ShiftWords(wordShift: nat)
      requires wordShift <= bitmap.Length
      modifies bitmap
      ensures bitmap[..] == MovedWords(old(bitmap[..]), wordShift)
    {
      hide Pow2, Bit, MovedWords;
      ghost var from := bitmap[..];
      for i := bitmap.Length downto wordShift
        invariant forall k | 0 <= k < i :: bitmap[k] == from[k]
        invariant forall k | i <= k < bitmap.Length :: bitmap[k] == from[k - wordShift]
      {
        bitmap[i] := bitmap[i - wordShift];
      }
      for i := 0 to wordShift
        invariant forall k | 0 <= k < i :: bitmap[k] == 0
        invariant forall k | wordShift <= k < bitmap.Length :: bitmap[k] == from[k - wordShift]
      {
        bitmap[i] := 0;
      }
      MovedWordsAre(from, bitmap[..], wordShift);
    }

    method ShiftBits(bitShift: nat)
      requires 0 < bitShift < 64
      modifies bitmap
      ensures bitmap[..] == CarriedWords(old(bitmap[..]), bitShift)
    {
      hide Pow2, Shl, Shr, Or;
      ghost var mid := bitmap[..];
      var carry: u64 := ZERO;
      for i := 0 to bitmap.Length
        invariant carry == if i == 0 then ZERO else Shr(mid[i - 1], 64 - bitShift)
        invariant forall k | 0 <= k < i :: bitmap[k] == CarriedWord(mid, bitShift, k)
        invariant forall k | i <= k < bitmap.Length :: bitmap[k] == mid[k]
      {
        var newCarry := Shr(bitmap[i], 64 - bitShift);
        bitmap[i] := Or(Shl(bitmap[i], bitShift), carry);
        carry := newCarry;
      }
    }
  }

  lemma OrBits(a: u64, b: u64, j: nat)
    ensures Bit(Or(a, b), j) == (Bit(a, j) || Bit(b, j))
  {
    hide Bit;
    OrBit(a, b, j);
  }

  lemma AllZero(words: seq<u64>)
    requires forall k | 0 <= k < |words| :: words[k] == 0
    ensures forall i: nat | i < 64 * |words| :: !BitAt(words, i)
  {
    hide Bit;
    forall i: nat | i < 64 * |words| ensures !BitAt(words, i) {
      ZeroBit(i % 64);
    }
  }

  // ----- whole runs -----

  datatype Packet = Packet(counter: nat, authentic: bool)

  function Step(h: History, p: Packet): History {
    if h.Fresh(p.counter) && p.authentic then h.Accept(p.counter) else h
  }

  function After(packets: seq<Packet>, n: nat): History
    requires n <= |packets|
  {
    if n == 0 then EMPTY else Step(After(packets, n - 1), packets[n - 1])
  }

  /** Was packet `n` of the run delivered? */
  predicate Delivered(packets: seq<Packet>, n: nat)
    requires n < |packets|
  {
    After(packets, n).Fresh(packets[n].counter) && packets[n].authentic
  }

  lemma {:induction false} AfterIsDelivered(packets: seq<Packet>, n: nat)
    requires n <= |packets|
    ensures After(packets, n).Valid()
    ensures forall c :: c in After(packets, n).accepted <==>
              exists j | 0 <= j < n :: Delivered(packets, j) && packets[j].counter == c
  {
    if n > 0 {
      AfterIsDelivered(packets, n - 1);
      var before, after := After(packets, n - 1), After(packets, n);
      assert after.accepted == if Delivered(packets, n - 1) then before.accepted + {packets[n - 1].counter}
                               else before.accepted;
    }
  }

  /** The window decides from the delivery history alone: a packet goes through exactly when it is
      authentic, no delivered packet had its counter, and none was a whole window ahead of it. */
  lemma DeliveryCharacterised(packets: seq<Packet>, n: nat)
    requires n < |packets|
    ensures Delivered(packets, n) <==>
              packets[n].authentic &&
              forall j | 0 <= j < n && Delivered(packets, j) ::
                packets[j].counter != packets[n].counter &&
                packets[j].counter < packets[n].counter + REPLAY_WINDOW_SIZE
  {
    AfterIsDelivered(packets, n);
    var h, c := After(packets, n), packets[n].counter;
    forall j | 0 <= j < n && Delivered(packets, j)
      ensures packets[j].counter in h.accepted
    {}
    if h.highest in h.accepted {
      var j :| 0 <= j < n && Delivered(packets, j) && packets[j].counter == h.highest;
    }
  }

  /** No counter is ever delivered twice. */
  lemma NoReplay(packets: seq<Packet>, j: nat, n: nat)
    requires j < n < |packets|
    requires Delivered(packets, j) && Delivered(packets, n)
    ensures packets[j].counter != packets[n].counter
  {
    DeliveryCharacterised(packets, n);
  }
}
