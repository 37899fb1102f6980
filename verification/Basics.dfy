/**
  What several modules share: optional values, addresses, time differences and parity.
*/
module Basics {

  datatype Option<T> = None | Some(value: T)

  type NodeAddr = nat

  /** A node's coordinate: the addresses from the node itself up to the root. */
  type Coord = c: seq<NodeAddr> | |c| > 0 witness [0]

  /** Subtraction that stops at zero. */
  function Monus(a: nat, b: nat): nat {
    if a > b then a - b else 0
  }

  /** Elapsed time on the monotonic clock; zero if the clock has not moved past `t`. */
  function Since(t: nat, now: nat): nat {
    Monus(now, t)
  }

  predicate Odd(n: nat) {
    n % 2 == 1
  }

  lemma Parity(n: nat)
    ensures Odd(n + 1) != Odd(n)
    ensures n > 0 ==> Odd(n - 1) != Odd(n)
  {}

  lemma {:induction false} SmallerSubset<T>(a: set<T>, b: set<T>)
    requires a < b
    ensures |a| < |b|
  {
    assert |b - a| > 0 by {
      var x :| x in b && x !in a;
      assert x in b - a;
    }
    assert b == a + (b - a);
  }

  lemma {:induction false} SubsetSize<T>(a: set<T>, b: set<T>)
    requires a <= b
    ensures |a| <= |b|
  {
    assert b == a + (b - a);
  }
}
