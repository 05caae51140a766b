/** Fixed-width unsigned integers as bytes, in both orders. */
module Words {
  import opened Basics

  function Pow256(n: nat): (p: nat)
    ensures p > 0
  {
    if n == 0 then 1 else 256 * Pow256(n - 1)
  }

  lemma Pow256Values()
    ensures Pow256(4) == 0x1_0000_0000 && Pow256(8) == 0x1_0000_0000_0000_0000
  {
    assert Pow256(1) == 256 && Pow256(2) == 0x1_0000 && Pow256(3) == 0x100_0000;
    assert Pow256(5) == 0x100_0000_0000 && Pow256(6) == 0x1_0000_0000_0000 && Pow256(7) == 0x100_0000_0000_0000;
  }

  /** The low `n` bytes of `v`, most significant first. */
  function Big(v: nat, n: nat): (s: seq<Byte>)
    ensures |s| == n
  {
    if n == 0 then [] else Big(v / 256, n - 1) + [v % 256]
  }

  /** The low `n` bytes of `v`, least significant first. */
  function Little(v: nat, n: nat): (s: seq<Byte>)
    ensures |s| == n
  {
    if n == 0 then [] else [v % 256] + Little(v / 256, n - 1)
  }

  function BigAt(d: seq<Byte>, p: nat, n: nat): nat
    requires p + n <= |d|
  {
    if n == 0 then 0 else BigAt(d, p, n - 1) * 256 + d[p + n - 1]
  }

  function LittleAt(d: seq<Byte>, p: nat, n: nat): nat
    requires p + n <= |d|
    decreases n
  {
    if n == 0 then 0 else d[p] + 256 * LittleAt(d, p + 1, n - 1)
  }

  /** `d` holds the bytes `w` at `p`. */
  predicate Holds(d: seq<Byte>, p: nat, w: seq<Byte>) {
    p + |w| <= |d| && forall k | 0 <= k < |w| :: d[p + k] == w[k]
  }

  lemma HoldsSplit(d: seq<Byte>, p: nat, a: seq<Byte>, b: seq<Byte>)
    requires Holds(d, p, a + b)
    ensures Holds(d, p, a) && Holds(d, p + |a|, b)
  {
    assert forall k | 0 <= k < |a| :: (a + b)[k] == a[k];
    forall k | 0 <= k < |b| ensures d[p + |a| + k] == b[k] {
      assert (a + b)[|a| + k] == b[k] && d[p + (|a| + k)] == (a + b)[|a| + k];
    }
  }

  lemma {:induction false} BigReadsBack(d: seq<Byte>, p: nat, v: nat, n: nat)
    requires v < Pow256(n) && Holds(d, p, Big(v, n))
    ensures BigAt(d, p, n) == v
  {
    if n > 0 {
      var w := Big(v / 256, n - 1);
      assert forall k | 0 <= k < n - 1 :: Big(v, n)[k] == w[k];
      BigReadsBack(d, p, v / 256, n - 1);
      assert d[p + (n - 1)] == Big(v, n)[n - 1];
    }
  }

  lemma {:induction false} LittleReadsBack(d: seq<Byte>, p: nat, v: nat, n: nat)
    requires v < Pow256(n) && Holds(d, p, Little(v, n))
    ensures LittleAt(d, p, n) == v
    decreases n
  {
    if n > 0 {
      var w := Little(v / 256, n - 1);
      assert d[p + 0] == Little(v, n)[0];
      forall k | 0 <= k < n - 1 ensures d[p + 1 + k] == w[k] { assert d[p + (k + 1)] == Little(v, n)[k + 1]; }
      LittleReadsBack(d, p + 1, v / 256, n - 1);
    }
  }

  lemma {:induction false} BigAtSame(d: seq<Byte>, e: seq<Byte>, p: nat, n: nat)
    requires p + n <= |d| && p + n <= |e|
    requires forall k | p <= k < p + n :: d[k] == e[k]
    ensures BigAt(d, p, n) == BigAt(e, p, n)
  {
    if n > 0 { BigAtSame(d, e, p, n - 1); }
  }

  lemma {:induction false} BigAtBound(d: seq<Byte>, p: nat, n: nat)
    requires p + n <= |d|
    ensures BigAt(d, p, n) < Pow256(n)
  {
    if n > 0 { BigAtBound(d, p, n - 1); }
  }
}
