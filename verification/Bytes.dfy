/** Bytes and the bitwise operations the drivers use, on Python's unbounded integers. */
module Bytes {
  type byte = x: int | 0 <= x < 256

  /** The joined contents of a list of reads, frames or segments. */
  function Concat<T>(parts: seq<seq<T>>): (r: seq<T>) {
    if parts == [] then [] else parts[0] + Concat(parts[1..])
  }

  lemma AppendAssoc<T>(a: seq<T>, b: seq<T>, c: seq<T>)
    ensures a + (b + c) == (a + b) + c
  {}

  // ----- Bitwise exclusive or, bit by bit -----

  function BitXor(a: nat, b: nat): (r: nat)
    decreases a + b
  {
    if a == 0 && b == 0 then 0
    else (if a % 2 != b % 2 then 1 else 0) + 2 * BitXor(a / 2, b / 2)
  }

  /** The low `n` bits, most significant first. */
  function LowBits(v: nat, n: nat): (r: seq<bool>)
    ensures |r| == n
    decreases n
  {
    if n == 0 then [] else LowBits(v / 2, n - 1) + [v % 2 == 1]
  }

  function XorBits(a: seq<bool>, b: seq<bool>): (r: seq<bool>)
    requires |a| == |b|
    ensures |r| == |a|
    ensures forall i :: 0 <= i < |a| ==> r[i] == (a[i] != b[i])
  {
    if a == [] then [] else [a[0] != b[0]] + XorBits(a[1..], b[1..])
  }

  function Pow2(n: nat): (p: nat)
    ensures p > 0
  {
    if n == 0 then 1 else 2 * Pow2(n - 1)
  }

  lemma Pow2Values()
    ensures Pow2(8) == 0x100 && Pow2(15) == 0x8000 && Pow2(16) == 0x1_0000
  {
    assert Pow2(4) == 16;
    assert Pow2(8) == 16 * Pow2(4);
    assert Pow2(12) == 16 * Pow2(8);
    assert Pow2(15) == 8 * Pow2(12);
  }

  lemma {:induction false} LowBitsXor(a: nat, b: nat, n: nat)
    ensures LowBits(BitXor(a, b), n) == XorBits(LowBits(a, n), LowBits(b, n))
    decreases n
  {
    if n > 0 {
      assert BitXor(a, b) / 2 == BitXor(a / 2, b / 2);
      LowBitsXor(a / 2, b / 2, n - 1);
    }
  }

  /** A bit above the low `n` does not matter. */
  lemma {:induction false} LowBitsCarry(v: nat, n: nat)
    ensures LowBits(v + Pow2(n), n) == LowBits(v, n)
    decreases n
  {
    if n > 0 {
      assert (v + Pow2(n)) / 2 == v / 2 + Pow2(n - 1);
      LowBitsCarry(v / 2, n - 1);
    }
  }

  /** Reading one bit more adds a bit at the top. */
  lemma {:induction false} LowBitsTop(v: nat, n: nat)
    ensures LowBits(v, n + 1)[1..] == LowBits(v, n)
    decreases n
  {
    if n > 0 { LowBitsTop(v / 2, n - 1); }
  }

  /** The top bit decides the upper half of the range. */
  lemma {:induction false} LowBitsHead(v: nat, n: nat)
    requires v < 2 * Pow2(n)
    ensures LowBits(v, n + 1)[0] == (v >= Pow2(n))
    decreases n
  {
    if n > 0 { LowBitsHead(v / 2, n - 1); }
  }

  lemma {:induction false} LowBitsInjective(a: nat, b: nat, n: nat)
    requires a < Pow2(n) && b < Pow2(n) && LowBits(a, n) == LowBits(b, n)
    ensures a == b
    decreases n
  {
    if n > 0 {
      var u, v := LowBits(a, n), LowBits(b, n);
      assert u[..n - 1] == LowBits(a / 2, n - 1) && v[..n - 1] == LowBits(b / 2, n - 1);
      LowBitsInjective(a / 2, b / 2, n - 1);
      assert u[n - 1] == (a % 2 == 1) && v[n - 1] == (b % 2 == 1);
    }
  }

  /** The bits of two numbers side by side. */
  lemma {:induction false} LowBitsJoin(h: nat, l: nat, n: nat, m: nat)
    requires l < Pow2(m)
    ensures LowBits(Pow2(m) * h + l, n + m) == LowBits(h, n) + LowBits(l, m)
    decreases m
  {
    if m > 0 {
      assert Pow2(m) * h + l == 2 * (Pow2(m - 1) * h) + l;
      assert (Pow2(m) * h + l) / 2 == Pow2(m - 1) * h + l / 2 && (Pow2(m) * h + l) % 2 == l % 2;
      LowBitsJoin(h, l / 2, n, m - 1);
    }
  }
}
