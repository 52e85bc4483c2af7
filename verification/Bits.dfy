/**
 Machine words as bit strings, least significant bit first. Bitwise operators are
 pointwise; `Val` gives the unsigned number a bit string stands for.
 */
module Bits {

  type Bits = seq<bool>

  type Byte = f: Bits | |f| == 8 witness [false, false, false, false, false, false, false, false]

  function Pow2(k: nat): (p: nat)
    ensures p >= 1
  {
    if k == 0 then 1 else 2 * Pow2(k - 1)
  }

  /** The unsigned value of a bit string. */
  function Val(f: Bits): nat {
    if f == [] then 0 else (if f[0] then 1 else 0) + 2 * Val(f[1..])
  }

  /** The low `width` bits of `n`. */
  function ToBits(n: nat, width: nat): (f: Bits)
    ensures |f| == width
  {
    if width == 0 then [] else [n % 2 == 1] + ToBits(n / 2, width - 1)
  }

  function Zeros(width: nat): (f: Bits)
    ensures |f| == width
  {
    seq(width, _ => false)
  }

  function Ones(width: nat): (f: Bits)
    ensures |f| == width
  {
    seq(width, _ => true)
  }

  function Not(f: Bits): (r: Bits)
    ensures |r| == |f|
  {
    seq(|f|, i requires 0 <= i < |f| => !f[i])
  }

  function And(f: Bits, g: Bits): (r: Bits)
    requires |f| == |g|
    ensures |r| == |f|
  {
    seq(|f|, i requires 0 <= i < |f| => f[i] && g[i])
  }

  function Or(f: Bits, g: Bits): (r: Bits)
    requires |f| == |g|
    ensures |r| == |f|
  {
    seq(|f|, i requires 0 <= i < |f| => f[i] || g[i])
  }

  /** `f & !((1 << n) - 1)`: drops every bit below `n`; a shift past the width drops everything. */
  function From(f: Bits, n: nat): (r: Bits)
    ensures |r| == |f|
  {
    seq(|f|, i requires 0 <= i < |f| => i >= n && f[i])
  }

  /** `trailing_zeros`, searching upwards from bit `start`: the width when nothing is set. */
  function Lowest(f: Bits, start: nat): (r: nat)
    requires start <= |f|
    ensures start <= r <= |f|
    ensures forall j :: start <= j < r ==> !f[j]
    ensures r < |f| ==> f[r]
    decreases |f| - start
  {
    if start == |f| || f[start] then start else Lowest(f, start + 1)
  }

  lemma {:induction false} ValBound(f: Bits)
    ensures Val(f) < Pow2(|f|)
  {
    if f != [] {
      ValBound(f[1..]);
    }
  }

  lemma {:induction false} ValConcat(f: Bits, g: Bits)
    ensures Val(f + g) == Val(f) + Pow2(|f|) * Val(g)
  {
    if f == [] {
      assert f + g == g;
    } else {
      ValConcat(f[1..], g);
      assert (f + g)[1..] == f[1..] + g;
      assert Pow2(|f|) * Val(g) == 2 * (Pow2(|f| - 1) * Val(g));
    }
  }

  lemma {:induction false} ToBitsVal(f: Bits)
    ensures ToBits(Val(f), |f|) == f
  {
    if f != [] {
      ToBitsVal(f[1..]);
      assert Val(f) / 2 == Val(f[1..]);
    }
  }

  lemma {:induction false} ValToBits(n: nat, width: nat)
    requires n < Pow2(width)
    ensures Val(ToBits(n, width)) == n
  {
    if width > 0 {
      ValToBits(n / 2, width - 1);
      assert ToBits(n, width)[1..] == ToBits(n / 2, width - 1);
    }
  }

  /** Equal-width bit strings with the same value are the same string. */
  lemma {:induction false} ValInjective(f: Bits, g: Bits)
    requires |f| == |g| && Val(f) == Val(g)
    ensures f == g
  {
    ToBitsVal(f);
    ToBitsVal(g);
  }

  lemma {:induction false} ZerosVal(width: nat)
    ensures Val(Zeros(width)) == 0
  {
    if width > 0 {
      ZerosVal(width - 1);
      assert Zeros(width)[1..] == Zeros(width - 1);
    }
  }

  lemma {:induction false} OnesVal(width: nat)
    ensures Val(Ones(width)) == Pow2(width) - 1
  {
    if width > 0 {
      OnesVal(width - 1);
      assert Ones(width)[1..] == Ones(width - 1);
    }
  }

  lemma {:induction false} NotVal(f: Bits)
    ensures Val(Not(f)) == Pow2(|f|) - 1 - Val(f)
  {
    if f != [] {
      NotVal(f[1..]);
      assert Not(f)[1..] == Not(f[1..]);
    }
  }

  lemma {:induction false} Pow2Add(a: nat, b: nat)
    ensures Pow2(a + b) == Pow2(a) * Pow2(b)
  {
    if a > 0 {
      Pow2Add(a - 1, b);
      assert Pow2(a) * Pow2(b) == 2 * (Pow2(a - 1) * Pow2(b));
    }
  }

  lemma {:induction false} Pow2Monotone(a: nat, b: nat)
    requires a <= b
    ensures Pow2(a) <= Pow2(b)
  {
    Pow2Add(a, b - a);
    assert Pow2(a) * Pow2(b - a) >= Pow2(a) * 1;
  }

  /** A string whose low `k` bits are clear is a multiple of `2^k`. */
  lemma {:induction false} LowZerosFactor(f: Bits, k: nat)
    requires k <= |f|
    requires forall i :: 0 <= i < k ==> !f[i]
    ensures Val(f) == Pow2(k) * Val(f[k..])
  {
    assert f == f[..k] + f[k..];
    assert f[..k] == Zeros(k);
    ValConcat(f[..k], f[k..]);
    ZerosVal(k);
  }

  /** Zero extension keeps the value. */
  lemma {:induction false} ZeroExtend(f: Bits, n: nat)
    ensures Val(f + Zeros(n)) == Val(f)
  {
    ValConcat(f, Zeros(n));
    ZerosVal(n);
  }

  lemma {:induction false} LowZerosMultiple(f: Bits, k: nat)
    requires k <= |f|
    requires forall i :: 0 <= i < k ==> !f[i]
    ensures Val(f) % Pow2(k) == 0
  {
    LowZerosFactor(f, k);
    MultipleMod(Pow2(k), Val(f[k..]));
  }

  lemma MultipleMod(d: nat, q: nat)
    requires d > 0
    ensures (d * q) % d == 0
  {
    Quotient(d * q, d, q, (d * q) / d, (d * q) % d);
  }

  lemma Quotient(x: nat, d: nat, q: nat, t: nat, r: nat)
    requires d > 0 && r < d
    requires x == d * q && x == d * t + r
    ensures r == 0
  {
    var e := q - t;
    assert d * e == r;
    Scaling(d, e);
  }

  lemma Scaling(d: nat, e: int)
    ensures e >= 1 ==> d * e >= d
    ensures e <= -1 ==> d * e <= 0 - d
  {
  }

  /** Bits of `2^k - 1`: ones exactly below `k`. */
  lemma {:induction false} PredecessorBits(k: nat, width: nat)
    requires k <= width
    ensures ToBits(Pow2(k) - 1, width) == Ones(k) + Zeros(width - k)
  {
    OnesVal(k);
    ZerosVal(width - k);
    ValConcat(Ones(k), Zeros(width - k));
    ToBitsVal(Ones(k) + Zeros(width - k));
  }

  /** The low bits of a multiple of `2^k` are clear. */
  lemma {:induction false} AlignedBits(n: nat, k: nat, width: nat)
    requires k <= width
    requires n % Pow2(k) == 0
    ensures forall i :: 0 <= i < k ==> !ToBits(n, width)[i]
  {
    if k > 0 {
      var t := n / Pow2(k);
      assert n == Pow2(k) * t;
      assert n == 2 * (Pow2(k - 1) * t);
      MultipleMod(Pow2(k - 1), t);
      AlignedBits(n / 2, k - 1, width - 1);
      assert forall i :: 0 < i < k ==> ToBits(n, width)[i] == ToBits(n / 2, width - 1)[i - 1];
    }
  }

  /** A number below `2^e` has its bits below `e`. */
  lemma {:induction false} SmallBits(v: nat, e: nat, width: nat)
    requires v < Pow2(e) && e <= width
    ensures ToBits(v, width) == ToBits(v, e) + Zeros(width - e)
  {
    ValToBits(v, e);
    ZeroExtend(ToBits(v, e), width - e);
    ToBitsVal(ToBits(v, e) + Zeros(width - e));
  }

  lemma Pow16()
    ensures Pow2(16) == 0x1_0000
  {
    assert Pow2(8) == 0x100;
    Pow2Add(8, 8);
  }

  lemma Pow32()
    ensures Pow2(32) == 0x1_0000_0000
  {
    Pow16();
    Pow2Add(16, 16);
  }

  lemma Pow64()
    ensures Pow2(64) == 0x1_0000_0000_0000_0000
  {
    Pow32();
    Pow2Add(32, 32);
  }
}
