/** Unsigned machine words as natural numbers: powers of two, bitwise and/or, shifts. */
module Words {

  function Pow2(k: nat): (p: nat)
    ensures p >= 1
  {
    if k == 0 then 1 else 2 * Pow2(k - 1)
  }

  lemma {:induction false} Pow2Add(a: nat, b: nat)
    ensures Pow2(a + b) == Pow2(a) * Pow2(b)
  {
    if a > 0 {
      Pow2Add(a - 1, b);
      assert Pow2(a) * Pow2(b) == 2 * (Pow2(a - 1) * Pow2(b));
    }
  }

  lemma {:induction false} Pow2Mono(a: nat, b: nat)
    requires a <= b
    ensures Pow2(a) <= Pow2(b)
    ensures a < b ==> 2 * Pow2(a) <= Pow2(b)
    decreases b
  {
    if a < b { Pow2Mono(a, b - 1); }
  }

  /** Powers of two used by name elsewhere. */
  lemma Pow2Values()
    ensures Pow2(1) == 2 && Pow2(2) == 4 && Pow2(4) == 16 && Pow2(8) == 0x100 && Pow2(16) == 0x1_0000
    ensures Pow2(31) == 0x8000_0000 && Pow2(32) == 0x1_0000_0000
  {
    assert Pow2(4) == 16;
    Pow2Add(4, 4);
    Pow2Add(8, 8);
    Pow2Add(16, 16);
    assert Pow2(32) == 2 * Pow2(31);
  }

  predicate IsPow2(n: nat) {
    exists k: nat :: k <= n && n == Pow2(k)
  }

  lemma {:induction false} AtLeastIndex(k: nat)
    ensures k < Pow2(k)
  {
    if k > 0 { AtLeastIndex(k - 1); }
  }

  lemma Pow2IsPow2(k: nat)
    ensures IsPow2(Pow2(k))
  {
    AtLeastIndex(k);
    assert k <= Pow2(k) && Pow2(k) == Pow2(k);
  }

  lemma ExponentOf(n: nat) returns (k: nat)
    requires IsPow2(n)
    ensures n == Pow2(k)
  {
    k :| k <= n && n == Pow2(k);
  }

  lemma IsPow2Double(n: nat)
    requires IsPow2(n)
    ensures IsPow2(2 * n)
  {
    var k := ExponentOf(n);
    Pow2IsPow2(k + 1);
  }

  /** Two powers of two in order are a factor of two or more apart. */
  lemma Pow2Gap(m: nat, n: nat)
    requires IsPow2(m) && IsPow2(n) && m < n
    ensures 2 * m <= n
  {
    var a := ExponentOf(m);
    var b := ExponentOf(n);
    if b <= a { Pow2Mono(b, a); }
    Pow2Mono(a, b);
  }

  // ------------------------------------------------------------------ bits

  function LowBit(n: nat): (b: nat) { n % 2 }

  function Or(a: nat, b: nat): nat
    decreases a + b
  {
    if a == 0 && b == 0 then 0
    else 2 * Or(a / 2, b / 2) + (if LowBit(a) == 1 || LowBit(b) == 1 then 1 else 0)
  }

  function And(a: nat, b: nat): nat {
    if a == 0 || b == 0 then 0
    else 2 * And(a / 2, b / 2) + (if LowBit(a) == 1 && LowBit(b) == 1 then 1 else 0)
  }

  function Shr(a: nat, k: nat): nat
    decreases k
  {
    if k == 0 then a else Shr(a / 2, k - 1)
  }

  lemma {:induction false} ShrAdd(a: nat, i: nat, j: nat)
    ensures Shr(Shr(a, i), j) == Shr(a, i + j)
    decreases i
  {
    if i > 0 { ShrAdd(a / 2, i - 1, j); }
  }

  /** A number fits in k bits when nothing is left after shifting k out. */
  lemma {:induction false} FitsIffShiftedOut(a: nat, k: nat)
    ensures a < Pow2(k) <==> Shr(a, k) == 0
    decreases k
  {
    if k > 0 { FitsIffShiftedOut(a / 2, k - 1); }
  }

  lemma {:induction false} OrZero(a: nat)
    ensures Or(a, 0) == a
  {
    if a > 0 { OrZero(a / 2); }
  }

  /** Or commutes with shifting both sides. */
  lemma {:induction false} OrShr(a: nat, b: nat, k: nat)
    ensures Shr(Or(a, b), k) == Or(Shr(a, k), Shr(b, k))
    decreases k
  {
    if k > 0 {
      assert Or(a, b) / 2 == Or(a / 2, b / 2);
      OrShr(a / 2, b / 2, k - 1);
    }
  }

  lemma {:induction false} OnesShr(t: nat, u: nat)
    requires u <= t
    ensures Shr(Pow2(t) - 1, u) == Pow2(t - u) - 1
    decreases u
  {
    if u > 0 {
      assert (Pow2(t) - 1) / 2 == Pow2(t - 1) - 1;
      OnesShr(t - 1, u - 1);
    }
  }

  /** A word whose part above bit u is t ones, or-ed with u low ones, is t + u ones. */
  lemma {:induction false} OnesUnderOnes(x: nat, t: nat, u: nat)
    requires Shr(x, u) == Pow2(t) - 1
    ensures Or(x, Pow2(u) - 1) == Pow2(t + u) - 1
    decreases u
  {
    if u == 0 {
      OrZero(x);
    } else {
      OnesUnderOnes(x / 2, t, u - 1);
      var p := Pow2(u - 1);
      assert (2 * p - 1) / 2 == p - 1 && LowBit(2 * p - 1) == 1;
    }
  }

  predicate LowZeros(c: nat, n: nat) {
    n == 0 || (LowBit(c) == 0 && LowZeros(c / 2, n - 1))
  }

  lemma {:induction false} LowZerosOfZero(n: nat)
    ensures LowZeros(0, n)
  {
    if n > 0 { LowZerosOfZero(n - 1); }
  }

  /** Or-ing one bit into a word that is clear up to it is addition. */
  lemma {:induction false} OrFreshBit(c: nat, k: nat)
    requires LowZeros(c, k + 1)
    ensures Or(c, Pow2(k)) == c + Pow2(k) && LowZeros(c + Pow2(k), k) && LowZeros(c, k)
    decreases k
  {
    if k == 0 {
      OrZero(c / 2);
    } else {
      OrFreshBit(c / 2, k - 1);
      assert (c + Pow2(k)) / 2 == c / 2 + Pow2(k - 1);
    }
  }

  lemma DivUnique(a: nat, d: nat, q: int, r: nat)
    requires d > 0 && r < d && a == d * q + r
    ensures a / d == q && a % d == r
  {
    var e := a / d - q;
    assert d * (a / d) - d * q == d * e;
    if e >= 1 { MulMono(1, e, d); }
    if e <= -1 { MulMono(e, -1, d); }
  }

  lemma MulMono(a: int, b: int, c: nat)
    requires a <= b
    ensures c * a <= c * b
  {}

  /** Masking with 2^k - 1 is reduction modulo 2^k. */
  lemma {:induction false} MaskIsMod(a: nat, k: nat)
    ensures And(a, Pow2(k) - 1) == a % Pow2(k)
  {
    if a == 0 || k == 0 {
    } else {
      var p := Pow2(k - 1);
      assert And(a / 2, p - 1) == (a / 2) % p by { MaskIsMod(a / 2, k - 1); }
      assert Pow2(k) == 2 * p;
      AndOnes(a, p);
      ModDouble(a, p);
    }
  }

  lemma AndOnes(a: nat, p: nat)
    requires p > 0 && a > 0
    ensures And(a, 2 * p - 1) == 2 * And(a / 2, p - 1) + a % 2
  {}

  lemma ModDouble(a: nat, p: nat)
    requires p > 0
    ensures a % (2 * p) == 2 * ((a / 2) % p) + a % 2
  {
    var q, r := (a / 2) / p, (a / 2) % p;
    assert a / 2 == p * q + r;
    assert (2 * p) * q == 2 * (p * q);
    DivUnique(a, 2 * p, q, 2 * r + a % 2);
  }
}
