/** The isa word as bits: extra_rc on top, has_sidetable_rc just below it, everything else under that. */
module IsaBits {
  import opened Words
  import opened SplitRefcount

  /** RC_ONE for a w-bit word with k bits of extra_rc. */
  function RcOne(w: nat, k: nat): nat
    requires k < w
  {
    Pow2(w - k)
  }

  function Bits(w: nat, k: nat, v: Isa, low: nat): nat
    requires k < w
  {
    v.extra * RcOne(w, k) + (if v.hasSide then Pow2(w - k - 1) else 0) + low
  }

  datatype Sum = Sum(bits: nat, carry: bool)

  /** __builtin_addcl with no carry in. */
  function Addc(w: nat, a: nat, b: nat): Sum { Sum((a + b) % Pow2(w), a + b >= Pow2(w)) }

  /** __builtin_subcl with no borrow in. */
  function Subc(w: nat, a: nat, b: nat): Sum
    requires b <= Pow2(w)
  {
    Sum(if a < b then a + Pow2(w) - b else a - b, a < b)
  }

  ghost predicate Fields(w: nat, k: nat, v: Isa, low: nat) {
    0 < k < w && v.extra < Full(k) && low < Pow2(w - k - 1)
  }

  /** The part under extra_rc. */
  function Below(w: nat, k: nat, v: Isa, low: nat): nat
    requires k < w
  {
    (if v.hasSide then Pow2(w - k - 1) else 0) + low
  }

  lemma Shape(w: nat, k: nat, v: Isa, low: nat)
    requires Fields(w, k, v, low)
    ensures Below(w, k, v, low) < RcOne(w, k)
    ensures Bits(w, k, v, low) == v.extra * RcOne(w, k) + Below(w, k, v, low)
    ensures Pow2(w) == Full(k) * RcOne(w, k)
  {
    Pow2Add(k, w - k);
    assert RcOne(w, k) == 2 * Pow2(w - k - 1);
  }

  /** Digits in base one: a carry out of the top is a carry out of the word. */
  lemma TopDigit(e: int, full: int, one: int, b: int)
    requires 0 <= b < one
    ensures e * one + b >= full * one <==> e >= full
    ensures e * one + b < 0 <==> e < 0
  {
    if e >= full { MulMono(full, e, one); } else { MulMono(e + 1, full, one); assert (e + 1) * one == e * one + one; }
    if e >= 0 { MulMono(0, e, one); } else { MulMono(e, -1, one); }
  }

  lemma AddDigits(x: nat, n: nat, full: nat, one: nat, b: nat)
    requires b < one && x < full && n < full
    ensures full * one > 0
    ensures x * one + b + n * one >= full * one <==> x + n >= full
    ensures (x * one + b + n * one) % (full * one) == (if x + n >= full then x + n - full else x + n) * one + b
  {
    var e := x + n;
    assert x * one + n * one == e * one;
    MulMono(1, full, one);
    TopDigit(e, full, one, b);
    if e >= full {
      assert (e - full) * one == e * one - full * one;
      TopDigit(e - full, full, one, b);
      DivUnique(e * one + b, full * one, 1, (e - full) * one + b);
    } else {
      TopDigit(e, full, one, b);
      DivUnique(e * one + b, full * one, 0, e * one + b);
    }
  }

  lemma SubDigit(x: nat, full: nat, one: nat, b: nat)
    requires b < one && x < full
    ensures one <= full * one
    ensures x * one + b < one <==> x == 0
    ensures x == 0 ==> x * one + b + full * one - one == (full - 1) * one + b
    ensures x > 0 ==> x * one + b - one == (x - 1) * one + b
  {}

  /** Adding n counts with addc carries exactly when extra_rc overflows, and touches no other field. */
  lemma AddcAddsCounts(w: nat, k: nat, v: Isa, low: nat, n: nat)
    requires Fields(w, k, v, low) && n < Full(k)
    ensures Addc(w, Bits(w, k, v, low), n * RcOne(w, k))
         == Sum(Bits(w, k, AddCounts(k, v, n).word, low), AddCounts(k, v, n).carry)
  {
    Shape(w, k, v, low);
    AddDigits(v.extra, n, Full(k), RcOne(w, k), Below(w, k, v, low));
  }

  /** Taking one count with subc borrows exactly when extra_rc is zero, and otherwise touches no other field. */
  lemma SubcTakesCount(w: nat, k: nat, v: Isa, low: nat)
    requires Fields(w, k, v, low)
    ensures RcOne(w, k) <= Pow2(w)
    ensures Subc(w, Bits(w, k, v, low), RcOne(w, k))
         == Sum(Bits(w, k, SubCount(k, v).word, low), SubCount(k, v).carry)
  {
    Shape(w, k, v, low);
    SubDigit(v.extra, Full(k), RcOne(w, k), Below(w, k, v, low));
  }

  /** The deallocating test reads the top k + 1 bits. */
  lemma DeallocatingBits(w: nat, k: nat, v: Isa, low: nat)
    requires Fields(w, k, v, low)
    ensures IsDeallocating(v) <==> Bits(w, k, v, low) < Pow2(w - k - 1)
  {}
}
