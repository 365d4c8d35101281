/** The word-size arithmetic the hash table is sized by: next power of two, leading zeros, ceiling log. */
module MathExtras {
  import opened Words

  /** Number of bits needed to write n. */
  function BitLen(n: nat): nat {
    if n == 0 then 0 else 1 + BitLen(n / 2)
  }

  lemma {:induction false} BitLenBounds(n: nat)
    ensures n < Pow2(BitLen(n))
    ensures n > 0 ==> BitLen(n) > 0 && Pow2(BitLen(n) - 1) <= n
  {
    if n > 0 { BitLenBounds(n / 2); }
  }

  /** The least power of two strictly above n, with no width limit. */
  function NextPow2(n: nat): nat { Pow2(BitLen(n)) }

  lemma NextPow2Least(n: nat)
    ensures IsPow2(NextPow2(n)) && n < NextPow2(n)
    ensures forall p: nat :: IsPow2(p) && n < p ==> NextPow2(n) <= p
  {
    BitLenBounds(n);
    Pow2IsPow2(BitLen(n));
    forall p: nat | IsPow2(p) && n < p ensures NextPow2(n) <= p {
      if p < NextPow2(n) {
        var k := ExponentOf(p);
        if k >= BitLen(n) { Pow2Mono(BitLen(n), k); }
        Pow2Mono(k, BitLen(n) - 1);
      }
    }
  }

  lemma NextPow2AtMost(n: nat, p: nat)
    requires IsPow2(p) && n < p
    ensures NextPow2(n) <= p
  {
    NextPow2Least(n);
  }

  lemma BitLenWidth(n: nat, w: nat)
    ensures n < Pow2(w) <==> BitLen(n) <= w
  {}

  // ------------------------------------------------------- smearing the top bit

  /** a has len bits, of which the top s (or all, when there are fewer) are ones. */
  ghost predicate TopOnes(a: nat, len: nat, s: nat) {
    if len <= s then a == Pow2(len) - 1 else Shr(a, len - s) == Pow2(s) - 1
  }

  /** One smearing step doubles the run of ones at the top. */
  lemma SmearStep(a: nat, len: nat, s: nat)
    requires s >= 1 && TopOnes(a, len, s)
    ensures TopOnes(Or(a, Shr(a, s)), len, 2 * s)
  {
    if len <= s {
      SmearDone(a, len, s);
    } else if len <= 2 * s {
      SmearFull(a, len - s, s);
    } else {
      SmearInside(a, len - 2 * s, s);
    }
  }

  lemma SmearInside(a: nat, m: nat, s: nat)
    requires Shr(a, m + s) == Pow2(s) - 1
    ensures Shr(Or(a, Shr(a, s)), m) == Pow2(s + s) - 1
  {
    OrShr(a, Shr(a, s), m);
    ShrAdd(a, s, m);
    ShrAdd(a, m, s);
    OnesUnderOnes(Shr(a, m), s, s);
  }

  lemma SmearFull(a: nat, u: nat, s: nat)
    requires u <= s && Shr(a, u) == Pow2(s) - 1
    ensures Or(a, Shr(a, s)) == Pow2(s + u) - 1
  {
    ShrAdd(a, u, s - u);
    OnesShr(s, s - u);
    OnesUnderOnes(a, s, u);
  }

  lemma SmearDone(a: nat, len: nat, s: nat)
    requires len <= s && a < Pow2(len)
    ensures Or(a, Shr(a, s)) == a
  {
    Pow2Mono(len, s);
    FitsIffShiftedOut(a, s);
    OrZero(a);
  }

  lemma SmearStart(a: nat)
    ensures TopOnes(a, BitLen(a), 1)
  {}

  lemma SmearEnd(a: nat, len: nat, s: nat)
    requires TopOnes(a, len, s) && len <= s
    ensures a + 1 == Pow2(len)
  {}

  /** A |= A >> s */
  method Smear(a: nat, ghost len: nat, s: nat) returns (b: nat)
    requires s >= 1 && TopOnes(a, len, s)
    ensures TopOnes(b, len, 2 * s)
  {
    SmearStep(a, len, s);
    b := Or(a, Shr(a, s));
  }

  /** A + 1, wrapping at w bits. */
  method Successor(ghost a0: nat, a: nat, w: nat) returns (r: nat)
    requires w > 0 && a0 < Pow2(w) && TopOnes(a, BitLen(a0), w)
    ensures r == 0 <==> a0 >= Pow2(w - 1)
    ensures r > 0 ==> IsPow2(r) && a0 < r < Pow2(w) && forall p: nat :: IsPow2(p) && a0 < p ==> r <= p
    ensures r > 0 ==> r == NextPow2(a0)
  {
    NextPowerOf2Result(a0, a, w);
    r := (a + 1) % Pow2(w);
  }

  /** The 32-bit overload: shifts 1 to 16, then a wrapping increment. */
  method NextPowerOf2U32(a0: nat) returns (r: nat)
    requires a0 < Pow2(32)
    ensures r == 0 <==> a0 >= Pow2(31)
    ensures r > 0 ==> IsPow2(r) && a0 < r < Pow2(32) && forall p: nat :: IsPow2(p) && a0 < p ==> r <= p
    ensures r > 0 ==> r == NextPow2(a0)
  {
    var a := a0;
    ghost var len := BitLen(a0);
    SmearStart(a);
    a := Smear(a, len, 1);
    a := Smear(a, len, 2);
    a := Smear(a, len, 4);
    a := Smear(a, len, 8);
    a := Smear(a, len, 16);
    r := Successor(a0, a, 32);
  }

  /** The 64-bit overload: shifts 1 to 32, then a wrapping increment. */
  method NextPowerOf2U64(a0: nat) returns (r: nat)
    requires a0 < Pow2(64)
    ensures r == 0 <==> a0 >= Pow2(63)
    ensures r > 0 ==> IsPow2(r) && a0 < r < Pow2(64) && forall p: nat :: IsPow2(p) && a0 < p ==> r <= p
    ensures r > 0 ==> r == NextPow2(a0)
  {
    var a := a0;
    ghost var len := BitLen(a0);
    SmearStart(a);
    a := Smear(a, len, 1);
    a := Smear(a, len, 2);
    a := Smear(a, len, 4);
    a := Smear(a, len, 8);
    a := Smear(a, len, 16);
    a := Smear(a, len, 32);
    r := Successor(a0, a, 64);
  }

  lemma NextPowerOf2Result(a0: nat, a: nat, w: nat)
    requires w > 0 && a0 < Pow2(w) && TopOnes(a, BitLen(a0), w)
    ensures (a + 1) % Pow2(w) == if a0 >= Pow2(w - 1) then 0 else NextPow2(a0)
    ensures NextPow2(a0) < Pow2(w) <==> a0 < Pow2(w - 1)
    ensures NextPow2(a0) > 0 && IsPow2(NextPow2(a0)) && a0 < NextPow2(a0)
    ensures forall p: nat :: IsPow2(p) && a0 < p ==> NextPow2(a0) <= p
  {
    NextPow2Least(a0);
    BitLenWidth(a0, w);
    BitLenWidth(a0, w - 1);
    SmearEnd(a, BitLen(a0), w);
    Pow2Mono(BitLen(a0), w);
    if a0 >= Pow2(w - 1) { DivUnique(a + 1, Pow2(w), 1, 0); } else { DivUnique(a + 1, Pow2(w), 0, a + 1); }
  }

  // ------------------------------------------------------- leading zeros, ceiling log

  lemma {:induction false} BitLenShr(v: nat, s: nat)
    ensures BitLen(Shr(v, s)) == if BitLen(v) <= s then 0 else BitLen(v) - s
    decreases s
  {
    if s > 0 { BitLenShr(v / 2, s - 1); }
  }

  /** The bisection; 32 for zero. */
  method CountLeadingZeros32(value: nat) returns (count: nat)
    requires value < Pow2(32)
    ensures count <= 32 && count == 32 - BitLen(value)
    ensures forall m: nat :: m <= 32 ==> (value < Pow2(m) <==> 32 - m <= count)
  {
    forall m: nat | m <= 32 ensures value < Pow2(m) <==> BitLen(value) <= m { BitLenWidth(value, m); }
    assert value < Pow2(32);
    if value == 0 { return 32; }
    count := 0;
    var v := value;
    var shift: nat := 32 / 2;
    ghost var k := 4;                       // shift == 2^k until it reaches zero, and then k == -1
    Pow2Values();
    LowZerosOfZero(5);
    while shift > 0
      invariant BisectInv(value, v, count, shift, k)
      decreases shift
    {
      var tmp := Shr(v, shift);
      BisectStep(value, v, count, k);
      if tmp > 0 {
        v := tmp;
      } else {
        count := Or(count, shift);
      }
      shift := shift / 2;
      k := k - 1;
    }
    assert BitLen(v) >= 1;
  }

  ghost predicate BisectInv(value: nat, v: nat, count: nat, shift: nat, k: int) {
    && -1 <= k <= 4 && shift == (if k < 0 then 0 else Pow2(k))
    && v > 0 && BitLen(v) <= Pow2(k + 1)
    && LowZeros(count, k + 1)
    && 32 - BitLen(value) == count + (Pow2(k + 1) - BitLen(v))
  }

  lemma BisectStep(value: nat, v: nat, count: nat, k: nat)
    requires BisectInv(value, v, count, Pow2(k), k)
    ensures Shr(v, Pow2(k)) > 0 ==> BisectInv(value, Shr(v, Pow2(k)), count, Pow2(k) / 2, k - 1)
    ensures Shr(v, Pow2(k)) == 0 ==> BisectInv(value, v, Or(count, Pow2(k)), Pow2(k) / 2, k - 1)
  {
    BitLenShr(v, Pow2(k));
    OrFreshBit(count, k);
    assert k > 0 ==> Pow2(k) / 2 == Pow2(k - 1);
    assert k == 0 ==> Pow2(k) / 2 == 0;
    assert BitLen(0) == 0;
    if Shr(v, Pow2(k)) == 0 { assert BitLen(v) <= Pow2(k); }
  }

  /** Value - 1 wraps for zero, which makes the answer 32. */
  method Log2Ceil32(value: nat) returns (k: nat)
    requires value < Pow2(32)
    ensures value == 0 ==> k == 32
    ensures value >= 1 ==> value <= Pow2(k) && forall j: nat :: value <= Pow2(j) ==> k <= j
  {
    var w := if value == 0 then Pow2(32) - 1 else value - 1;
    var z := CountLeadingZeros32(w);
    k := 32 - z;
    if value == 0 {
      Pow2Mono(31, 32);
      BitLenWidth(w, 31);
    } else {
      BitLenBounds(w);
      forall j: nat | value <= Pow2(j) ensures k <= j { BitLenWidth(w, j); }
    }
  }
}
