/** Triangular probing: adding 1, 2, 3, ... modulo a power of two visits every bucket. */
module DenseMapProbe {
  import opened FiniteSets
  import opened Words

  /** 1 + 2 + ... + i */
  function Tri(i: nat): nat {
    if i == 0 then 0 else Tri(i - 1) + i
  }

  /** a modulo n, by repeated subtraction. */
  function Rem(a: nat, n: nat): (r: nat)
    requires n > 0
    ensures r < n
  {
    if a < n then a else Rem(a - n, n)
  }

  lemma {:induction false} RemIsMod(a: nat, n: nat)
    requires n > 0
    ensures Rem(a, n) == a % n
  {
    if a >= n {
      RemIsMod(a - n, n);
      var q, r := (a - n) / n, (a - n) % n;
      assert n * (q + 1) == n * q + n;
      DivUnique(a, n, q + 1, r);
    } else {
      DivUnique(a, n, 0, a);
    }
  }

  /** The bucket looked at after i advances from hash h, in a table of n buckets. */
  function Visit(h: nat, i: nat, n: nat): (j: nat)
    requires n > 0
    ensures j < n
  {
    Rem(h + Tri(i), n)
  }

  lemma {:induction false} TriTwice(i: nat)
    ensures 2 * Tri(i) == i * (i + 1)
  {
    if i > 0 {
      TriTwice(i - 1);
      assert i * (i + 1) == (i - 1) * i + 2 * i;
    }
  }

  lemma ModAdvance(a: nat, d: nat, n: nat)
    requires n > 0
    ensures (a + d) % n == ((a % n) + d) % n
  {
    var q, r := a / n, a % n;
    var q2, r2 := (r + d) / n, (r + d) % n;
    assert a + d == n * (q + q2) + r2 by { assert n * (q + q2) == n * q + n * q2; }
    DivUnique(a + d, n, q + q2, r2);
  }

  /** One advance of the probe loop. */
  lemma VisitNext(h: nat, i: nat, n: nat)
    requires n > 0
    ensures Visit(h, i + 1, n) == (Visit(h, i, n) + (i + 1)) % n
  {
    RemIsMod(h + Tri(i), n);
    RemIsMod(h + Tri(i + 1), n);
    ModAdvance(h + Tri(i), i + 1, n);
  }

  lemma {:induction false} OddFactor(m: nat, a: nat, b: nat, q: nat)
    requires a % 2 == 1 && a * b == q * Pow2(m) && b > 0
    ensures b >= Pow2(m)
    decreases m
  {
    if m > 0 {
      assert q * Pow2(m) == 2 * (q * Pow2(m - 1));
      OddProduct(a, b);
      var c := b / 2;
      assert a * (2 * c) == 2 * (a * c);
      OddFactor(m - 1, a, c, q);
    }
  }

  lemma OddSum(m: nat, a: nat, b: nat, q: nat)
    requires a > 0 && b > 0 && (a % 2 == 1 || b % 2 == 1) && a * b == q * Pow2(m) == b * a
    ensures a >= Pow2(m) || b >= Pow2(m)
  {
    if b < Pow2(m) && a % 2 == 1 { OddFactor(m, a, b, q); }
    if a < Pow2(m) && b % 2 == 1 { OddFactor(m, b, a, q); }
  }

  lemma OneIsOdd(i: nat, j: nat)
    requires i < j
    ensures (j - i) % 2 == 1 || (j + i + 1) % 2 == 1
  {
    assert (j + i + 1) - (j - i) == 2 * i + 1;
  }

  lemma OddProduct(a: nat, b: nat)
    requires a % 2 == 1
    ensures b % 2 == 1 ==> (a * b) % 2 == 1
  {
    if b % 2 == 1 {
      var x, y := a / 2, b / 2;
      assert a * b == (2 * x + 1) * (2 * y + 1) == 2 * (2 * (x * y) + x + y) + 1;
    }
  }

  lemma {:induction false} SameRest(a: nat, b: nat, n: nat) returns (q: nat)
    requires n > 0 && a <= b && Rem(a, n) == Rem(b, n)
    ensures b - a == q * n
    decreases b
  {
    if b < n {
      q := 0;
    } else if a >= n {
      q := SameRest(a - n, b - n, n);
    } else {
      var p := SameRest(a, b - n, n);
      q := p + 1;
      assert q * n == p * n + n;
    }
  }

  lemma DiffProduct(i: int, j: int)
    ensures (j - i) * (j + i + 1) == j * (j + 1) - i * (i + 1)
  {}

  /** Within the first n probes no bucket is seen twice. */
  lemma VisitsDiffer(h: nat, i: nat, j: nat, p: nat)
    requires i < j < Pow2(p)
    ensures Visit(h, i, Pow2(p)) != Visit(h, j, Pow2(p))
  {
    var n := Pow2(p);
    if Visit(h, i, n) == Visit(h, j, n) {
      TriMono(i, j);
      var q := SameRest(h + Tri(i), h + Tri(j), n);
      NotMultiple(i, j, q, p);
    }
  }

  lemma NotMultiple(i: nat, j: nat, q: nat, p: nat)
    requires i < j < Pow2(p)
    ensures Tri(j) - Tri(i) != q * Pow2(p)
  {
    if Tri(j) - Tri(i) == q * Pow2(p) {
      TwiceApart(i, j, q, p);
      OneIsOdd(i, j);
      OddSum(p + 1, j - i, j + i + 1, q);
    }
  }

  lemma TwiceApart(i: nat, j: nat, q: nat, p: nat)
    requires i < j && Tri(j) - Tri(i) == q * Pow2(p)
    ensures (j - i) * (j + i + 1) == q * Pow2(p + 1) == (j + i + 1) * (j - i)
  {
    TriTwice(i);
    TriTwice(j);
    DiffProduct(i, j);
    var n := Pow2(p);
    assert 2 * (q * n) == q * (2 * n);
  }

  lemma {:induction false} TriMono(i: nat, j: nat)
    requires i <= j
    ensures Tri(i) <= Tri(j)
    decreases j
  {
    if i < j { TriMono(i, j - 1); }
  }

  ghost function FirstVisits(h: nat, c: nat, n: nat): set<nat>
    requires n > 0
  {
    set i | 0 <= i < c :: Visit(h, i, n)
  }

  lemma {:induction false} FirstVisitsSize(h: nat, c: nat, p: nat)
    requires c <= Pow2(p)
    ensures |FirstVisits(h, c, Pow2(p))| == c
    decreases c
  {
    var n := Pow2(p);
    if c > 0 {
      FirstVisitsSize(h, c - 1, p);
      forall i | 0 <= i < c - 1 ensures Visit(h, i, n) != Visit(h, c - 1, n) {
        VisitsDiffer(h, i, c - 1, p);
      }
      assert FirstVisits(h, c, n) == FirstVisits(h, c - 1, n) + {Visit(h, c - 1, n)};
    }
  }

  lemma SubsetSameSize(a: set<nat>, b: set<nat>)
    requires a <= b && |a| == |b|
    ensures a == b
  {
    assert b == a + (b - a);
    assert |b| == |a| + |b - a|;
  }

  /** The first n probes visit every one of the n buckets. */
  lemma EveryBucketVisited(h: nat, n: nat, j: nat) returns (i: nat)
    requires IsPow2(n) && j < n
    ensures i < n && Visit(h, i, n) == j
  {
    var p := ExponentOf(n);
    FirstVisitsSize(h, n, p);
    BelowSize(n);
    SubsetSameSize(FirstVisits(h, n, n), Below(n));
    assert j in Below(n);
    i :| 0 <= i < n && Visit(h, i, n) == j;
  }
}
