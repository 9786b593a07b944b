/** The hashing embedder of backend/internal/llmgw/memstore.go over the reals: bucket counts of the
    grams, normalised with a twelve-step Newton square root. The hash is a parameter. */
module Embedder {
  import Tokenizer

  const STEPS := 12
  const FOUR_TO_STEPS := 16777216.0

  function Newton(x: real, z: real): real
    requires z != 0.0
  {
    (z + x / z) / 2.0
  }

  /** The value after `k` Newton steps from `x` itself. */
  function Iterate(x: real, k: nat): (z: real)
    requires x > 0.0
    ensures z > 0.0
  {
    if k == 0 then x
    else
      var z := Iterate(x, k - 1);
      assert x / z > 0.0;
      Newton(x, z)
  }

  method Sqrt32(x: real) returns (z: real)
    ensures x <= 0.0 ==> z == 0.0
    ensures x > 0.0 ==> z == Iterate(x, STEPS)
  {
    if x <= 0.0 {
      return 0.0;
    }
    z := x;
    for i := 0 to 12
      invariant z == Iterate(x, i)
    {
      z := (z + x / z) / 2.0;
    }
  }

  function Pow4(k: nat): (p: real)
    ensures p > 0.0
  {
    if k == 0 then 1.0 else 4.0 * Pow4(k - 1)
  }

  /** One step from `z` with `y` = x / z: the square never falls below x = y * z, and when it was
      not below it the excess shrinks at least fourfold. */
  lemma StepBound(y: real, z: real)
    requires y > 0.0 && z > 0.0
    ensures var n := (z + y) / 2.0;
            n * n - y * z == (z - y) * (z - y) / 4.0 >= 0.0
    ensures z * z >= y * z ==> (z - y) * (z - y) <= z * z - y * z
  {
    assert (z - y) * (z - y) >= 0.0;
    if z * z >= y * z {
      MulLess(z, y, z);
      assert z * z - y * z - (z - y) * (z - y) == y * (z - y);
      assert y * (z - y) >= 0.0;
    }
  }

  lemma MulLess(a: real, b: real, c: real)
    requires c > 0.0
    ensures a < b ==> a * c < b * c
  {
    if a < b {
      assert (b - a) * c > 0.0;
    }
  }

  lemma DivSelf(x: real)
    requires x > 0.0
    ensures x / x == 1.0
  {
  }

  /** `z` is no smaller than the root of `x`, and its square overshoots by at most (x - 1)^2 / p. */
  predicate RootWithin(x: real, z: real, p: real)
    requires p > 0.0
  {
    x <= z * z <= x + (x - 1.0) * (x - 1.0) / p
  }

  /** For every x > 0, `k` Newton steps leave an overshoot of at most (x - 1)^2 / 4^k. */
  lemma {:induction false} NewtonBound(x: real, k: nat)
    requires x > 0.0 && k >= 1
    ensures RootWithin(x, Iterate(x, k), Pow4(k))
    decreases k
  {
    Unfold(x, k);
    hide Iterate, Pow4, RootWithin, Newton;
    if k == 1 {
      FirstStep(x);
    } else {
      NewtonBound(x, k - 1);
      LaterStep(x, Iterate(x, k - 1), Pow4(k - 1));
    }
  }

  lemma Unfold(x: real, k: nat)
    requires x > 0.0 && k >= 1
    ensures Iterate(x, k) == Newton(x, Iterate(x, k - 1)) && Pow4(k) == 4.0 * Pow4(k - 1)
    ensures k == 1 ==> Iterate(x, k) == Newton(x, x) && Pow4(k) == 4.0
  {
  }

  lemma FirstStep(x: real)
    requires x > 0.0
    ensures RootWithin(x, Newton(x, x), 4.0)
  {
    DivSelf(x);
    StepBound(1.0, x);
  }

  lemma LaterStep(x: real, z: real, p: real)
    requires x > 0.0 && z > 0.0 && p > 0.0 && RootWithin(x, z, p)
    ensures RootWithin(x, Newton(x, z), 4.0 * p)
  {
    var y := x / z;
    assert y * z == x;
    StepBound(y, z);
    QuarterOf((x - 1.0) * (x - 1.0), p);
  }

  lemma QuarterOf(a: real, p: real)
    requires p > 0.0
    ensures a / p / 4.0 == a / (4.0 * p)
  {
    var q := a / p;
    assert q * p == a;
    assert q / 4.0 * (4.0 * p) == a;
  }

  lemma SqrtBound(x: real)
    requires x > 0.0
    ensures RootWithin(x, Iterate(x, STEPS), FOUR_TO_STEPS)
  {
    NewtonBound(x, STEPS);
    assert Pow4(4) == 256.0;
    assert Pow4(8) == 65536.0;
    assert Pow4(12) == 16777216.0;
  }

  // ---- the vector ----

  /** How many of the grams fall into bucket `i`. */
  function Count(grams: seq<string>, dim: nat, hash: string -> nat, i: nat): nat
    requires dim > 0
  {
    if grams == [] then 0
    else Count(grams[..|grams| - 1], dim, hash, i) + (if hash(grams[|grams| - 1]) % dim == i then 1 else 0)
  }

  function Counts(grams: seq<string>, dim: nat, hash: string -> nat): seq<nat>
    requires dim > 0
  {
    seq(dim, i requires 0 <= i => Count(grams, dim, hash, i))
  }

  function SumSquares(s: seq<real>): real {
    if s == [] then 0.0 else SumSquares(s[..|s| - 1]) + s[|s| - 1] * s[|s| - 1]
  }

  function Reals(s: seq<nat>): seq<real> {
    seq(|s|, i requires 0 <= i < |s| => s[i] as real)
  }

  function Times(a: real, b: real): real { a * b }

  function Scaled(s: seq<real>, f: real): seq<real> {
    seq(|s|, i requires 0 <= i < |s| => Times(s[i], f))
  }

  /** The embedding of a list of grams: its bucket counts divided by the computed norm. */
  function Embedding(grams: seq<string>, dim: nat, hash: string -> nat): seq<real>
    requires dim > 0
  {
    var v := Reals(Counts(grams, dim, hash));
    var norm := SumSquares(v);
    if norm <= 0.0 then v else Scaled(v, 1.0 / Iterate(norm, STEPS))
  }

  method BucketCounts(grams: seq<string>, dim: nat, hash: string -> nat) returns (v: array<real>)
    requires dim > 0
    ensures fresh(v) && v[..] == Reals(Counts(grams, dim, hash))
  {
    v := new real[dim](_ => 0.0);
    for n := 0 to |grams|
      invariant forall i | 0 <= i < dim :: v[i] == Count(grams[..n], dim, hash, i) as real
    {
      assert grams[..n + 1][..n] == grams[..n];
      var b := hash(grams[n]) % dim;
      v[b] := v[b] + 1.0;
    }
    assert grams[..|grams|] == grams;
  }

  method SquaredNorm(v: array<real>) returns (norm: real)
    ensures norm == SumSquares(v[..])
  {
    norm := 0.0;
    for i := 0 to v.Length
      invariant norm == SumSquares(v[..i])
    {
      assert v[..i + 1][..i] == v[..i];
      norm := norm + v[i] * v[i];
    }
    assert v[..v.Length] == v[..];
  }

  method Scale(v: array<real>, f: real)
    modifies v
    ensures v[..] == Scaled(old(v[..]), f)
  {
    for i := 0 to v.Length
      invariant forall j | 0 <= j < v.Length :: v[j] == if j < i then Times(old(v[j]), f) else old(v[j])
    {
      hide Times;
      v[i] := Times(v[i], f);
    }
  }

  method Vector(text: string, lower: string -> string, dim: nat, hash: string -> nat) returns (v: array<real>)
    requires dim > 0
    ensures fresh(v) && v[..] == Embedding(Tokenizer.GramsOf(lower(text)), dim, hash)
  {
    var grams := Tokenizer.Grams(lower(text));
    v := BucketCounts(grams, dim, hash);
    var norm := SquaredNorm(v);
    SumSquaresNonNegative(v[..]);
    if norm == 0.0 {
      return;
    }
    var root := Sqrt32(norm);
    Scale(v, 1.0 / root);
  }

  lemma {:induction false} SumSquaresNonNegative(s: seq<real>)
    ensures SumSquares(s) >= 0.0
    decreases |s|
  {
    if s != [] {
      SumSquaresNonNegative(s[..|s| - 1]);
    }
  }

  predicate ScaledSquare(n2: real, x: real, f: real) {
    n2 == x * (f * f)
  }

  /** A squared norm at most 1 and at least 1 / (1 + (x - 1) / k). */
  predicate NormWithin(n2: real, x: real, k: real)
    requires k > 0.0
  {
    1.0 <= n2 * (1.0 + (x - 1.0) / k) && n2 <= 1.0
  }

  lemma ScaledPrefix(s: seq<real>, f: real)
    requires s != []
    ensures Scaled(s, f)[..|s| - 1] == Scaled(s[..|s| - 1], f)
  {
    hide Times;
  }

  lemma Distribute(a: real, x: real, f: real)
    ensures a * (f * f) + (x * f) * (x * f) == (a + x * x) * (f * f)
  {
    assert (x * f) * (x * f) == (x * x) * (f * f);
  }

  lemma {:induction false} SumSquaresScaled(s: seq<real>, f: real)
    ensures ScaledSquare(SumSquares(Scaled(s, f)), SumSquares(s), f)
    decreases |s|
  {
    if s != [] {
      var t, x := s[..|s| - 1], s[|s| - 1];
      ScaledPrefix(s, f);
      SumSquaresScaled(t, f);
      Distribute(SumSquares(t), x, f);
    }
  }

  function Sum(s: seq<nat>): nat {
    if s == [] then 0 else Sum(s[..|s| - 1]) + s[|s| - 1]
  }

  lemma {:induction false} SumBump(s: seq<nat>, b: nat)
    requires b < |s|
    ensures Sum(s[b := s[b] + 1]) == Sum(s) + 1
    decreases |s|
  {
    var t := s[b := s[b] + 1];
    if b == |s| - 1 {
      assert t[..|s| - 1] == s[..|s| - 1];
    } else {
      assert t[..|s| - 1] == s[..|s| - 1][b := s[b] + 1];
      SumBump(s[..|s| - 1], b);
    }
  }

  lemma {:induction false} SumZero(s: seq<nat>)
    requires forall i | 0 <= i < |s| :: s[i] == 0
    ensures Sum(s) == 0
    decreases |s|
  {
    if s != [] {
      SumZero(s[..|s| - 1]);
    }
  }

  /** Every gram is counted in exactly one bucket. */
  lemma {:induction false} CountsConserve(grams: seq<string>, dim: nat, hash: string -> nat)
    requires dim > 0
    ensures Sum(Counts(grams, dim, hash)) == |grams|
    decreases |grams|
  {
    if grams == [] {
      SumZero(Counts(grams, dim, hash));
    } else {
      var init, b := grams[..|grams| - 1], hash(grams[|grams| - 1]) % dim;
      CountsConserve(init, dim, hash);
      var before := Counts(init, dim, hash);
      assert Counts(grams, dim, hash) == before[b := before[b] + 1];
      SumBump(before, b);
    }
  }

  lemma {:induction false} SquaresDominate(s: seq<nat>)
    ensures SumSquares(Reals(s)) >= Sum(s) as real
    decreases |s|
  {
    if s != [] {
      var t, x := s[..|s| - 1], s[|s| - 1];
      SquaresDominate(t);
      assert Reals(s)[..|s| - 1] == Reals(t);
      var r := x as real;
      assert x >= 1 ==> r >= 1.0;
      assert r * r >= r by {
        if x >= 1 {
          assert r * (r - 1.0) >= 0.0;
        }
      }
    }
  }

  lemma RatioBounds(x: real, z: real, k: real, n2: real)
    requires x >= 1.0 && z > 0.0 && k > 0.0 && RootWithin(x, z, k)
    requires ScaledSquare(n2, x, 1.0 / z)
    ensures NormWithin(n2, x, k)
  {
    var f := 1.0 / z;
    var s := z * z;
    assert f * z == 1.0;
    assert (f * f) * s == (f * z) * (f * z) == 1.0;
    var q := f * f;
    assert q > 0.0;
    var m := (x - 1.0) / k;
    assert m * k == x - 1.0;
    MulLess(m, 0.0, k);
    assert (x - 1.0) * (x - 1.0) / k == m * (x - 1.0) by {
      assert m * (x - 1.0) * k == (x - 1.0) * (x - 1.0);
    }
    assert s <= x + m * x;
    assert q * s <= q * (x + m * x);
    assert q * x <= q * s;
    assert n2 == q * x;
    assert q * (x + m * x) == n2 * (1.0 + m);
  }

  /** The embedded vector's squared norm is at most 1 and at least 1 / (1 + (x - 1) / 4^12), where x
      is the sum of the squared counts; it is 0 exactly when the text has no grams. */
  lemma NormBound(grams: seq<string>, dim: nat, hash: string -> nat)
    requires dim > 0
    ensures var n2 := SumSquares(Embedding(grams, dim, hash));
            var x := SumSquares(Reals(Counts(grams, dim, hash)));
            && (grams == [] ==> x == n2 == 0.0)
            && (grams != [] ==> x >= 1.0 && NormWithin(n2, x, FOUR_TO_STEPS))
  {
    var counts := Counts(grams, dim, hash);
    CountsConserve(grams, dim, hash);
    SquaresDominate(counts);
    var v := Reals(counts);
    hide Counts, Reals, NormWithin;
    if grams == [] {
      SumSquaresZero(grams, dim, hash);
    } else {
      NormOf(v, Embedding(grams, dim, hash));
    }
  }

  lemma SumSquaresZero(grams: seq<string>, dim: nat, hash: string -> nat)
    requires dim > 0 && grams == []
    ensures SumSquares(Reals(Counts(grams, dim, hash))) == 0.0
  {
    AllZero(Reals(Counts(grams, dim, hash)));
  }

  lemma NormOf(v: seq<real>, e: seq<real>)
    requires SumSquares(v) >= 1.0 && e == Scaled(v, 1.0 / Iterate(SumSquares(v), STEPS))
    ensures NormWithin(SumSquares(e), SumSquares(v), FOUR_TO_STEPS)
  {
    var x := SumSquares(v);
    SqrtBound(x);
    SumSquaresScaled(v, 1.0 / Iterate(x, STEPS));
    hide Iterate, SumSquares, Scaled, RootWithin, NormWithin, ScaledSquare;
    RatioBounds(x, Iterate(x, STEPS), FOUR_TO_STEPS, SumSquares(e));
  }

  lemma {:induction false} AllZero(s: seq<real>)
    requires forall i | 0 <= i < |s| :: s[i] == 0.0
    ensures SumSquares(s) == 0.0
    decreases |s|
  {
    if s != [] {
      AllZero(s[..|s| - 1]);
    }
  }
}
