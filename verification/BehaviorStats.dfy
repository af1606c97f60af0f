/** Running statistics of a behaviour profile (control/behavior.go), over the real numbers. */
module BehaviorStats {
  datatype Stat = Stat(samples: nat, mean: real, m2: real)

  const EMPTY := Stat(0, 0.0, 0.0)

  function Updated(s: Stat, v: real): Stat {
    var n := s.samples + 1;
    var delta := v - s.mean;
    var mean := s.mean + delta / n as real;
    Stat(n, mean, s.m2 + Product(delta, v - mean))
  }

  /** The statistics after the samples, in order, from nothing. */
  function Learned(vs: seq<real>): Stat {
    if vs == [] then EMPTY else Updated(Learned(vs[..|vs| - 1]), vs[|vs| - 1])
  }

  /** What stddev takes the square root of. */
  function Variance(s: Stat): real {
    if s.samples < 2 then 0.0 else s.m2 / (s.samples - 1) as real
  }

  // -------------------------------------------------------------- definitions

  function Product(x: real, y: real): real {
    x * y
  }

  function Sq(x: real): real {
    Product(x, x)
  }

  function Sum(vs: seq<real>): real {
    if vs == [] then 0.0 else Sum(vs[..|vs| - 1]) + vs[|vs| - 1]
  }

  function SumOfSquares(vs: seq<real>): real {
    if vs == [] then 0.0 else SumOfSquares(vs[..|vs| - 1]) + Sq(vs[|vs| - 1])
  }

  /** Sum of squared deviations from m. */
  function Spread(vs: seq<real>, m: real): real {
    if vs == [] then 0.0 else Spread(vs[..|vs| - 1], m) + Sq(vs[|vs| - 1] - m)
  }

  lemma SquareOfDifference(x: real, y: real)
    ensures Sq(x - y) == Sq(x) - 2.0 * Product(y, x) + Sq(y)
  {
  }

  lemma Distributes(x: real, y: real, z: real)
    ensures Product(x, y + z) == Product(x, y) + Product(x, z)
  {
  }

  lemma Units(x: real)
    ensures Product(x, 0.0) == 0.0 && Product(x, 1.0) == x
  {
  }

  lemma {:induction false} SpreadExpands(vs: seq<real>, m: real)
    ensures Spread(vs, m) == SumOfSquares(vs) - 2.0 * Product(m, Sum(vs)) + Product(Sq(m), |vs| as real)
  {
    hide Product, Sq;
    Units(m);
    Units(Sq(m));
    if vs != [] {
      var front, v := vs[..|vs| - 1], vs[|vs| - 1];
      SpreadExpands(front, m);
      SquareOfDifference(v, m);
      Distributes(m, Sum(front), v);
      Distributes(Sq(m), |front| as real, 1.0);
    }
  }

  lemma {:induction false} SpreadIsNonNegative(vs: seq<real>, m: real)
    ensures Spread(vs, m) >= 0.0
    ensures Spread(vs, m) == 0.0 <==> forall i :: 0 <= i < |vs| ==> vs[i] == m
  {
    if vs != [] {
      var front, v := vs[..|vs| - 1], vs[|vs| - 1];
      hide Sq;
      SpreadIsNonNegative(front, m);
      Square(v - m);
      assert forall i :: 0 <= i < |front| ==> front[i] == vs[i];
    }
  }

  lemma Square(x: real)
    ensures Sq(x) >= 0.0 && (Sq(x) == 0.0 <==> x == 0.0)
  {
    if x != 0.0 {
      assert Sq(x) / x == x;
    }
  }

  // --------------------------------------------------------------------- step

  /** The new mean keeps mean * samples equal to the sum. */
  lemma MeanStep(mean: real, v: real, k: real)
    requires k > 0.0
    ensures Product(mean + (v - mean) / k, k) == Product(mean, k - 1.0) + v
  {
    assert (v - mean) / k * k == v - mean;
  }

  /** One step of the sum of squares about the mean; `next` is the mean of one more sample. */
  lemma SpreadStep(n: real, mean: real, next: real, v: real)
    requires Product(next, n + 1.0) == Product(mean, n) + v
    ensures Sq(v) - Product(Sq(next), n + 1.0) + Product(Sq(mean), n) == Product(v - mean, v - next)
  {
    var total := mean * n + v;
    assert next * next * (n + 1.0) == next * total;
    assert mean * (next * (n + 1.0)) == mean * total;
    assert next * total == next * mean * n + next * v;
    assert mean * total == mean * mean * n + mean * v;
    assert mean * (next * (n + 1.0)) == next * mean * n + mean * next;
    assert (v - mean) * (v - next) == v * v - v * next - mean * v + mean * next;
  }

  lemma UpdatedParts(s: Stat, v: real)
    ensures var n := Updated(s, v);
            && n.samples == s.samples + 1 && n.mean == s.mean + (v - s.mean) / (s.samples + 1) as real
            && n.m2 == s.m2 + Product(v - s.mean, v - n.mean)
  {
  }

  /** The statistics of n samples with the given sum and sum of squares. */
  predicate Closed(s: Stat, n: nat, sum: real, squares: real) {
    s.samples == n && Product(s.mean, n as real) == sum && s.m2 == squares - Product(Sq(s.mean), n as real)
  }

  lemma ClosedStep(s: Stat, n: nat, sum: real, squares: real, v: real)
    requires Closed(s, n, sum, squares)
    ensures Closed(Updated(s, v), n + 1, sum + v, squares + Sq(v))
  {
    hide Product, Sq, Updated;
    UpdatedParts(s, v);
    MeanStep(s.mean, v, (n + 1) as real);
    assert (n + 1) as real - 1.0 == n as real && (n + 1) as real == n as real + 1.0;
    SpreadStep(n as real, s.mean, Updated(s, v).mean, v);
  }

  lemma {:induction false} LearnedInClosedForm(vs: seq<real>)
    ensures Closed(Learned(vs), |vs|, Sum(vs), SumOfSquares(vs))
  {
    if vs != [] {
      hide Closed, Updated, Sq;
      var front, v := vs[..|vs| - 1], vs[|vs| - 1];
      LearnedInClosedForm(front);
      ClosedStep(Learned(front), |front|, Sum(front), SumOfSquares(front), v);
    }
  }

  lemma ClosedMean(s: Stat, n: nat, sum: real, squares: real)
    requires Closed(s, n, sum, squares)
    ensures n > 0 ==> s.mean == sum / n as real
    ensures s.m2 == squares - 2.0 * Product(s.mean, sum) + Product(Sq(s.mean), n as real)
  {
    hide Closed, Sq, Product;
    assert Product(s.mean, n as real) == sum
        && s.m2 == squares - Product(Sq(s.mean), n as real) by { ClosedParts(s, n, sum, squares); }
    Associates(s.mean, n as real);
    if n > 0 {
      Divides(s.mean, n as real);
    }
  }

  lemma ClosedParts(s: Stat, n: nat, sum: real, squares: real)
    requires Closed(s, n, sum, squares)
    ensures Product(s.mean, n as real) == sum && s.m2 == squares - Product(Sq(s.mean), n as real)
  {
  }

  lemma Associates(x: real, k: real)
    ensures Product(x, Product(x, k)) == Product(Sq(x), k)
  {
  }

  lemma Divides(x: real, k: real)
    requires k > 0.0
    ensures Product(x, k) / k == x
  {
  }

  /** The closed form determines the statistics. */
  lemma ClosedIsUnique(s: Stat, t: Stat, n: nat, sum: real, squares: real)
    requires Closed(s, n, sum, squares) && Closed(t, n, sum, squares)
    ensures n > 0 ==> s == t
  {
    hide Product, Sq;
    ClosedMean(s, n, sum, squares);
    ClosedMean(t, n, sum, squares);
  }

  lemma VarianceIsNonNegative(s: Stat)
    requires s.m2 >= 0.0
    ensures Variance(s) >= 0.0
  {
  }

  /**
   After any samples the mean is the arithmetic mean and M2 is the sum of squared deviations from
   it, hence never negative and zero exactly for constant samples; the square root is defined.
   */
  lemma StatisticsAreExact(vs: seq<real>)
    ensures var s := Learned(vs);
            && s.samples == |vs|
            && (vs != [] ==> s.mean == Sum(vs) / |vs| as real)
            && s.m2 == Spread(vs, s.mean) && s.m2 >= 0.0 && Variance(s) >= 0.0
            && (s.m2 == 0.0 <==> forall i :: 0 <= i < |vs| ==> vs[i] == s.mean)
  {
    hide Learned, Sum, SumOfSquares, Spread, Variance, Product, Sq;
    var s := Learned(vs);
    LearnedInClosedForm(vs);
    assert s.samples == |vs|;
    hide Closed;
    ClosedMean(s, |vs|, Sum(vs), SumOfSquares(vs));
    SpreadExpands(vs, s.mean);
    SpreadIsNonNegative(vs, s.mean);
    VarianceIsNonNegative(s);
  }

  // ------------------------------------------------------------ order of samples

  lemma {:induction false} SumsSplit(vs: seq<real>, i: nat)
    requires i < |vs|
    ensures var rest := vs[..i] + vs[i + 1..];
            Sum(vs) == Sum(rest) + vs[i] && SumOfSquares(vs) == SumOfSquares(rest) + Sq(vs[i])
  {
    hide Sq;
    var rest := vs[..i] + vs[i + 1..];
    if i == |vs| - 1 {
      assert rest == vs[..|vs| - 1];
    } else {
      var front := vs[..|vs| - 1];
      SumsSplit(front, i);
      assert rest[..|rest| - 1] == front[..i] + front[i + 1..];
      assert rest[|rest| - 1] == vs[|vs| - 1];
    }
  }

  lemma {:induction false} SumsIgnoreOrder(a: seq<real>, b: seq<real>)
    requires multiset(a) == multiset(b)
    ensures |a| == |b| && Sum(a) == Sum(b) && SumOfSquares(a) == SumOfSquares(b)
  {
    hide Sq;
    assert |a| == |multiset(a)| == |b|;
    if a != [] {
      var front, v := a[..|a| - 1], a[|a| - 1];
      var i := Counterpart(a, b);
      SumsIgnoreOrder(front, b[..i] + b[i + 1..]);
      SumsSplit(b, i);
    }
  }

  /** The last sample of a is some sample of b; without it the others still match. */
  lemma Counterpart(a: seq<real>, b: seq<real>) returns (i: nat)
    requires multiset(a) == multiset(b) && a != []
    ensures i < |b| && b[i] == a[|a| - 1]
    ensures multiset(a[..|a| - 1]) == multiset(b[..i] + b[i + 1..])
  {
    var v := a[|a| - 1];
    assert v in multiset(b);
    i :| 0 <= i < |b| && b[i] == v;
    Without(a, |a| - 1);
    assert a[..|a| - 1] + a[|a|..] == a[..|a| - 1];
    Without(b, i);
  }

  lemma Without(s: seq<real>, i: nat)
    requires i < |s|
    ensures multiset(s[..i] + s[i + 1..]) == multiset(s) - multiset{s[i]}
  {
    assert s == s[..i] + [s[i]] + s[i + 1..];
  }

  /** A profile depends on which samples it saw, not on their order. */
  lemma OrderDoesNotMatter(a: seq<real>, b: seq<real>)
    requires multiset(a) == multiset(b)
    ensures Learned(a) == Learned(b)
  {
    hide Updated, Sum, SumOfSquares;
    SumsIgnoreOrder(a, b);
    LearnedInClosedForm(a);
    LearnedInClosedForm(b);
    hide Closed;
    ClosedIsUnique(Learned(a), Learned(b), |a|, Sum(a), SumOfSquares(a));
  }

  // ------------------------------------------------------------------ in place

  lemma LearnedMore(vs: seq<real>, v: real)
    ensures Learned(vs + [v]) == Updated(Learned(vs), v)
  {
    assert (vs + [v])[..|vs|] == vs;
  }

  class RunningStat {
    var samples: nat
    var mean: real
    var m2: real
    ghost var seen: seq<real>

    ghost predicate Valid()
      reads this
    {
      Stat(samples, mean, m2) == Learned(seen)
    }

    constructor ()
      ensures Valid() && seen == []
    {
      samples, mean, m2, seen := 0, 0.0, 0.0, [];
    }

    /** runningStat.update */
    method Update(v: real)
      requires Valid()
      modifies this
      ensures Valid() && seen == old(seen) + [v]
    {
      hide Learned;
      LearnedMore(seen, v);
      samples := samples + 1;
      var delta := v - mean;
      mean := mean + delta / samples as real;
      m2 := m2 + Product(delta, v - mean);
      seen := seen + [v];
    }
  }
}
