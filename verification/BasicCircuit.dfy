/** Integer helpers and the gate-leakage sums built on binomial coefficients. */
module BasicCircuit {
  import opened Arithmetic
  import opened Combinatorics
  import opened Options

  // ---------------------------------------------------------------- logarithms and powers of two

  /** The shift loop computes the integer logarithm; for 0 the program ends. */
  method Log2(num: nat) returns (r: Option<nat>)
    ensures r == if num == 0 then None else Some(FloorLog2(num))
  {
    if num == 0 {
      return None;
    }
    var n, log2 := num, 0;
    while n > 1
      invariant n >= 1 && log2 + FloorLog2(n) == FloorLog2(num)
    {
      n := n / 2;
      log2 := log2 + 1;
    }
    r := Some(log2);
  }

  /** Comparing the logarithms of val and val - 1 recognises exactly the powers of two. */
  method IsPow2(val: int) returns (b: bool)
    ensures b <==> IsPowerOfTwo(val)
  {
    if val <= 0 {
      b := false;
    } else if val == 1 {
      assert val == Pow2(0);
      b := true;
    } else {
      var x := Log2(val);
      var y := Log2(val - 1);
      LogStepsAtPowers(val);
      b := x != y;
    }
  }

  /** The logarithm goes up exactly at the powers of two. */
  lemma LogStepsAtPowers(n: nat)
    requires n >= 2
    ensures FloorLog2(n) != FloorLog2(n - 1) <==> IsPowerOfTwo(n)
  {
    hide FloorLog2, Pow2;
    var r, s := FloorLog2(n), FloorLog2(n - 1);
    if IsPowerOfTwo(n) {
      var k: nat :| n == Pow2(k);
      Pow2Order(k, s);
      Pow2Order(r + 1, k);
    } else {
      assert Pow2(r) != n;
      Pow2Order(r + 1, s);
      Pow2Order(s + 1, r);
    }
  }

  method Powers(base: int, n: int) returns (p: int)
    ensures p == Power(base, n)
  {
    p := 1;
    var i := 1;
    while i <= n
      invariant 1 <= i && (n >= 0 ==> i <= n + 1) && p == Power(base, i - 1)
      invariant n < 0 ==> i == 1
    {
      p := p * base;
      i := i + 1;
    }
  }

  /** base to the n, where a non-positive exponent gives 1. */
  function Power(base: int, n: int): int
    decreases n
  {
    if n <= 0 then 1 else Power(base, n - 1) * base
  }

  lemma {:induction false} PowersOfTwo(n: nat)
    ensures Power(2, n) == Pow2(n)
  {
    if n > 0 {
      PowersOfTwo(n - 1);
    }
  }

  // ---------------------------------------------------------------- binomial coefficients

  /** m * (m+1) * ... * n, and m alone when n <= m. */
  function Product(m: nat, n: int): nat
    decreases n - m
  {
    if n <= m then m else Product(m, n - 1) * n
  }

  method Factorial(n: int, m: nat) returns (fa: nat)
    ensures fa == Product(m, n)
  {
    fa := m;
    var i: int := m + 1;
    while i <= n
      invariant m + 1 <= i && (n > m ==> i <= n + 1) && (n <= m ==> i == m + 1)
      invariant fa == Product(m, i - 1)
    {
      fa := fa * i;
      i := i + 1;
    }
  }

  function Fact(n: nat): nat {
    Product(1, n)
  }

  lemma {:induction false} FactPositive(n: nat)
    ensures Fact(n) > 0
    ensures n >= 1 ==> Fact(n) == Fact(n - 1) * n
  {
    if n > 1 {
      FactPositive(n - 1);
    }
  }

  lemma {:induction false} ProductOfFactorials(m: nat, n: nat)
    requires m < n
    ensures Product(m + 1, n) * Fact(m) == Fact(n)
    decreases n
  {
    FactPositive(m + 1);
    if n > m + 1 {
      ProductOfFactorials(m, n - 1);
      FactPositive(n);
      Reorder(Product(m + 1, n - 1), n, Fact(m));
    }
  }

  lemma Reorder(a: nat, b: nat, c: nat)
    ensures a * b * c == a * c * b
  {
  }

  /** The factorial formula for binomial coefficients. */
  lemma {:induction false} ChooseByFactorials(n: nat, m: nat)
    requires m <= n
    ensures Choose(n, m) * Fact(m) * Fact(n - m) == Fact(n)
  {
    if m == n {
      ChooseAll(n);
    } else if m == 0 {
    } else {
      var a, b := Choose(n - 1, m - 1), Choose(n - 1, m);
      ChooseByFactorials(n - 1, m - 1);
      ChooseByFactorials(n - 1, m);
      FactPositive(m);
      FactPositive(n - m);
      FactPositive(n);
      PascalStep(a, b, Fact(m - 1), Fact(n - m - 1), m, n - m, Fact(n - 1));
    }
  }

  lemma PascalStep(a: nat, b: nat, f: nat, g: nat, m: nat, k: nat, whole: nat)
    requires a * f * (g * k) == whole
    requires b * (f * m) * g == whole
    ensures (a + b) * (f * m) * (g * k) == whole * (m + k)
  {
    assert a * (f * m) * (g * k) == a * f * (g * k) * m;
    assert b * (f * m) * (g * k) == b * (f * m) * g * k;
    assert (a + b) * (f * m) * (g * k) == a * (f * m) * (g * k) + b * (f * m) * (g * k);
  }

  /** What `combination` returns: from m == n on, the product starts above its end. */
  function Combined(n: nat, m: nat): nat {
    if m < n then Choose(n, m) else m + 1
  }

  /** It is the binomial coefficient exactly for m < n and for n == m == 0. */
  lemma CombinedIsChoose(n: nat, m: nat)
    ensures Combined(n, m) == Choose(n, m) <==> m < n || n == m == 0
  {
    if m == n {
      ChooseAll(n);
    } else if m > n {
      ChooseAbove(n, m);
    }
  }

  /** The quotient of products is exact. */
  lemma QuotientIsChoose(n: nat, m: nat)
    requires m < n
    ensures Fact(n - m) > 0 && Product(m + 1, n) == Choose(n, m) * Fact(n - m)
  {
    ChooseByFactorials(n, m);
    ProductOfFactorials(m, n);
    FactPositive(m);
    FactPositive(n - m);
    Cancel(Product(m + 1, n), Choose(n, m), Fact(n - m), Fact(m));
  }

  lemma Cancel(p: nat, c: nat, g: nat, f: nat)
    requires f > 0 && c * f * g == p * f
    ensures p == c * g
  {
    assert c * f * g == c * g * f;
    if p > c * g {
      StrictlyMore(c * g, p, f);
    } else if p < c * g {
      StrictlyMore(p, c * g, f);
    }
  }

  lemma DivideExactly(c: nat, g: nat)
    requires g > 0
    ensures (c * g) / g == c && (c * g) % g == 0
  {
    assert c * g == g * c + 0;
    Quotient(c * g, g, c, 0);
  }

  method Combination(n: nat, m: nat) returns (ret: nat)
    ensures ret == Combined(n, m)
  {
    var top := Factorial(n, m + 1);
    var bottom := Factorial(n - m, 1);
    if m < n {
      QuotientIsChoose(n, m);
      DivideExactly(Choose(n, m), Fact(n - m));
    }
    ret := top / bottom;
  }

  // ---------------------------------------------------------------- weighted rows of Pascal's triangle

  /** Choose(n, 0) + ... + Choose(n, k). */
  function RowSum(n: nat, k: nat): nat {
    if k == 0 then 1 else RowSum(n, k - 1) + Choose(n, k)
  }

  /** 1 * Choose(n, 1) + ... + k * Choose(n, k). */
  function WeightedSum(n: nat, k: nat): nat {
    if k == 0 then 0 else WeightedSum(n, k - 1) + k * Choose(n, k)
  }

  lemma {:induction false} RowSumPascal(n: nat, k: nat)
    requires n >= 1 && k >= 1
    ensures RowSum(n, k) == RowSum(n - 1, k) + RowSum(n - 1, k - 1)
  {
    if k > 1 {
      RowSumPascal(n, k - 1);
    } else {
      assert RowSum(n, 0) == 1 && RowSum(n - 1, 0) == 1 && Choose(n - 1, 0) == 1;
    }
  }

  lemma {:induction false} RowSumIsPow2(n: nat)
    ensures RowSum(n, n) == Pow2(n)
  {
    if n > 0 {
      RowSumPascal(n, n);
      RowSumIsPow2(n - 1);
      ChooseAbove(n - 1, n);
    }
  }

  lemma {:induction false} Absorption(n: nat, j: nat)
    requires n >= 1 && j >= 1
    ensures j * Choose(n, j) == n * Choose(n - 1, j - 1)
  {
    if n == 1 {
      if j > 1 {
        ChooseAbove(1, j);
        ChooseAbove(0, j - 1);
      }
    } else if j == 1 {
      Absorption(n - 1, 1);
      assert Choose(n, 1) == 1 + Choose(n - 1, 1) && Choose(n - 2, 0) == 1;
    } else {
      Absorption(n - 1, j);
      Absorption(n - 1, j - 1);
      AbsorptionStep(n, j, Choose(n - 1, j - 1), Choose(n - 1, j), Choose(n - 2, j - 2), Choose(n - 2, j - 1));
    }
  }

  lemma AbsorptionStep(n: nat, j: nat, a: nat, b: nat, c: nat, d: nat)
    requires n >= 2 && j >= 2 && a == c + d
    requires (j - 1) * a == (n - 1) * c && j * b == (n - 1) * d
    ensures j * (a + b) == n * a
  {
    assert j * (a + b) == (j - 1) * a + a + j * b;
    assert (n - 1) * c + (n - 1) * d == (n - 1) * (c + d);
  }

  lemma {:induction false} WeightedSumAbsorbs(n: nat, k: nat)
    requires n >= 1 && k >= 1
    ensures WeightedSum(n, k) == n * RowSum(n - 1, k - 1)
  {
    Absorption(n, k);
    if k > 1 {
      WeightedSumAbsorbs(n, k - 1);
      Distribute(n, RowSum(n - 1, k - 2), Choose(n - 1, k - 1));
    } else {
      assert WeightedSum(n, 0) == 0 && RowSum(n - 1, 0) == 1 && Choose(n - 1, 0) == 1;
    }
  }

  lemma Distribute(n: nat, x: nat, y: nat)
    ensures n * (x + y) == n * x + n * y
  {
  }

  /** The expected number of conducting transistors, over all input states. */
  lemma WeightedRow(n: nat)
    requires n >= 1
    ensures WeightedSum(n, n) == n * Pow2(n - 1)
    ensures WeightedSum(n, n - 1) == n * Pow2(n - 1) - n
  {
    WeightedSumAbsorbs(n, n);
    RowSumIsPow2(n - 1);
    ChooseAll(n);
  }

  // ---------------------------------------------------------------- gate leakage

  datatype GateType = Nmos | Pmos | Inv | Nand | Nor | Tri | Tg
  datatype Topology = Parallel | Series

  /** The leakage of that many conducting transistors. */
  function Leaked(leak: real, weight: nat): real {
    leak * weight as real
  }

  /** What the parallel loop adds up to: fanin * fanin more than the states account for, because the
      last coefficient is fanin + 1. */
  function ParallelTotal(leak: real, fanin: nat): real
    requires fanin >= 1
  {
    Leaked(leak, fanin * Pow2(fanin - 1) + fanin * fanin)
  }

  /** What the series loop adds up to; divided by the 2^n states it is leak * n * (2^(n-1) + 1) / 2^(n+1). */
  function SeriesTotal(leak: real, fanin: nat): real
    requires fanin >= 1
  {
    Leaked(leak, fanin * (Pow2(fanin - 1) + 1)) / 2.0
  }

  /** The loop over a parallel network: each state with k conducting transistors leaks k times. */
  method ParallelSum(leak: real, fanin: nat) returns (ig: real)
    requires fanin >= 1
    ensures ig == ParallelTotal(leak, fanin)
  {
    hide Choose, Pow2, Leaked;
    NothingLeaked(leak, fanin);
    ig := 0.0;
    ghost var weight: nat := 0;
    for k := 1 to fanin + 1
      invariant ig == Leaked(leak, weight)
      invariant weight == WeightedSum(fanin, k - 1) + if k == fanin + 1 then fanin * fanin else 0
    {
      var c := Combination(fanin, k);
      ParallelTerm(leak, weight, c, k);
      ig := ig + leak * c as real * k as real;
      ParallelWeight(fanin, k, c);
      weight := weight + c * k;
    }
    WeightedRow(fanin);
  }

  /** The last term is fanin * (fanin + 1) instead of fanin. */
  lemma ParallelWeight(n: nat, k: nat, c: nat)
    requires 1 <= k <= n && c == Combined(n, k)
    ensures WeightedSum(n, k) + (if k == n then n * n else 0) == WeightedSum(n, k - 1) + c * k
  {
    ChooseAll(n);
  }

  lemma NothingLeaked(leak: real, fanin: nat)
    ensures Leaked(leak, 0) == 0.0 && leak * fanin as real == Leaked(leak, 2 * fanin) / 2.0
  {
  }

  lemma ParallelTerm(leak: real, sum: nat, c: nat, k: nat)
    ensures Leaked(leak, sum) + leak * c as real * k as real == Leaked(leak, sum + c * k)
  {
    var x, y, z := sum as real, c as real, k as real;
    assert (sum + c * k) as real == x + y * z;
    assert leak * (x + y * z) == leak * x + leak * y * z;
  }

  /** The parallel sum exceeds the one over true binomial coefficients by leak * n * n, so it is the
      sum meant exactly when nothing leaks. */
  lemma ParallelOverstates(leak: real, n: nat)
    requires n >= 1
    ensures ParallelTotal(leak, n) == Leaked(leak, WeightedSum(n, n)) + Leaked(leak, n * n)
    ensures ParallelTotal(leak, n) == Leaked(leak, WeightedSum(n, n)) <==> leak == 0.0
  {
    hide Pow2, WeightedSum;
    WeightedRow(n);
    var x, y := (n * Pow2(n - 1)) as real, (n * n) as real;
    assert leak * (x + y) == leak * x + leak * y;
    ZeroProduct(leak, n);
  }

  lemma ZeroProduct(a: real, n: nat)
    requires n >= 1
    ensures Leaked(a, n * n) == 0.0 <==> a == 0.0
  {
    assert n * n >= 1;
  }

  /** Over the 2^n input states the series network leaks leak * n * (2^(n-1) + 1) / 2^(n+1). */
  lemma SeriesAverage(leak: real, n: nat)
    requires n >= 1
    ensures SeriesTotal(leak, n) / Pow2(n) as real == leak * (n * (Pow2(n - 1) + 1)) as real / Pow2(n + 1) as real
  {
    var x, p := leak * (n * (Pow2(n - 1) + 1)) as real, Pow2(n) as real;
    assert Pow2(n + 1) as real == 2.0 * p;
    HalvedTwice(x, p);
  }

  lemma HalvedTwice(x: real, p: real)
    requires p > 0.0
    ensures x / 2.0 / p == x / (2.0 * p)
  {
    var a, b := x / 2.0 / p, x / (2.0 * p);
    assert a * p * 2.0 == x && b * (2.0 * p) == x;
    assert (a - b) * p == 0.0;
  }

  /** The loop over a series network: everything leaks when all conduct, half as much otherwise. */
  method SeriesSum(leak: real, fanin: nat) returns (ig: real)
    requires fanin >= 1
    ensures ig == SeriesTotal(leak, fanin)
  {
    hide Choose, Pow2, Leaked;
    NothingLeaked(leak, fanin);
    ig := leak * fanin as real;
    ghost var weight: nat := 2 * fanin;
    for k := 1 to fanin
      invariant ig == Leaked(leak, weight) / 2.0
      invariant weight == 2 * fanin + WeightedSum(fanin, k - 1)
    {
      var c := Combination(fanin, k);
      ParallelTerm(leak, weight, c, k);
      ig := ig + leak * c as real * k as real / 2.0;
      ParallelWeight(fanin, k, c);
      weight := weight + c * k;
    }
    WeightedRow(fanin);
    Distribute(fanin, Pow2(fanin - 1), 1);
  }

  /** Closed form of the gate leakage of each kind of gate. */
  function GateLeakage(g: GateType, n: real, p: real, fanin: nat, topo: Topology): real
    requires fanin >= 1
  {
    var states := Pow2(fanin) as real;
    match g
    case Nmos =>
      if fanin == 1 then n / states
      else if topo.Parallel? then ParallelTotal(n, fanin) else SeriesTotal(n, fanin) / states
    case Pmos =>
      if fanin == 1 then p / states
      else if topo.Parallel? then ParallelTotal(p, fanin) else SeriesTotal(p, fanin) / states
    case Inv => (n + p) / 2.0
    case Nand => (ParallelTotal(p, fanin) + SeriesTotal(n, fanin)) / states
    case Nor => (SeriesTotal(p, fanin) + ParallelTotal(n, fanin)) / states
    case Tri => ((2.0 * n + 2.0 * p) / 2.0 + (n + p) / 2.0) / 2.0
    case Tg => (n + p) / 2.0
  }

  method CmosIgLeakage(g: GateType, n: real, p: real, fanin: nat, topo: Topology) returns (ig: real)
    requires fanin >= 1
    ensures ig == GateLeakage(g, n, p, fanin, topo)
  {
    hide Pow2, Power, ParallelTotal, SeriesTotal;
    var numStates := Powers(2, fanin);
    PowersOfTwo(fanin);
    match g
    case Nmos =>
      if fanin == 1 {
        ig := n / numStates as real;
      } else if topo == Parallel {
        ig := ParallelSum(n, fanin);
      } else {
        ig := SeriesSum(n, fanin);
        ig := ig / numStates as real;
      }
    case Pmos =>
      if fanin == 1 {
        ig := p / numStates as real;
      } else if topo == Parallel {
        ig := ParallelSum(p, fanin);
      } else {
        ig := SeriesSum(p, fanin);
        ig := ig / numStates as real;
      }
    case Inv => ig := (n + p) / 2.0;
    case Nand =>
      var up := ParallelSum(p, fanin);
      var down := SeriesSum(n, fanin);
      ig := (up + down) / numStates as real;
    case Nor =>
      var up := SeriesSum(p, fanin);
      var down := ParallelSum(n, fanin);
      ig := (up + down) / numStates as real;
    case Tri =>
      ig := (2.0 * n + 2.0 * p) / 2.0;
      ig := ig + (n + p) / 2.0;
      ig := ig / 2.0;
    case Tg => ig := (n + p) / 2.0;
  }
}
