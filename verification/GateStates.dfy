/** The gate leakage of a gate as an average over the states of its inputs: the reference that the closed
    forms are compared with. */
module GateStates {
  import opened Combinatorics
  import opened BasicCircuit

  /** g summed over all states of n more inputs, applied to how many inputs are high, k being high already. */
  function OverStates(g: int -> real, n: nat, k: int): real {
    if n == 0 then g(k) else OverStates(g, n - 1, k) + OverStates(g, n - 1, k + 1)
  }

  /** A parallel network leaks in each transistor that conducts. */
  function InParallel(leak: real, on: int): real {
    leak * on as real
  }

  /** A series network leaks in all of its transistors when all conduct, and half as much in each otherwise. */
  function InSeries(leak: real, fanin: int, on: int): real {
    if on == fanin then leak * on as real else leak * on as real / 2.0
  }

  lemma {:induction false} StatesAdd(f: int -> real, g: int -> real, h: int -> real, n: nat, k: int)
    requires forall i :: h(i) == f(i) + g(i)
    ensures OverStates(h, n, k) == OverStates(f, n, k) + OverStates(g, n, k)
  {
    if n > 0 {
      StatesAdd(f, g, h, n - 1, k);
      StatesAdd(f, g, h, n - 1, k + 1);
    }
  }

  /** Counting low inputs instead of high ones makes no difference. */
  lemma {:induction false} StatesMirror(f: int -> real, g: int -> real, total: int, n: nat, k: int)
    requires forall i :: g(i) == f(total - i)
    ensures OverStates(g, n, k) == OverStates(f, n, total - n - k)
  {
    if n > 0 {
      StatesMirror(f, g, total, n - 1, k);
      StatesMirror(f, g, total, n - 1, k + 1);
    }
  }

  /** Half of the inputs are high on average. */
  lemma {:induction false} StatesLinear(g: int -> real, a: real, n: nat, k: int)
    requires forall i :: g(i) == a * i as real
    ensures OverStates(g, n, k) == HalfOf(a, Pow2(n) * (2 * k + n))
  {
    hide HalfOf;
    if n > 0 {
      StatesLinear(g, a, n - 1, k);
      StatesLinear(g, a, n - 1, k + 1);
      LinearStep(a, Pow2(n - 1), k, n);
    } else {
      LinearStart(a, k);
    }
  }

  function HalfOf(a: real, x: int): real {
    a * x as real / 2.0
  }

  lemma LinearStart(a: real, k: int)
    ensures HalfOf(a, Pow2(0) * (2 * k + 0)) == a * k as real
  {
  }

  lemma LinearStep(a: real, p: int, k: int, n: int)
    ensures HalfOf(a, 2 * p * (2 * k + n)) ==
            HalfOf(a, p * (2 * k + n - 1)) + HalfOf(a, p * (2 * (k + 1) + n - 1))
  {
    var x, y := p * (2 * k + n - 1), p * (2 * (k + 1) + n - 1);
    assert 2 * p * (2 * k + n) == x + y;
    assert a * (x as real + y as real) == a * x as real + a * y as real;
  }

  /** Only one state has all inputs high. */
  lemma {:induction false} OneState(g: int -> real, c: real, total: int, n: nat, k: int)
    requires (forall i :: g(i) == if i == total then c else 0.0) && k + n <= total
    ensures OverStates(g, n, k) == if k + n == total then c else 0.0
  {
    if n > 0 {
      OneState(g, c, total, n - 1, k);
      OneState(g, c, total, n - 1, k + 1);
    }
  }

  /** The parallel loop adds up the leakage over all states, and leak * fanin * fanin on top. */
  lemma ParallelStates(leak: real, fanin: nat)
    requires fanin >= 1
    ensures ParallelTotal(leak, fanin) ==
            OverStates(on => InParallel(leak, on), fanin, 0) + leak * (fanin * fanin) as real
  {
    StatesLinear(on => InParallel(leak, on), leak, fanin, 0);
    var p := Pow2(fanin - 1);
    assert Pow2(fanin) * fanin == 2 * (fanin * p) by { Halves(p, fanin); }
    var x, y := (fanin * p) as real, (fanin * fanin) as real;
    assert leak * (2.0 * x) / 2.0 == leak * x;
    assert leak * (x + y) == leak * x + leak * y;
  }

  lemma Halves(p: nat, n: nat)
    ensures 2 * p * n == 2 * (n * p)
  {
  }

  /** The series loop adds up the leakage over all states. */
  lemma SeriesStates(leak: real, fanin: nat)
    requires fanin >= 1
    ensures SeriesTotal(leak, fanin) == OverStates(on => InSeries(leak, fanin, on), fanin, 0)
  {
    var half := leak / 2.0;
    var all := half * fanin as real;
    var f, g, h := (on: int) => half * on as real, (on: int) => if on == fanin then all else 0.0,
                   (on: int) => InSeries(leak, fanin, on);
    StatesAdd(f, g, h, fanin, 0);
    StatesLinear(f, half, fanin, 0);
    OneState(g, all, fanin, fanin, 0);
    SeriesParts(leak, fanin, Pow2(fanin - 1));
    hide *;
  }

  lemma SeriesParts(leak: real, n: nat, p: nat)
    ensures Leaked(leak, n * (p + 1)) / 2.0 == HalfOf(leak / 2.0, 2 * p * (2 * 0 + n)) + leak / 2.0 * n as real
  {
    Halves(p, n);
    var x, y := (n * p) as real, n as real;
    assert n * (p + 1) == n * p + n;
    assert leak / 2.0 * (2.0 * x) == leak * x;
    assert leak * (x + y) == leak * x + leak * y;
  }

  /** A NAND gate: for each state the high inputs switch on transistors of the series network below, the low ones
      those of the parallel network above. The closed form averages over all states, except that it counts the
      parallel network fanin * fanin too often. */
  lemma NandStates(n: real, p: real, fanin: nat, topo: Topology)
    requires fanin >= 1
    ensures GateLeakage(Nand, n, p, fanin, topo) ==
            (OverStates(high => InSeries(n, fanin, high) + InParallel(p, fanin - high), fanin, 0)
             + p * (fanin * fanin) as real) / Pow2(fanin) as real
  {
    hide Pow2, InSeries, InParallel, ParallelTotal, SeriesTotal;
    var f, g := (high: int) => InSeries(n, fanin, high), (low: int) => InParallel(p, low);
    var g', h := (high: int) => InParallel(p, fanin - high),
                 (high: int) => InSeries(n, fanin, high) + InParallel(p, fanin - high);
    StatesAdd(f, g', h, fanin, 0);
    StatesMirror(g, g', fanin, fanin, 0);
    SeriesStates(n, fanin);
    ParallelStates(p, fanin);
  }

  /** A NOR gate is a NAND gate upside down: the parallel network is below, the series network above. */
  lemma NorStates(n: real, p: real, fanin: nat, topo: Topology)
    requires fanin >= 1
    ensures GateLeakage(Nor, n, p, fanin, topo) ==
            (OverStates(high => InParallel(n, high) + InSeries(p, fanin, fanin - high), fanin, 0)
             + n * (fanin * fanin) as real) / Pow2(fanin) as real
    ensures GateLeakage(Nor, n, p, fanin, topo) == GateLeakage(Nand, p, n, fanin, topo)
  {
    hide Pow2, InSeries, InParallel, ParallelTotal, SeriesTotal;
    var f, g := (high: int) => InParallel(n, high), (low: int) => InSeries(p, fanin, low);
    var g', h := (high: int) => InSeries(p, fanin, fanin - high),
                 (high: int) => InParallel(n, high) + InSeries(p, fanin, fanin - high);
    StatesAdd(f, g', h, fanin, 0);
    StatesMirror(g, g', fanin, fanin, 0);
    SeriesStates(p, fanin);
    ParallelStates(n, fanin);
  }

  /** An inverter averages over the two states of its input, and so does a transmission gate; a tri-state buffer
      averages the enabled state, with two inverters, and the disabled one. */
  lemma InverterStates(n: real, p: real, fanin: nat, topo: Topology)
    requires fanin >= 1
    ensures GateLeakage(Inv, n, p, fanin, topo) ==
            OverStates(high => InParallel(n, high) + InParallel(p, 1 - high), 1, 0) / 2.0
    ensures GateLeakage(Tg, n, p, fanin, topo) == GateLeakage(Inv, n, p, fanin, topo)
    ensures GateLeakage(Tri, n, p, fanin, topo) ==
            (2.0 * GateLeakage(Inv, n, p, fanin, topo) + GateLeakage(Inv, n, p, fanin, topo)) / 2.0
  {
    var h := (high: int) => InParallel(n, high) + InParallel(p, 1 - high);
    assert OverStates(h, 1, 0) == OverStates(h, 0, 0) + OverStates(h, 0, 1);
    assert InParallel(n, 0) == 0.0 && InParallel(p, 0) == 0.0 && InParallel(n, 1) == n && InParallel(p, 1) == p;
  }

  /** A single network of one transistor or in series averages over its states; a parallel one of more adds them up,
      without averaging. */
  lemma SingleNetworkStates(g: GateType, n: real, p: real, fanin: nat, topo: Topology)
    requires fanin >= 1 && (g == Nmos || g == Pmos)
    ensures var leak := if g == Nmos then n else p;
            GateLeakage(g, n, p, fanin, topo) ==
            if fanin == 1 || topo == Series then
              OverStates(on => InSeries(leak, fanin, on), fanin, 0) / Pow2(fanin) as real
            else OverStates(on => InParallel(leak, on), fanin, 0) + leak * (fanin * fanin) as real
  {
    hide ParallelTotal, SeriesTotal, InParallel;
    var leak := if g == Nmos then n else p;
    SeriesStates(leak, fanin);
    ParallelStates(leak, fanin);
    if fanin == 1 {
      var s := (on: int) => InSeries(leak, fanin, on);
      assert OverStates(s, 1, 0) == OverStates(s, 0, 0) + OverStates(s, 0, 1);
    }
  }
}
