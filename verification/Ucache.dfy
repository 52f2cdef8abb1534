/** The exhaustive search over array organisations, its work dealt out to threads by striding. */
module Ucache {
  import opened Arithmetic
  import opened Combinatorics
  import opened Enumeration
  import opened Options
  import opened Sorting
  import opened OrgSelection

  // ---------------------------------------------------------------- decoding the iteration index

  /** How many values each of Ndwl, Ndbl and Ndcm takes. */
  datatype Radix = Radix(ndwl: nat, ndbl: nat, ndcm: nat)
  {
    predicate Positive() {
      ndwl > 0 && ndbl > 0 && ndcm > 0
    }

    function Count(): nat {
      ndwl * ndbl * ndcm
    }
  }

  datatype Split = Split(ndwl: nat, ndbl: nat, ndcm: nat)

  /** The three exponents packed into the index. */
  function Exponents(iter: nat, x: Radix): Split
    requires x.Positive()
  {
    Split(iter / (x.ndbl * x.ndcm), iter / x.ndcm % x.ndbl, iter % x.ndcm)
  }

  function Decode(iter: nat, x: Radix): Split
    requires x.Positive()
  {
    var e := Exponents(iter, x);
    Split(Pow2(e.ndwl), Pow2(e.ndbl), Pow2(e.ndcm))
  }

  function Encode(e: Split, x: Radix): nat {
    (e.ndwl * x.ndbl + e.ndbl) * x.ndcm + e.ndcm
  }

  ghost predicate InRadix(e: Split, x: Radix) {
    e.ndwl < x.ndwl && e.ndbl < x.ndbl && e.ndcm < x.ndcm
  }

  lemma DivMod(a: nat, b: nat, r: nat)
    requires r < b
    ensures (a * b + r) / b == a && (a * b + r) % b == r
  {
    Quotient(a * b + r, b, a, r);
  }

  lemma DivDiv(n: nat, a: nat, b: nat)
    requires a > 0 && b > 0
    ensures n / a / b == n / (b * a)
  {
    var m, s := n / a, n % a;
    var q, r := m / b, m % b;
    Recombine(n, m, s, q, r, a, b);
    MulMonotone(a, r + 1, b);
    assert b * a == a * b && a * (r + 1) == r * a + a;
    DivMod(q, b * a, r * a + s);
  }

  lemma Recombine(n: nat, m: nat, s: nat, q: nat, r: nat, a: nat, b: nat)
    requires n == m * a + s && m == q * b + r
    ensures n == q * (b * a) + (r * a + s)
  {
    assert (q * b + r) * a == q * b * a + r * a;
    assert q * b * a == q * (b * a);
  }

  /** Encoding the exponents lands below the count, and decoding returns them. */
  lemma EncodeThenDecode(x: Radix, e: Split)
    requires x.Positive() && InRadix(e, x)
    ensures Encode(e, x) < x.Count() && Exponents(Encode(e, x), x) == e
  {
    var high := e.ndwl * x.ndbl + e.ndbl;
    DivMod(high, x.ndcm, e.ndcm);
    DivMod(e.ndwl, x.ndbl, e.ndbl);
    DivDiv(Encode(e, x), x.ndcm, x.ndbl);
    Below(e.ndwl, x.ndwl, e.ndbl, x.ndbl);
    Below(high, x.ndwl * x.ndbl, e.ndcm, x.ndcm);
  }

  /** Decoding an index below the count yields admissible exponents, and encoding returns the index. */
  lemma DecodeThenEncode(x: Radix, iter: nat)
    requires x.Positive() && iter < x.Count()
    ensures InRadix(Exponents(iter, x), x) && Encode(Exponents(iter, x), x) == iter
  {
    DivDiv(iter, x.ndcm, x.ndbl);
    QuotientBelow(iter, x.ndcm, x.ndwl * x.ndbl);
    QuotientBelow(iter / x.ndcm, x.ndbl, x.ndwl);
    var high := iter / x.ndcm;
    assert iter == high * x.ndcm + iter % x.ndcm;
    assert high == high / x.ndbl * x.ndbl + high % x.ndbl;
  }

  lemma Below(a: nat, m: nat, b: nat, n: nat)
    requires a < m && b < n
    ensures a * n + b < m * n
  {
    MulMonotone(n, a + 1, m);
  }

  lemma QuotientBelow(n: nat, d: nat, m: nat)
    requires d > 0 && n < m * d
    ensures n / d < m
  {
    if n / d >= m {
      MulMonotone(d, m, n / d);
    }
  }

  lemma {:induction false} Pow2Injective(a: nat, b: nat)
    ensures Pow2(a) == Pow2(b) ==> a == b
  {
    if a > 0 && b > 0 {
      Pow2Injective(a - 1, b - 1);
    }
  }

  /** Different indices decode to different partitions of the array. */
  lemma DecodeInjective(x: Radix, i: nat, j: nat)
    requires x.Positive() && i < x.Count() && j < x.Count() && Decode(i, x) == Decode(j, x)
    ensures i == j
  {
    var e, f := Exponents(i, x), Exponents(j, x);
    Pow2Injective(e.ndwl, f.ndwl);
    Pow2Injective(e.ndbl, f.ndbl);
    Pow2Injective(e.ndcm, f.ndcm);
    DecodeThenEncode(x, i);
    DecodeThenEncode(x, j);
  }

  // ---------------------------------------------------------------- the design space

  /** Bounds of the search: word-line splits start at nspdMin and double up to maxSpd, wire types run
      from wtMin to wtMax, multiplexing degrees double up to maxMux. */
  datatype Space = Space(nspdMin: real, maxSpd: real, wtMin: int, wtMax: int, radix: Radix, maxMux: int)
  {
    predicate Valid() {
      nspdMin > 0.0 && radix.Positive()
    }
  }

  /** One pass through the innermost loop. */
  datatype Visit = Visit(nspd: real, wr: int, iter: nat, ndsam1: int, ndsam2: int)

  function OverMux2(x: Space, v: Visit): seq<Visit>
    requires v.ndsam2 >= 1
    decreases x.maxMux - v.ndsam2
  {
    if v.ndsam2 > x.maxMux then [] else [v] + OverMux2(x, v.(ndsam2 := 2 * v.ndsam2))
  }

  function OverMux1(x: Space, v: Visit): seq<Visit>
    requires v.ndsam1 >= 1
    decreases x.maxMux - v.ndsam1
  {
    if v.ndsam1 > x.maxMux then [] else OverMux2(x, v.(ndsam2 := 1)) + OverMux1(x, v.(ndsam1 := 2 * v.ndsam1))
  }

  /** The iterations from v.iter on that thread tid of n takes. */
  function OverIter(x: Space, v: Visit, tid: nat, n: nat): seq<Visit>
    requires tid < n
    decreases x.radix.Count() - v.iter
  {
    if v.iter >= x.radix.Count() then []
    else (if v.iter % n == tid then OverMux1(x, v.(ndsam1 := 1)) else []) + OverIter(x, v.(iter := v.iter + 1), tid, n)
  }

  function OverWires(x: Space, v: Visit, tid: nat, n: nat): seq<Visit>
    requires tid < n
    decreases x.wtMax - v.wr
  {
    if v.wr > x.wtMax then [] else OverIter(x, v.(iter := 0), tid, n) + OverWires(x, v.(wr := v.wr + 1), tid, n)
  }

  function OverSpd(x: Space, v: Visit, tid: nat, n: nat): seq<Visit>
    requires tid < n && v.nspd > 0.0
    decreases (x.maxSpd / v.nspd).Floor
  {
    if v.nspd > x.maxSpd then []
    else
      Halving(x.maxSpd, v.nspd);
      OverWires(x, v.(wr := x.wtMin), tid, n) + OverSpd(x, v.(nspd := 2.0 * v.nspd), tid, n)
  }

  lemma Halving(m: real, a: real)
    requires 0.0 < a <= m
    ensures 0 <= (m / (2.0 * a)).Floor < (m / a).Floor
  {
    var q, h := m / a, m / (2.0 * a);
    assert q * a == m && h * (2.0 * a) == m;
    SameFactor(q, 2.0 * h, a);
    if q < 1.0 {
      Shrinks(q, a);
    }
  }

  lemma Shrinks(q: real, a: real)
    requires q < 1.0 && a > 0.0
    ensures q * a < a
  {
    assert (1.0 - q) * a > 0.0;
  }

  const START := Visit(1.0, 0, 0, 1, 1)

  /** Everything thread tid of n visits, in order. */
  function Visits(x: Space, tid: nat, n: nat): seq<Visit>
    requires x.Valid() && tid < n
  {
    OverSpd(x, START.(nspd := x.nspdMin), tid, n)
  }

  // ---------------------------------------------------------------- what a thread collects

  /** An array organisation: six ordering keys, the remaining parameters and its figures. */
  datatype MemArray = MemArray(nspd: real, ndwl: int, ndbl: int, degBlMuxing: int, ndsam1: int, ndsam2: int,
                               ndcm: int, wt: int, org: Org)

  const BLANK := MemArray(0.0, 0, 0, 0, 0, 0, 0, 0, Org(0.0, 0.0, 0.0, 0.0, 0.0))

  /** The circuit model: from Nspd, Ndwl, Ndbl, Ndcm, the two multiplexing degrees and the wire type
      to an organisation, or None for an invalid partition. */
  type Circuit = (real, nat, nat, nat, int, int, int) -> Option<MemArray>

  function Outcome(circuit: Circuit, x: Space, v: Visit): Option<MemArray>
    requires x.radix.Positive()
  {
    var d := Decode(v.iter, x.radix);
    match circuit(v.nspd, d.ndwl, d.ndbl, d.ndcm, v.ndsam1, v.ndsam2, v.wr)
    case None => None
    case Some(m) => Some(m.(wt := v.wr))
  }

  /** The valid organisations among those visited. */
  function Results(circuit: Circuit, x: Space, vs: seq<Visit>): seq<MemArray>
    requires x.radix.Positive()
  {
    if vs == [] then []
    else
      var rest := Results(circuit, x, vs[..|vs| - 1]);
      match Outcome(circuit, x, vs[|vs| - 1])
      case None => rest
      case Some(m) => rest + [m]
  }

  function Orgs(ms: seq<MemArray>): (us: seq<Org>)
    ensures |us| == |ms| && forall i | 0 <= i < |ms| :: us[i] == ms[i].org
  {
    seq(|ms|, i requires 0 <= i < |ms| => ms[i].org)
  }

  class Worker {
    const tid: nat
    const nthreads: nat
    const circuit: Circuit
    const space: Space
    /** The organisations found, followed by the one under construction. */
    var arr: seq<MemArray>
    const res: MinValues
    ghost var visited: seq<Visit>

    ghost predicate Valid()
      reads this, res
    {
      && tid < nthreads && space.Valid()
      && arr == Results(circuit, space, visited) + [BLANK]
      && res.Value() == Minima(Orgs(Results(circuit, space, visited)))
    }

    constructor (tid: nat, nthreads: nat, circuit: Circuit, space: Space)
      requires tid < nthreads && space.Valid()
      ensures Valid() && fresh(res) && visited == []
      ensures this.tid == tid && this.nthreads == nthreads && this.circuit == circuit && this.space == space
    {
      this.tid, this.nthreads, this.circuit, this.space := tid, nthreads, circuit, space;
      arr, visited := [BLANK], [];
      res := new MinValues();
    }

    /** The body of the innermost loop. */
    method Evaluate(v: Visit)
      requires Valid()
      modifies this`arr, this`visited, res
      ensures Valid() && visited == old(visited) + [v]
    {
      hide Results, Minima, Orgs, Meet;
      ghost var before := Results(circuit, space, visited);
      ResultsSnoc(circuit, space, visited, v);
      visited := visited + [v];
      var d := Decode(v.iter, space.radix);
      var outcome := circuit(v.nspd, d.ndwl, d.ndbl, d.ndcm, v.ndsam1, v.ndsam2, v.wr);
      if outcome.Some? {
        arr := arr[|arr| - 1 := outcome.value];
        arr := arr[|arr| - 1 := arr[|arr| - 1].(wt := v.wr)];
        res.Update(arr[|arr| - 1].org);
        MinimaSnoc(before, arr[|arr| - 1]);
        arr := arr + [BLANK];
      }
    }

    /** The two loops over multiplexing degrees. */
    method TryMuxes(nspd: real, wr: int, iter: nat)
      requires Valid()
      modifies this`arr, this`visited, res
      ensures Valid() && visited == Then(old(visited), OverMux1(space, Visit(nspd, wr, iter, 1, 1)))
    {
      hide Then, OverMux1, OverMux2, Valid;
      ghost var v := Visit(nspd, wr, iter, 1, 1);
      ghost var goal := Then(visited, OverMux1(space, v));
      var s1 := 1;
      while s1 <= space.maxMux
        invariant s1 >= 1 && Valid() && Then(visited, OverMux1(space, v.(ndsam1 := s1))) == goal
      {
        ghost var before, u := visited, v.(ndsam1 := s1);
        ghost var goal2 := Then(visited, OverMux2(space, u));
        var s2 := 1;
        while s2 <= space.maxMux
          invariant s2 >= 1 && Valid() && Then(visited, OverMux2(space, u.(ndsam2 := s2))) == goal2
        {
          ghost var before2 := visited;
          Evaluate(Visit(nspd, wr, iter, s1, s2));
          StepMux2(space, u.(ndsam2 := s2), before2, visited, goal2);
          s2 := s2 * 2;
        }
        DoneMux2(space, u.(ndsam2 := s2), visited, goal2);
        StepMux1(space, u, before, visited, goal);
        s1 := s1 * 2;
      }
      DoneMux1(space, v.(ndsam1 := s1), visited, goal);
    }

    /** The strided loop over the iterations of this thread. */
    method TryIterations(nspd: real, wr: int)
      requires Valid()
      modifies this`arr, this`visited, res
      ensures Valid() && visited == Then(old(visited), OverIter(space, Visit(nspd, wr, 0, 1, 1), tid, nthreads))
    {
      hide Then, OverIter, OverMux1, Minima, Results, Orgs;
      ghost var v := Visit(nspd, wr, 0, 1, 1);
      ghost var goal := Then(visited, OverIter(space, v, tid, nthreads));
      SkipTo(space, v, tid, nthreads, tid);
      var niter := space.radix.Count();
      var iter := tid;
      while iter < niter
        invariant Valid() && iter % nthreads == tid
        invariant Then(visited, OverIter(space, v.(iter := iter), tid, nthreads)) == goal
      {
        ghost var before := visited;
        TryMuxes(nspd, wr, iter);
        StepIter(space, v.(iter := iter), tid, nthreads, before, visited, goal);
        iter := iter + nthreads;
      }
      DoneIter(space, v.(iter := iter), tid, nthreads, visited, goal);
    }

    /** The whole work of a thread; at the end the unused construction slot is dropped. */
    method Run()
      requires Valid() && visited == []
      modifies this`arr, this`visited, res
      ensures visited == Visits(space, tid, nthreads)
      ensures arr == Results(circuit, space, visited)
      ensures res.Value() == Minima(Orgs(Results(circuit, space, visited)))
    {
      hide Then, OverWires, OverIter, OverSpd, Minima, Results, Orgs;
      ghost var goal := Then(visited, Visits(space, tid, nthreads));
      ThenIsConcat(visited, Visits(space, tid, nthreads));
      var nspd := space.nspdMin;
      while nspd <= space.maxSpd
        invariant nspd > 0.0 && Valid()
        invariant Then(visited, OverSpd(space, START.(nspd := nspd), tid, nthreads)) == goal
        decreases (space.maxSpd / nspd).Floor
      {
        ghost var before, u := visited, START.(nspd := nspd);
        ghost var goal2 := Then(visited, OverWires(space, u.(wr := space.wtMin), tid, nthreads));
        var wr := space.wtMin;
        while wr <= space.wtMax
          invariant Valid() && Then(visited, OverWires(space, u.(wr := wr), tid, nthreads)) == goal2
        {
          ghost var before2 := visited;
          TryIterations(nspd, wr);
          StepWires(space, u.(wr := wr), tid, nthreads, before2, visited, goal2);
          wr := wr + 1;
        }
        DoneWires(space, u.(wr := wr), tid, nthreads, visited, goal2);
        StepSpd(space, u, tid, nthreads, before, visited, goal);
        Halving(space.maxSpd, nspd);
        nspd := nspd * 2.0;
      }
      DoneSpd(space, START.(nspd := nspd), tid, nthreads, visited, goal);
      arr := arr[..|arr| - 1];
    }
  }

  lemma ResultsSnoc(circuit: Circuit, x: Space, vs: seq<Visit>, v: Visit)
    requires x.radix.Positive()
    ensures Results(circuit, x, vs + [v]) ==
            match Outcome(circuit, x, v)
            case None => Results(circuit, x, vs)
            case Some(m) => Results(circuit, x, vs) + [m]
  {
    assert (vs + [v])[..|vs + [v]| - 1] == vs;
  }

  lemma MinimaSnoc(ms: seq<MemArray>, m: MemArray)
    ensures Minima(Orgs(ms + [m])) == Meet(Minima(Orgs(ms)), m.org)
  {
    assert Orgs(ms + [m])[..|Orgs(ms + [m])| - 1] == Orgs(ms);
  }

  lemma StepMux2(x: Space, v: Visit, before: seq<Visit>, after: seq<Visit>, goal: seq<Visit>)
    requires 1 <= v.ndsam2 <= x.maxMux && Then(before, OverMux2(x, v)) == goal && after == before + [v]
    ensures Then(after, OverMux2(x, v.(ndsam2 := v.ndsam2 * 2))) == goal
  {
    ThenIsConcat(before, [v]);
    Advance(before, after, [v], OverMux2(x, v.(ndsam2 := 2 * v.ndsam2)), goal);
  }

  lemma DoneMux2(x: Space, v: Visit, visited: seq<Visit>, goal: seq<Visit>)
    requires v.ndsam2 >= 1 && v.ndsam2 > x.maxMux && Then(visited, OverMux2(x, v)) == goal
    ensures visited == goal
  {
  }

  lemma StepMux1(x: Space, v: Visit, before: seq<Visit>, after: seq<Visit>, goal: seq<Visit>)
    requires 1 <= v.ndsam1 <= x.maxMux && v.ndsam2 == 1
    requires Then(before, OverMux1(x, v)) == goal && after == Then(before, OverMux2(x, v))
    ensures Then(after, OverMux1(x, v.(ndsam1 := v.ndsam1 * 2))) == goal
  {
    Advance(before, after, OverMux2(x, v), OverMux1(x, v.(ndsam1 := 2 * v.ndsam1)), goal);
  }

  lemma DoneMux1(x: Space, v: Visit, visited: seq<Visit>, goal: seq<Visit>)
    requires v.ndsam1 >= 1 && v.ndsam1 > x.maxMux && Then(visited, OverMux1(x, v)) == goal
    ensures visited == goal
  {
  }

  /** Iterations of other threads contribute nothing. */
  lemma {:induction false} SkipTo(x: Space, v: Visit, tid: nat, n: nat, stop: nat)
    requires tid < n && v.iter <= stop && forall i | v.iter <= i < stop :: i % n != tid
    ensures OverIter(x, v, tid, n) == OverIter(x, v.(iter := stop), tid, n)
    decreases stop - v.iter
  {
    if v.iter < stop {
      SkipTo(x, v.(iter := v.iter + 1), tid, n, stop);
      if v.iter < x.radix.Count() {
        var rest := OverIter(x, v.(iter := v.iter + 1), tid, n);
        assert [] + rest == rest;
      }
    } else {
      assert v.(iter := stop) == v;
    }
  }

  lemma NextMultiple(i: nat, n: nat, tid: nat)
    requires tid < n && i % n == tid
    ensures (i + n) % n == tid
    ensures forall k | i < k < i + n :: k % n != tid
  {
    var q := i / n;
    assert i == q * n + tid;
    DivMod(q + 1, n, tid);
    assert (q + 1) * n + tid == i + n;
    forall k | i < k < i + n
      ensures k % n != tid
    {
      if k < q * n + n {
        DivMod(q, n, k - q * n);
      } else {
        DivMod(q + 1, n, k - (q + 1) * n);
      }
    }
  }

  lemma StepIter(x: Space, v: Visit, tid: nat, n: nat, before: seq<Visit>, after: seq<Visit>, goal: seq<Visit>)
    requires tid < n && v.iter < x.radix.Count() && v.iter % n == tid && v.ndsam1 == 1
    requires Then(before, OverIter(x, v, tid, n)) == goal && after == Then(before, OverMux1(x, v))
    ensures Then(after, OverIter(x, v.(iter := v.iter + n), tid, n)) == goal
    ensures (v.iter + n) % n == tid
  {
    NextMultiple(v.iter, n, tid);
    var w := v.(iter := v.iter + 1);
    SkipTo(x, w, tid, n, v.iter + n);
    Advance(before, after, OverMux1(x, v), OverIter(x, w, tid, n), goal);
  }

  lemma DoneIter(x: Space, v: Visit, tid: nat, n: nat, visited: seq<Visit>, goal: seq<Visit>)
    requires tid < n && v.iter >= x.radix.Count() && Then(visited, OverIter(x, v, tid, n)) == goal
    ensures visited == goal
  {
  }

  lemma StepWires(x: Space, v: Visit, tid: nat, n: nat, before: seq<Visit>, after: seq<Visit>, goal: seq<Visit>)
    requires tid < n && v.wr <= x.wtMax && v.iter == 0
    requires Then(before, OverWires(x, v, tid, n)) == goal && after == Then(before, OverIter(x, v, tid, n))
    ensures Then(after, OverWires(x, v.(wr := v.wr + 1), tid, n)) == goal
  {
    Advance(before, after, OverIter(x, v, tid, n), OverWires(x, v.(wr := v.wr + 1), tid, n), goal);
  }

  lemma DoneWires(x: Space, v: Visit, tid: nat, n: nat, visited: seq<Visit>, goal: seq<Visit>)
    requires tid < n && v.wr > x.wtMax && Then(visited, OverWires(x, v, tid, n)) == goal
    ensures visited == goal
  {
  }

  lemma StepSpd(x: Space, v: Visit, tid: nat, n: nat, before: seq<Visit>, after: seq<Visit>, goal: seq<Visit>)
    requires tid < n && 0.0 < v.nspd <= x.maxSpd
    requires Then(before, OverSpd(x, v, tid, n)) == goal
    requires after == Then(before, OverWires(x, v.(wr := x.wtMin), tid, n))
    ensures Then(after, OverSpd(x, v.(nspd := v.nspd * 2.0), tid, n)) == goal
  {
    Advance(before, after, OverWires(x, v.(wr := x.wtMin), tid, n), OverSpd(x, v.(nspd := 2.0 * v.nspd), tid, n), goal);
  }

  lemma DoneSpd(x: Space, v: Visit, tid: nat, n: nat, visited: seq<Visit>, goal: seq<Visit>)
    requires tid < n && v.nspd > 0.0 && v.nspd > x.maxSpd && Then(visited, OverSpd(x, v, tid, n)) == goal
    ensures visited == goal
  {
  }

  // ---------------------------------------------------------------- every point exactly once

  /** b is a, doubled any number of times. */
  predicate Doubles(a: int, b: int): (r: bool)
    requires a >= 1
    ensures r ==> b >= a
    decreases b - a
  {
    b == a || (b > a && Doubles(2 * a, b))
  }

  predicate DoublesReal(a: real, b: real)
    requires a > 0.0
    decreases (b / a).Floor
  {
    b == a || (b > a && (Halving(b, a); DoublesReal(2.0 * a, b)))
  }

  /** The multiplexing degrees of w are powers of two up to the bound. */
  predicate InMuxes(x: Space, w: Visit) {
    1 <= w.ndsam1 <= x.maxMux && Doubles(1, w.ndsam1) && 1 <= w.ndsam2 <= x.maxMux && Doubles(1, w.ndsam2)
  }

  /** A point of the design space. */
  predicate InSpace(x: Space, w: Visit)
    requires x.Valid()
  {
    && w.nspd <= x.maxSpd && DoublesReal(x.nspdMin, w.nspd) && x.wtMin <= w.wr <= x.wtMax
    && w.iter < x.radix.Count() && InMuxes(x, w)
  }

  lemma {:induction false} CountMux2(x: Space, v: Visit, w: Visit)
    requires v.ndsam2 >= 1
    ensures multiset(OverMux2(x, v))[w] ==
            if w.(ndsam2 := v.ndsam2) == v && w.ndsam2 <= x.maxMux && Doubles(v.ndsam2, w.ndsam2) then 1 else 0
    decreases x.maxMux - v.ndsam2
  {
    if v.ndsam2 <= x.maxMux {
      CountMux2(x, v.(ndsam2 := 2 * v.ndsam2), w);
    }
  }

  lemma {:induction false} CountMux1(x: Space, v: Visit, w: Visit)
    requires v.ndsam1 >= 1
    ensures multiset(OverMux1(x, v))[w] ==
            if w.(ndsam1 := v.ndsam1, ndsam2 := v.ndsam2) == v && w.ndsam1 <= x.maxMux && Doubles(v.ndsam1, w.ndsam1)
               && w.ndsam2 <= x.maxMux && w.ndsam2 >= 1 && Doubles(1, w.ndsam2) then 1 else 0
    decreases x.maxMux - v.ndsam1
  {
    if v.ndsam1 <= x.maxMux {
      CountMux2(x, v.(ndsam2 := 1), w);
      CountMux1(x, v.(ndsam1 := 2 * v.ndsam1), w);
    }
  }

  lemma {:induction false} CountIter(x: Space, v: Visit, w: Visit)
    ensures multiset(OverIter(x, v, 0, 1))[w] ==
            if w.nspd == v.nspd && w.wr == v.wr && v.iter <= w.iter < x.radix.Count() && InMuxes(x, w) then 1 else 0
    decreases x.radix.Count() - v.iter
  {
    hide OverMux1, Doubles;
    if v.iter < x.radix.Count() {
      CountMux1(x, v.(ndsam1 := 1), w);
      CountIter(x, v.(iter := v.iter + 1), w);
    }
  }

  lemma {:induction false} CountWires(x: Space, v: Visit, w: Visit)
    ensures multiset(OverWires(x, v, 0, 1))[w] ==
            if w.nspd == v.nspd && v.wr <= w.wr <= x.wtMax && w.iter < x.radix.Count() && InMuxes(x, w) then 1 else 0
    decreases x.wtMax - v.wr
  {
    hide OverIter, InMuxes;
    if v.wr <= x.wtMax {
      CountIter(x, v.(iter := 0), w);
      CountWires(x, v.(wr := v.wr + 1), w);
    }
  }

  lemma {:induction false} CountSpd(x: Space, v: Visit, w: Visit)
    requires v.nspd > 0.0
    ensures multiset(OverSpd(x, v, 0, 1))[w] ==
            if w.nspd <= x.maxSpd && DoublesReal(v.nspd, w.nspd) && x.wtMin <= w.wr <= x.wtMax
               && w.iter < x.radix.Count() && InMuxes(x, w) then 1 else 0
    decreases (x.maxSpd / v.nspd).Floor
  {
    hide OverWires, InMuxes;
    if v.nspd <= x.maxSpd {
      Halving(x.maxSpd, v.nspd);
      CountWires(x, v.(wr := x.wtMin), w);
      CountSpd(x, v.(nspd := 2.0 * v.nspd), w);
    }
  }

  /** The search visits every point of the design space exactly once and nothing else. */
  lemma VisitedExactlyOnce(x: Space, w: Visit)
    requires x.Valid()
    ensures multiset(Visits(x, 0, 1))[w] == if InSpace(x, w) then 1 else 0
  {
    CountSpd(x, START.(nspd := x.nspdMin), w);
  }

  // ---------------------------------------------------------------- the threads' shares

  /** The thread that takes a visit. */
  function Owner(v: Visit, n: nat): (t: nat)
    requires n >= 1
    ensures t < n
  {
    v.iter % n
  }

  /** The part of a list of visits that belongs to thread tid of n. */
  function Share(vs: seq<Visit>, tid: nat, n: nat): seq<Visit>
    requires tid < n
  {
    if vs == [] then []
    else Share(vs[..|vs| - 1], tid, n) + if Owner(vs[|vs| - 1], n) == tid then [vs[|vs| - 1]] else []
  }

  lemma {:induction false} ShareConcat(vs: seq<Visit>, ws: seq<Visit>, tid: nat, n: nat)
    requires tid < n
    ensures Share(vs + ws, tid, n) == Share(vs, tid, n) + Share(ws, tid, n)
  {
    if ws == [] {
      assert vs + ws == vs;
    } else {
      ShareConcat(vs, ws[..|ws| - 1], tid, n);
      assert (vs + ws)[..|vs + ws| - 1] == vs + ws[..|ws| - 1];
    }
  }

  ghost predicate AllOfIteration(vs: seq<Visit>, iter: nat) {
    forall i | 0 <= i < |vs| :: vs[i].iter == iter
  }

  lemma {:induction false} ShareOfIteration(vs: seq<Visit>, iter: nat, tid: nat, n: nat)
    requires tid < n && AllOfIteration(vs, iter)
    ensures Share(vs, tid, n) == if iter % n == tid then vs else []
  {
    if vs != [] {
      ShareOfIteration(vs[..|vs| - 1], iter, tid, n);
      assert vs == vs[..|vs| - 1] + [vs[|vs| - 1]];
    }
  }

  lemma {:induction false} Mux2Iteration(x: Space, v: Visit)
    requires v.ndsam2 >= 1
    ensures AllOfIteration(OverMux2(x, v), v.iter)
    decreases x.maxMux - v.ndsam2
  {
    if v.ndsam2 <= x.maxMux {
      Mux2Iteration(x, v.(ndsam2 := 2 * v.ndsam2));
    }
  }

  lemma {:induction false} Mux1Iteration(x: Space, v: Visit)
    requires v.ndsam1 >= 1
    ensures AllOfIteration(OverMux1(x, v), v.iter)
    decreases x.maxMux - v.ndsam1
  {
    if v.ndsam1 <= x.maxMux {
      Mux2Iteration(x, v.(ndsam2 := 1));
      Mux1Iteration(x, v.(ndsam1 := 2 * v.ndsam1));
    }
  }

  lemma {:induction false} IterShare(x: Space, v: Visit, tid: nat, n: nat)
    requires tid < n
    ensures OverIter(x, v, tid, n) == Share(OverIter(x, v, 0, 1), tid, n)
    decreases x.radix.Count() - v.iter
  {
    if v.iter < x.radix.Count() {
      var first, rest := OverMux1(x, v.(ndsam1 := 1)), OverIter(x, v.(iter := v.iter + 1), 0, 1);
      IterShare(x, v.(iter := v.iter + 1), tid, n);
      Mux1Iteration(x, v.(ndsam1 := 1));
      ShareOfIteration(first, v.iter, tid, n);
      ShareConcat(first, rest, tid, n);
    }
  }

  lemma {:induction false} WiresShare(x: Space, v: Visit, tid: nat, n: nat)
    requires tid < n
    ensures OverWires(x, v, tid, n) == Share(OverWires(x, v, 0, 1), tid, n)
    decreases x.wtMax - v.wr
  {
    if v.wr <= x.wtMax {
      WiresShare(x, v.(wr := v.wr + 1), tid, n);
      IterShare(x, v.(iter := 0), tid, n);
      ShareConcat(OverIter(x, v.(iter := 0), 0, 1), OverWires(x, v.(wr := v.wr + 1), 0, 1), tid, n);
    }
  }

  lemma {:induction false} SpdShare(x: Space, v: Visit, tid: nat, n: nat)
    requires tid < n && v.nspd > 0.0
    ensures OverSpd(x, v, tid, n) == Share(OverSpd(x, v, 0, 1), tid, n)
    decreases (x.maxSpd / v.nspd).Floor
  {
    if v.nspd <= x.maxSpd {
      Halving(x.maxSpd, v.nspd);
      SpdShare(x, v.(nspd := 2.0 * v.nspd), tid, n);
      WiresShare(x, v.(wr := x.wtMin), tid, n);
      ShareConcat(OverWires(x, v.(wr := x.wtMin), 0, 1), OverSpd(x, v.(nspd := 2.0 * v.nspd), 0, 1), tid, n);
    }
  }

  /** A thread visits, in the same order, exactly the visits of the single-threaded search whose
      iteration index is congruent to its number. */
  lemma ThreadVisitsItsShare(x: Space, tid: nat, n: nat)
    requires x.Valid() && tid < n
    ensures Visits(x, tid, n) == Share(Visits(x, 0, 1), tid, n)
  {
    SpdShare(x, START.(nspd := x.nspdMin), tid, n);
  }

  /** What thread t of n collects of the visits vs. */
  ghost function CollectedBy(circuit: Circuit, x: Space, vs: seq<Visit>, n: nat, t: nat): multiset<MemArray>
    requires x.radix.Positive() && t < n
  {
    multiset(Results(circuit, x, Share(vs, t, n)))
  }

  /** What the threads below t collect together. */
  ghost function Collected(circuit: Circuit, x: Space, vs: seq<Visit>, n: nat, t: nat): multiset<MemArray>
    requires x.radix.Positive() && t <= n
  {
    if t == 0 then multiset{} else Collected(circuit, x, vs, n, t - 1) + CollectedBy(circuit, x, vs, n, t - 1)
  }

  /** The minima of what thread t of n collects. */
  ghost function MinimaBy(circuit: Circuit, x: Space, vs: seq<Visit>, n: nat, t: nat): Org
    requires x.radix.Positive() && t < n
  {
    Minima(Orgs(Results(circuit, x, Share(vs, t, n))))
  }

  /** The minima of the threads below t, merged. */
  ghost function MergedMinima(circuit: Circuit, x: Space, vs: seq<Visit>, n: nat, t: nat): Org
    requires x.radix.Positive() && t <= n
  {
    if t == 0 then NO_MINIMUM else Meet(MergedMinima(circuit, x, vs, n, t - 1), MinimaBy(circuit, x, vs, n, t - 1))
  }

  /** The organisation a visit contributes, if any. */
  function Found(circuit: Circuit, x: Space, v: Visit): seq<MemArray>
    requires x.radix.Positive()
  {
    match Outcome(circuit, x, v)
    case None => []
    case Some(m) => [m]
  }

  lemma ResultsFound(circuit: Circuit, x: Space, vs: seq<Visit>, v: Visit)
    requires x.radix.Positive()
    ensures Results(circuit, x, vs + [v]) == Results(circuit, x, vs) + Found(circuit, x, v)
    ensures Minima(Orgs(Results(circuit, x, vs + [v]))) ==
            Meet(Minima(Orgs(Results(circuit, x, vs))), Minima(Orgs(Found(circuit, x, v))))
  {
    var before, found := Results(circuit, x, vs), Found(circuit, x, v);
    ResultsSnoc(circuit, x, vs, v);
    assert before + [] == before;
    MinimaConcat(Orgs(before), Orgs(found));
    assert Orgs(before + found) == Orgs(before) + Orgs(found);
  }

  ghost predicate Longer(vs: seq<Visit>, v: Visit, ws: seq<Visit>) {
    ws == vs + [v]
  }

  ghost function Pooled<T>(a: multiset<T>, b: multiset<T>): multiset<T> {
    a + b
  }

  ghost function Extended<T>(a: multiset<T>, mine: bool, f: multiset<T>): (r: multiset<T>)
    ensures !mine ==> r == a
  {
    if mine then a + f else a
  }

  function Lowered(a: Org, mine: bool, b: Org): (r: Org)
    ensures !mine ==> r == a
  {
    if mine then Meet(a, b) else a
  }

  /** Adding a visit adds its outcome to the share of the one thread it belongs to. */
  lemma ShareSnoc(circuit: Circuit, x: Space, vs: seq<Visit>, v: Visit, ws: seq<Visit>, n: nat, t: nat)
    requires Longer(vs, v, ws) && x.radix.Positive() && t < n
    ensures CollectedBy(circuit, x, ws, n, t) ==
            Extended(CollectedBy(circuit, x, vs, n, t), t == Owner(v, n), multiset(Found(circuit, x, v)))
    ensures MinimaBy(circuit, x, ws, n, t) ==
            Lowered(MinimaBy(circuit, x, vs, n, t), t == Owner(v, n), Minima(Orgs(Found(circuit, x, v))))
  {
    hide Results, Found, Minima, Orgs, Meet;
    var share := Share(vs, t, n);
    assert (vs + [v])[..|vs + [v]| - 1] == vs;
    if t == Owner(v, n) {
      ResultsFound(circuit, x, share, v);
    } else {
      assert share + [] == share;
    }
  }

  lemma CollectedStep(circuit: Circuit, x: Space, vs: seq<Visit>, n: nat, t: nat)
    requires x.radix.Positive() && t <= n
    ensures t == 0 ==> Collected(circuit, x, vs, n, t) == multiset{}
    ensures t > 0 ==>
              var earlier := Collected(circuit, x, vs, n, t - 1);
              Collected(circuit, x, vs, n, t) == Pooled(earlier, CollectedBy(circuit, x, vs, n, t - 1))
  {
  }

  lemma {:induction false} CollectedSnoc(circuit: Circuit, x: Space, vs: seq<Visit>, v: Visit, ws: seq<Visit>,
                                         n: nat, t: nat)
    requires Longer(vs, v, ws) && x.radix.Positive() && t <= n && n >= 1
    ensures Collected(circuit, x, ws, n, t) ==
            Extended(Collected(circuit, x, vs, n, t), Owner(v, n) < t, multiset(Found(circuit, x, v)))
  {
    hide Longer, CollectedBy, Found, Owner, Collected, Extended, Pooled;
    CollectedStep(circuit, x, vs, n, t);
    CollectedStep(circuit, x, ws, n, t);
    if t > 0 {
      CollectedSnoc(circuit, x, vs, v, ws, n, t - 1);
      ShareSnoc(circuit, x, vs, v, ws, n, t - 1);
      Regroup(Collected(circuit, x, vs, n, t - 1), CollectedBy(circuit, x, vs, n, t - 1),
              Collected(circuit, x, ws, n, t - 1), CollectedBy(circuit, x, ws, n, t - 1),
              multiset(Found(circuit, x, v)), Owner(v, n), t);
    }
  }

  lemma Regroup<T>(a: multiset<T>, b: multiset<T>, a': multiset<T>, b': multiset<T>, f: multiset<T>, own: nat, t: nat)
    requires t > 0 && a' == Extended(a, own < t - 1, f) && b' == Extended(b, t - 1 == own, f)
    ensures Pooled(a', b') == Extended(Pooled(a, b), own < t, f)
  {
  }

  lemma {:induction false} MergedMinimaSnoc(circuit: Circuit, x: Space, vs: seq<Visit>, v: Visit, ws: seq<Visit>,
                                            n: nat, t: nat)
    requires Longer(vs, v, ws) && x.radix.Positive() && t <= n && n >= 1
    ensures MergedMinima(circuit, x, ws, n, t) ==
            Lowered(MergedMinima(circuit, x, vs, n, t), Owner(v, n) < t, Minima(Orgs(Found(circuit, x, v))))
  {
    hide Longer, MinimaBy, Found, Orgs, Minima, Meet, Owner, MergedMinima, Lowered;
    MergedStep(circuit, x, vs, n, t);
    MergedStep(circuit, x, ws, n, t);
    if t > 0 {
      MergedMinimaSnoc(circuit, x, vs, v, ws, n, t - 1);
      ShareSnoc(circuit, x, vs, v, ws, n, t - 1);
      MeetLowered(MergedMinima(circuit, x, vs, n, t - 1), MinimaBy(circuit, x, vs, n, t - 1),
                  MergedMinima(circuit, x, ws, n, t - 1), MinimaBy(circuit, x, ws, n, t - 1),
                  Minima(Orgs(Found(circuit, x, v))), Owner(v, n), t);
    }
  }

  lemma MergedStep(circuit: Circuit, x: Space, vs: seq<Visit>, n: nat, t: nat)
    requires x.radix.Positive() && t <= n
    ensures MergedMinima(circuit, x, vs, n, t) ==
            if t == 0 then NO_MINIMUM
            else Meet(MergedMinima(circuit, x, vs, n, t - 1), MinimaBy(circuit, x, vs, n, t - 1))
  {
  }

  lemma MeetLowered(a: Org, b: Org, a': Org, b': Org, f: Org, own: nat, t: nat)
    requires t > 0 && a' == Lowered(a, own < t - 1, f) && b' == Lowered(b, t - 1 == own, f)
    ensures Meet(a', b') == Lowered(Meet(a, b), own < t, f)
  {
    hide Meet;
    MeetAlgebra(a, b, f);
  }

  /** Together the threads collect exactly what the single-threaded search collects, each
      organisation as often, and their merged minima are its minima. */
  lemma {:induction false} SharesMakeTheWhole(circuit: Circuit, x: Space, vs: seq<Visit>, n: nat)
    requires x.radix.Positive() && n >= 1
    ensures Collected(circuit, x, vs, n, n) == multiset(Results(circuit, x, vs))
    ensures MergedMinima(circuit, x, vs, n, n) == Minima(Orgs(Results(circuit, x, vs)))
  {
    hide Found, Orgs, Minima, Collected, MergedMinima, Meet, Owner;
    if vs == [] {
      NothingCollected(circuit, x, n, n);
    } else {
      var rest, v := vs[..|vs| - 1], vs[|vs| - 1];
      assert vs == rest + [v];
      SharesMakeTheWhole(circuit, x, rest, n);
      CollectedSnoc(circuit, x, rest, v, vs, n, n);
      MergedMinimaSnoc(circuit, x, rest, v, vs, n, n);
      ResultsFound(circuit, x, rest, v);
    }
  }

  lemma {:induction false} NothingCollected(circuit: Circuit, x: Space, n: nat, t: nat)
    requires x.radix.Positive() && t <= n
    ensures Collected(circuit, x, [], n, t) == multiset{} && MergedMinima(circuit, x, [], n, t) == NO_MINIMUM
    ensures Minima(Orgs([])) == NO_MINIMUM
  {
    assert Orgs([]) == [];
    if t > 0 {
      NothingCollected(circuit, x, n, t - 1);
    }
  }

  // ---------------------------------------------------------------- ordering and merging

  /** The strict order on six keys by which the lists are sorted. */
  predicate Lt(a: MemArray, b: MemArray) {
    if a.nspd < b.nspd then true
    else if a.nspd > b.nspd then false
    else if a.ndwl < b.ndwl then true
    else if a.ndwl > b.ndwl then false
    else if a.ndbl < b.ndbl then true
    else if a.ndbl > b.ndbl then false
    else if a.degBlMuxing < b.degBlMuxing then true
    else if a.degBlMuxing > b.degBlMuxing then false
    else if a.ndsam1 < b.ndsam1 then true
    else if a.ndsam1 > b.ndsam1 then false
    else if a.ndsam2 < b.ndsam2 then true
    else false
  }

  function NotAfter(): (MemArray, MemArray) -> bool {
    (a: MemArray, b: MemArray) => !Lt(b, a)
  }

  /** Lt is a strict weak order: irreflexive, transitive, and so is being unordered. */
  lemma LtIsStrictWeakOrder(a: MemArray, b: MemArray, c: MemArray)
    ensures !Lt(a, a)
    ensures Lt(a, b) && Lt(b, c) ==> Lt(a, c)
    ensures !Lt(a, b) && !Lt(b, c) ==> !Lt(a, c)
    ensures !Lt(a, b) && !Lt(b, a) <==>
            (a.nspd, a.ndwl, a.ndbl, a.degBlMuxing, a.ndsam1, a.ndsam2) ==
            (b.nspd, b.ndwl, b.ndbl, b.degBlMuxing, b.ndsam1, b.ndsam2)
  {
  }

  /** Lt compares the six keys lexicographically: Nspd, Ndwl, Ndbl, bit-line multiplexing, then the two multiplexing
      degrees. */
  lemma LtIsLexicographic(a: MemArray, b: MemArray)
    ensures var s := [a.nspd, a.ndwl as real, a.ndbl as real, a.degBlMuxing as real, a.ndsam1 as real,
                      a.ndsam2 as real];
            var t := [b.nspd, b.ndwl as real, b.ndbl as real, b.degBlMuxing as real, b.ndsam1 as real,
                      b.ndsam2 as real];
            Lt(a, b) <==> exists k | 0 <= k < 6 :: s[..k] == t[..k] && s[k] < t[k]
  {
    var s := [a.nspd, a.ndwl as real, a.ndbl as real, a.degBlMuxing as real, a.ndsam1 as real,
              a.ndsam2 as real];
    var t := [b.nspd, b.ndwl as real, b.ndbl as real, b.degBlMuxing as real, b.ndsam1 as real,
              b.ndsam2 as real];
    if j :| 0 <= j < 6 && s[..j] == t[..j] && s[j] < t[j] {
      forall i | 0 <= i < j
        ensures s[i] == t[i]
      {
        assert s[..j][i] == t[..j][i];
      }
      SixKeys(s, t, j);
    }
    if Lt(a, b) {
      var k := FirstDifference(s, t);
      SixKeys(s, t, k);
      assert 0 <= k < 6 && s[..k] == t[..k] && s[k] < t[k];
    }
  }

  /** What agreeing up to k means, key by key. */
  lemma SixKeys(s: seq<real>, t: seq<real>, k: nat)
    requires |s| == 6 && |t| == 6 && k <= 6 && forall i | 0 <= i < k :: s[i] == t[i]
    ensures (k > 0 ==> s[0] == t[0]) && (k > 1 ==> s[1] == t[1]) && (k > 2 ==> s[2] == t[2])
    ensures (k > 3 ==> s[3] == t[3]) && (k > 4 ==> s[4] == t[4]) && (k > 5 ==> s[5] == t[5])
  {
  }

  lemma FirstDifference(s: seq<real>, t: seq<real>) returns (k: nat)
    requires |s| == |t|
    ensures k <= |s| && s[..k] == t[..k] && (k < |s| ==> s[k] != t[k])
    ensures forall i | 0 <= i < k :: s[i] == t[i]
  {
    k := 0;
    while k < |s| && s[k] == t[k]
      invariant k <= |s| && s[..k] == t[..k] && forall i | 0 <= i < k :: s[i] == t[i]
    {
      k := k + 1;
    }
  }

  lemma NotAfterIsPreorder()
    ensures Preorder(NotAfter())
  {
    forall a, b, c
      ensures NotAfter()(a, b) || NotAfter()(b, a)
      ensures NotAfter()(a, b) && NotAfter()(b, c) ==> NotAfter()(a, c)
    {
      LtIsStrictWeakOrder(c, b, a);
      LtIsStrictWeakOrder(a, b, a);
    }
  }

  /** The visits of the threads below t, each thread's behind those of the one before. */
  function Dealt(vs: seq<Visit>, n: nat, t: nat): seq<Visit>
    requires t <= n
  {
    if t == 0 then [] else Dealt(vs, n, t - 1) + Share(vs, t - 1, n)
  }

  lemma {:induction false} ResultsConcat(circuit: Circuit, x: Space, vs: seq<Visit>, ws: seq<Visit>)
    requires x.radix.Positive()
    ensures Results(circuit, x, vs + ws) == Results(circuit, x, vs) + Results(circuit, x, ws)
  {
    hide Outcome;
    if ws == [] {
      assert vs + ws == vs;
    } else {
      var rest, last := ws[..|ws| - 1], ws[|ws| - 1];
      ResultsConcat(circuit, x, vs, rest);
      assert (vs + ws)[..|vs + ws| - 1] == vs + rest;
    }
  }

  /** The list a search with n threads ends with: what the threads collect, one after the other, stably
      sorted. */
  ghost predicate SearchedBy(circuit: Circuit, x: Space, n: nat, arr: seq<MemArray>)
    requires x.Valid()
  {
    StableSortOf(arr, Results(circuit, x, Dealt(Visits(x, 0, 1), n, n)), NotAfter())
  }

  /** The search with any number of threads: the work is dealt out, each thread's list is sorted and
      merged in, the minima are merged. The result is a sorted list with exactly the organisations of
      the single-threaded search, tied ones in the order of the threads, and the same minima. */
  method SearchArrays(circuit: Circuit, x: Space, nthreads: nat) returns (arr: seq<MemArray>, min: MinValues)
    requires x.Valid() && nthreads >= 1
    ensures SortedBy(arr, NotAfter())
    ensures multiset(arr) == multiset(Results(circuit, x, Visits(x, 0, 1)))
    ensures SearchedBy(circuit, x, nthreads, arr)
    ensures fresh(min) && min.Value() == Minima(Orgs(Results(circuit, x, Visits(x, 0, 1))))
  {
    hide Visits, Results, Minima, Orgs, SortedBy, Meet, SameTies, Preorder, NotAfter;
    ghost var vs := Visits(x, 0, 1);
    arr := [];
    min := new MinValues();
    NothingSorted(circuit, x);
    NotAfterIsPreorder();
    for t := 0 to nthreads
      invariant multiset(arr) == Collected(circuit, x, vs, nthreads, t)
      invariant StableSortOf(arr, Results(circuit, x, Dealt(vs, nthreads, t)), NotAfter())
      invariant fresh(min) && min.Value() == MergedMinima(circuit, x, vs, nthreads, t)
    {
      var w := new Worker(t, nthreads, circuit, x);
      w.Run();
      ThreadVisitsItsShare(x, t, nthreads);
      var sorted := ListSort(w.arr, NotAfter());
      ghost var before := arr;
      arr := Merge(arr, sorted, NotAfter());
      ghost var dealt := Dealt(vs, nthreads, t);
      ResultsConcat(circuit, x, dealt, Share(vs, t, nthreads));
      MergedTies(arr, before, Results(circuit, x, dealt), sorted, w.arr, NotAfter());
      min.Update(w.res.Value());
    }
    SharesMakeTheWhole(circuit, x, vs, nthreads);
  }

  lemma NothingSorted(circuit: Circuit, x: Space)
    requires x.radix.Positive()
    ensures StableSortOf([], Results(circuit, x, []), NotAfter())
  {
  }
}
