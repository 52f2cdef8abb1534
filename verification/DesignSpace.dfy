/** The design space said directly: which partitions of the array the search evaluates, without the
    index that it iterates over. */
module DesignSpace {
  import opened Arithmetic
  import opened Combinatorics
  import opened Options
  import opened TagSearch
  import opened Ucache

  /** Exactly one index below the count decodes to the powers of two of three given exponents. */
  lemma PartitionIndex(x: Radix, a: nat, b: nat, c: nat, j: nat)
    requires a < x.ndwl && b < x.ndbl && c < x.ndcm && j < x.Count()
    ensures (a * x.ndbl + b) * x.ndcm + c < x.ndwl * x.ndbl * x.ndcm
    ensures Decode(j, x) == Split(Pow2(a), Pow2(b), Pow2(c)) <==> j == (a * x.ndbl + b) * x.ndcm + c
  {
    hide Decode, Pow2;
    var e := Split(a, b, c);
    IndexDecodes(x, e);
    if Decode(j, x) == Split(Pow2(a), Pow2(b), Pow2(c)) {
      OnlyIndex(x, e, j);
    }
  }

  lemma IndexDecodes(x: Radix, e: Split)
    requires InRadix(e, x)
    ensures var i := (e.ndwl * x.ndbl + e.ndbl) * x.ndcm + e.ndcm;
            i < x.ndwl * x.ndbl * x.ndcm && Decode(i, x) == Split(Pow2(e.ndwl), Pow2(e.ndbl), Pow2(e.ndcm))
  {
    EncodeThenDecode(x, e);
    hide Exponents;
  }

  lemma OnlyIndex(x: Radix, e: Split, j: nat)
    requires InRadix(e, x) && j < x.Count() && Decode(j, x) == Split(Pow2(e.ndwl), Pow2(e.ndbl), Pow2(e.ndcm))
    ensures j == (e.ndwl * x.ndbl + e.ndbl) * x.ndcm + e.ndcm
  {
    IndexDecodes(x, e);
    hide Decode;
    DecodeInjective(x, j, Encode(e, x));
  }

  /** And every index below the count decodes to such powers. */
  lemma PartitionOf(x: Radix, i: nat) returns (a: nat, b: nat, c: nat)
    requires x.Positive() && i < x.ndwl * x.ndbl * x.ndcm
    ensures a < x.ndwl && b < x.ndbl && c < x.ndcm && i == (a * x.ndbl + b) * x.ndcm + c
    ensures Decode(i, x) == Split(Pow2(a), Pow2(b), Pow2(c))
  {
    var e := Exponents(i, x);
    a, b, c := e.ndwl, e.ndbl, e.ndcm;
    DecodeThenEncode(x, i);
  }

  lemma {:induction false} DoublesIffPower(a: int, b: int)
    requires a >= 1
    ensures Doubles(a, b) <==> exists k: nat :: b == a * Pow2(k)
    decreases b - a
  {
    if b > a {
      DoublesIffPower(2 * a, b);
      if Doubles(2 * a, b) {
        var k: nat :| b == 2 * a * Pow2(k);
        Twice(a, k);
        assert b == a * Pow2(k + 1);
      }
      if k: nat :| b == a * Pow2(k) {
        Twice(a, k - 1);
        assert b == 2 * a * Pow2(k - 1);
      }
    } else {
      assert a == a * Pow2(0);
      forall k: nat
        ensures a * Pow2(k) >= a
      {
        MulAtLeast(a, Pow2(k));
      }
    }
  }

  lemma Twice(a: int, k: int)
    requires k >= 0
    ensures a * Pow2(k + 1) == 2 * a * Pow2(k)
  {
    assert Pow2(k + 1) == 2 * Pow2(k);
  }

  /** a doubled k times. */
  function Doubled(a: real, k: nat): real {
    a * Pow2(k) as real
  }

  lemma TwiceReal(a: real, k: nat)
    ensures Doubled(a, k + 1) == Doubled(2.0 * a, k)
    ensures a > 0.0 ==> Doubled(a, k) >= a
  {
    var p := Pow2(k) as real;
    assert Pow2(k + 1) as real == 2.0 * p;
    assert a * (2.0 * p) == 2.0 * a * p;
    assert a > 0.0 ==> a * p - a == a * (p - 1.0) >= 0.0;
  }

  lemma {:induction false} DoublesRealIffPower(a: real, b: real)
    requires a > 0.0
    ensures DoublesReal(a, b) <==> exists k: nat :: b == Doubled(a, k)
    decreases (b / a).Floor
  {
    hide Doubled;
    NotDoubled(a);
    if b > a {
      Halving(b, a);
      DoublesRealIffPower(2.0 * a, b);
      if DoublesReal(2.0 * a, b) {
        var k: nat :| b == Doubled(2.0 * a, k);
        TwiceReal(a, k);
      }
      if k: nat :| b == Doubled(a, k) {
        TwiceReal(a, k - 1);
      }
    } else {
      forall k: nat
        ensures Doubled(a, k) >= a
      {
        TwiceReal(a, k);
      }
    }
  }

  lemma NotDoubled(a: real)
    ensures Doubled(a, 0) == a
  {
  }

  /** A point of the design space: how often Nspd is doubled, the exponents of the partition and of the
      multiplexing degrees, and the wire type. */
  datatype Point = Point(spd: nat, dwl: nat, dbl: nat, dcm: nat, mux1: nat, mux2: nat, wire: int)

  ghost predicate InRange(x: Space, q: Point) {
    && x.nspdMin * Pow2(q.spd) as real <= x.maxSpd
    && q.dwl < x.radix.ndwl && q.dbl < x.radix.ndbl && q.dcm < x.radix.ndcm
    && Pow2(q.mux1) <= x.maxMux && Pow2(q.mux2) <= x.maxMux && x.wtMin <= q.wire <= x.wtMax
  }

  /** The circuit model's answer with the wire type set. */
  ghost function Answer(circuit: Circuit, nspd: real, d: Split, s1: int, s2: int, wt: int): Option<MemArray> {
    match circuit(nspd, d.ndwl, d.ndbl, d.ndcm, s1, s2, wt)
    case None => None
    case Some(m) => Some(m.(wt := wt))
  }

  /** The circuit model finds m valid at that point. */
  ghost predicate Delivers(circuit: Circuit, x: Space, q: Point, m: MemArray) {
    Answer(circuit, x.nspdMin * Pow2(q.spd) as real, Split(Pow2(q.dwl), Pow2(q.dbl), Pow2(q.dcm)), Pow2(q.mux1),
           Pow2(q.mux2), q.wire) == Some(m)
  }

  /** The visit that evaluates a point. */
  ghost function VisitOf(x: Space, q: Point): Visit {
    Visit(Doubled(x.nspdMin, q.spd), q.wire, (q.dwl * x.radix.ndbl + q.dbl) * x.radix.ndcm + q.dcm, Pow2(q.mux1),
          Pow2(q.mux2))
  }

  lemma PowerDoubles(k: nat)
    ensures Doubles(1, Pow2(k))
  {
    DoublesIffPower(1, Pow2(k));
    assert Pow2(k) == 1 * Pow2(k);
  }

  lemma VisitInSpace(x: Space, q: Point)
    requires x.Valid() && InRange(x, q)
    ensures InSpace(x, VisitOf(x, q))
  {
    hide Doubles, DoublesReal, Decode, Pow2, Doubled;
    IndexDecodes(x.radix, Split(q.dwl, q.dbl, q.dcm));
    DoublesRealIffPower(x.nspdMin, Doubled(x.nspdMin, q.spd));
    SameDoubling(x.nspdMin, q.spd);
    PowerDoubles(q.mux1);
    PowerDoubles(q.mux2);
  }

  lemma SameDoubling(a: real, k: nat)
    ensures Doubled(a, k) == a * Pow2(k) as real
  {
  }

  lemma OutcomeIsAnswer(circuit: Circuit, x: Space, v: Visit)
    requires x.radix.Positive()
    ensures Outcome(circuit, x, v) == Answer(circuit, v.nspd, Decode(v.iter, x.radix), v.ndsam1, v.ndsam2, v.wr)
  {
    hide Decode;
  }

  lemma VisitDelivers(circuit: Circuit, x: Space, q: Point, m: MemArray)
    requires x.Valid() && InRange(x, q)
    ensures Delivers(circuit, x, q, m) <==> Outcome(circuit, x, VisitOf(x, q)) == Some(m)
  {
    hide Decode, Pow2, Doubled, Answer, Outcome;
    IndexDecodes(x.radix, Split(q.dwl, q.dbl, q.dcm));
    SameDoubling(x.nspdMin, q.spd);
    OutcomeIsAnswer(circuit, x, VisitOf(x, q));
  }

  lemma PointOfVisit(x: Space, v: Visit) returns (q: Point)
    requires x.Valid() && InSpace(x, v)
    ensures InRange(x, q) && VisitOf(x, q) == v
  {
    hide Doubles, DoublesReal, Pow2;
    DoublesRealIffPower(x.nspdMin, v.nspd);
    DoublesIffPower(1, v.ndsam1);
    DoublesIffPower(1, v.ndsam2);
    var k: nat :| v.nspd == Doubled(x.nspdMin, k);
    var s: nat :| v.ndsam1 == 1 * Pow2(s);
    var t: nat :| v.ndsam2 == 1 * Pow2(t);
    var a, b, c := PartitionOf(x.radix, v.iter);
    q := Point(k, a, b, c, s, t, v.wr);
  }

  /** The search finds an organisation exactly if the circuit model yields it for some partition, wire type and
      multiplexing degrees in range. */
  lemma FoundAtPoints(circuit: Circuit, x: Space, m: MemArray)
    requires x.Valid()
    ensures m in Results(circuit, x, Visits(x, 0, 1)) <==> exists q :: InRange(x, q) && Delivers(circuit, x, q, m)
  {
    hide Visits, Results, InSpace, Outcome, Delivers, InRange, VisitOf;
    FoundInSpace(circuit, x, m);
    if q :| InRange(x, q) && Delivers(circuit, x, q, m) {
      VisitInSpace(x, q);
      VisitDelivers(circuit, x, q, m);
    }
    if v :| InSpace(x, v) && Outcome(circuit, x, v) == Some(m) {
      var q := PointOfVisit(x, v);
      VisitDelivers(circuit, x, q, m);
    }
  }
}
