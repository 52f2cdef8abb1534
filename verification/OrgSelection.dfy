/** Minimum tracking and the choice of the best organisation, for uniform caches, tag arrays and
    non-uniform caches alike. */
module OrgSelection {
  import opened Arithmetic
  import opened Options

  const BIGNUM: real := 1000000000000000000000000000000.0

  /** The five figures an organisation is judged by. */
  datatype Org = Org(delay: real, dyn: real, leakage: real, area: real, cyc: real)

  // ---------------------------------------------------------------- minima

  function Less(a: real, b: real): real {
    if a > b then b else a
  }

  function Meet(a: Org, b: Org): Org {
    Org(Less(a.delay, b.delay), Less(a.dyn, b.dyn), Less(a.leakage, b.leakage), Less(a.area, b.area),
        Less(a.cyc, b.cyc))
  }

  const NO_MINIMUM := Org(BIGNUM, BIGNUM, BIGNUM, BIGNUM, BIGNUM)

  /** The componentwise minimum of a list. */
  function Minima(us: seq<Org>): Org {
    if us == [] then NO_MINIMUM else Meet(Minima(us[..|us| - 1]), us[|us| - 1])
  }

  class MinValues {
    var minDelay: real
    var minDyn: real
    var minLeakage: real
    var minArea: real
    var minCyc: real

    function Value(): Org
      reads this
    {
      Org(minDelay, minDyn, minLeakage, minArea, minCyc)
    }

    constructor ()
      ensures Value() == NO_MINIMUM
    {
      minDelay, minDyn, minLeakage, minArea, minCyc := BIGNUM, BIGNUM, BIGNUM, BIGNUM, BIGNUM;
    }

    method Update(res: Org)
      modifies this
      ensures Value() == Meet(old(Value()), res)
    {
      minDelay := if minDelay > res.delay then res.delay else minDelay;
      minDyn := if minDyn > res.dyn then res.dyn else minDyn;
      minLeakage := if minLeakage > res.leakage then res.leakage else minLeakage;
      minArea := if minArea > res.area then res.area else minArea;
      minCyc := if minCyc > res.cyc then res.cyc else minCyc;
    }
  }

  ghost predicate AtMost(a: Org, b: Org) {
    a.delay <= b.delay && a.dyn <= b.dyn && a.leakage <= b.leakage && a.area <= b.area && a.cyc <= b.cyc
  }

  /** The minima bound every member and BIGNUM from below, and each is attained by a member or is BIGNUM. */
  lemma {:induction false} MinimaAreLeast(us: seq<Org>)
    ensures AtMost(Minima(us), NO_MINIMUM) && forall u | u in us :: AtMost(Minima(us), u)
    ensures forall b: Org | AtMost(b, NO_MINIMUM) && (forall u | u in us :: AtMost(b, u)) :: AtMost(b, Minima(us))
  {
    if us != [] {
      var rest, last := us[..|us| - 1], us[|us| - 1];
      MinimaAreLeast(rest);
      assert us == rest + [last];
      forall b: Org | AtMost(b, NO_MINIMUM) && (forall u | u in us :: AtMost(b, u))
        ensures AtMost(b, Minima(us))
      {
        assert last in us && forall u | u in rest :: u in us;
      }
    }
  }

  lemma MeetAlgebra(a: Org, b: Org, c: Org)
    ensures Meet(a, Meet(b, c)) == Meet(Meet(a, b), c) == Meet(Meet(a, c), b)
  {
  }

  lemma {:induction false} MinimaConcat(us: seq<Org>, vs: seq<Org>)
    ensures Minima(us + vs) == Meet(Minima(us), Minima(vs))
  {
    if vs == [] {
      assert us + vs == us;
      MinimaAreLeast(us);
    } else {
      MinimaConcat(us, vs[..|vs| - 1]);
      assert (us + vs)[..|us + vs| - 1] == us + vs[..|vs| - 1];
    }
  }

  // ---------------------------------------------------------------- admissibility and cost

  /** Deviations tolerated, in percent. */
  datatype Deviations = Deviations(delay: real, dyn: real, leakage: real, cyc: real, area: real)

  datatype Weights = Weights(delay: real, dyn: real, leakage: real, cyc: real, area: real)

  ghost predicate Positive(m: Org) {
    m.delay > 0.0 && m.dyn > 0.0 && m.leakage > 0.0 && m.area > 0.0 && m.cyc > 0.0
  }

  /** No figure deviates from its minimum by more than tolerated. */
  predicate Check(u: Org, min: Org, dev: Deviations)
    requires Positive(min)
  {
    && !((u.delay - min.delay) * 100.0 / min.delay > dev.delay)
    && !((u.dyn - min.dyn) / min.dyn * 100.0 > dev.dyn)
    && !((u.leakage - min.leakage) / min.leakage * 100.0 > dev.leakage)
    && !((u.cyc - min.cyc) / min.cyc * 100.0 > dev.cyc)
    && !((u.area - min.area) / min.area * 100.0 > dev.area)
  }

  /** An organisation is admissible exactly when each figure is at most its minimum stretched by its deviation. */
  lemma CheckIff(u: Org, min: Org, dev: Deviations)
    requires Positive(min)
    ensures Check(u, min, dev) <==>
      && u.delay <= min.delay * (1.0 + dev.delay / 100.0) && u.dyn <= min.dyn * (1.0 + dev.dyn / 100.0)
      && u.leakage <= min.leakage * (1.0 + dev.leakage / 100.0) && u.cyc <= min.cyc * (1.0 + dev.cyc / 100.0)
      && u.area <= min.area * (1.0 + dev.area / 100.0)
  {
    SameDeviation(u.delay, min.delay);
    WithinDeviation(u.delay, min.delay, dev.delay);
    WithinDeviation(u.dyn, min.dyn, dev.dyn);
    WithinDeviation(u.leakage, min.leakage, dev.leakage);
    WithinDeviation(u.cyc, min.cyc, dev.cyc);
    WithinDeviation(u.area, min.area, dev.area);
  }

  lemma WithinDeviation(x: real, min: real, dev: real)
    requires min > 0.0
    ensures (x - min) / min * 100.0 <= dev <==> x <= min * (1.0 + dev / 100.0)
  {
    var over, t := (x - min) / min, dev / 100.0;
    assert over * min == x - min;
    assert min * (1.0 + t) - x == (t - over) * min;
    if t >= over {
      assert (t - over) * min >= 0.0;
    } else {
      assert (over - t) * min > 0.0;
    }
  }

  function Term(w: real, x: real, min: real): real
    requires min != 0.0
  {
    w * (x / min)
  }

  function WeightedCost(u: Org, min: Org, w: Weights): real
    requires Positive(min)
  {
    Term(w.delay, u.delay, min.delay) + Term(w.cyc, u.cyc, min.cyc) + Term(w.dyn, u.dyn, min.dyn)
    + Term(w.leakage, u.leakage, min.leakage) + Term(w.area, u.area, min.area)
  }

  /** A weight stretched by a deviation in percent. */
  function Stretched(w: real, dev: real): real {
    w * (1.0 + dev / 100.0)
  }

  /** Admissible organisations cost what the weights say, the others BIGNUM. */
  function Score(u: Org, min: Org, w: Weights, dev: Deviations): real
    requires Positive(min)
  {
    if Check(u, min, dev) then WeightedCost(u, min, w) else BIGNUM
  }

  function EnergyDelay(u: Org, min: Org): real
    requires Positive(min)
  {
    u.delay / min.delay * (u.dyn / min.dyn)
  }

  function EnergyDelaySquared(u: Org, min: Org): real
    requires Positive(min)
  {
    u.delay / min.delay * (u.delay / min.delay) * (u.dyn / min.dyn)
  }

  /** The minima themselves cost the sum of the weights, and raising one figure raises the cost by its weight
      times the relative increase. */
  lemma CostIsLinear(u: Org, min: Org, w: Weights, y: real)
    requires Positive(min)
    ensures WeightedCost(min, min, w) == w.delay + w.dyn + w.leakage + w.cyc + w.area
    ensures WeightedCost(u.(delay := y), min, w) - WeightedCost(u, min, w) == w.delay * ((y - u.delay) / min.delay)
    ensures WeightedCost(u.(dyn := y), min, w) - WeightedCost(u, min, w) == w.dyn * ((y - u.dyn) / min.dyn)
    ensures WeightedCost(u.(leakage := y), min, w) - WeightedCost(u, min, w) ==
            w.leakage * ((y - u.leakage) / min.leakage)
    ensures WeightedCost(u.(cyc := y), min, w) - WeightedCost(u, min, w) == w.cyc * ((y - u.cyc) / min.cyc)
    ensures WeightedCost(u.(area := y), min, w) - WeightedCost(u, min, w) == w.area * ((y - u.area) / min.area)
  {
    hide Term;
    TermRises(w.delay, u.delay, y, min.delay);
    TermRises(w.dyn, u.dyn, y, min.dyn);
    TermRises(w.leakage, u.leakage, y, min.leakage);
    TermRises(w.cyc, u.cyc, y, min.cyc);
    TermRises(w.area, u.area, y, min.area);
  }

  lemma TermRises(w: real, x: real, y: real, min: real)
    requires min > 0.0
    ensures Term(w, min, min) == w && Term(w, y, min) - Term(w, x, min) == w * ((y - x) / min)
  {
    var a, b, d := y / min, x / min, (y - x) / min;
    assert a * min == y && b * min == x && d * min == y - x;
    SameFactor(a - b, d, min);
    assert w * (a - b) == w * a - w * b;
  }

  /** With a positive weight on one figure alone, that figure decides. */
  ghost predicate LeastWhereWeighted(w: Weights, u: Org, v: Org) {
    && (w.delay > 0.0 && w.dyn == w.leakage == w.cyc == w.area == 0.0 ==> u.delay <= v.delay)
    && (w.dyn > 0.0 && w.delay == w.leakage == w.cyc == w.area == 0.0 ==> u.dyn <= v.dyn)
    && (w.leakage > 0.0 && w.delay == w.dyn == w.cyc == w.area == 0.0 ==> u.leakage <= v.leakage)
    && (w.cyc > 0.0 && w.delay == w.dyn == w.leakage == w.area == 0.0 ==> u.cyc <= v.cyc)
    && (w.area > 0.0 && w.delay == w.dyn == w.leakage == w.cyc == 0.0 ==> u.area <= v.area)
  }

  lemma OneWeightDecides(u: Org, v: Org, min: Org, w: Weights)
    requires Positive(min) && WeightedCost(u, min, w) <= WeightedCost(v, min, w)
    ensures LeastWhereWeighted(w, u, v)
  {
    hide Term;
    TermOrder(w.delay, u.delay, v.delay, min.delay);
    TermOrder(w.dyn, u.dyn, v.dyn, min.dyn);
    TermOrder(w.leakage, u.leakage, v.leakage, min.leakage);
    TermOrder(w.cyc, u.cyc, v.cyc, min.cyc);
    TermOrder(w.area, u.area, v.area, min.area);
  }

  lemma TermOrder(w: real, x: real, y: real, min: real)
    requires min > 0.0
    ensures w == 0.0 ==> Term(w, x, min) == Term(w, y, min) == 0.0
    ensures w > 0.0 && Term(w, x, min) <= Term(w, y, min) ==> x <= y
  {
    TermRises(w, x, y, min);
    var d := (y - x) / min;
    assert d * min == y - x;
    SameOrder(d, 0.0, min, y - x, 0.0);
    if w > 0.0 {
      SameOrder(d, 0.0, w, d * w, 0.0);
    }
  }

  /** With non-negative weights, an admissible organisation no better than the minima costs between
      the sum of the weights and the sum of the weights stretched by the tolerated deviations. */
  lemma CostOfAdmissible(u: Org, min: Org, w: Weights, dev: Deviations)
    requires Positive(min) && AtMost(min, u) && Check(u, min, dev)
    requires w.delay >= 0.0 && w.dyn >= 0.0 && w.leakage >= 0.0 && w.cyc >= 0.0 && w.area >= 0.0
    ensures w.delay + w.cyc + w.dyn + w.leakage + w.area <= WeightedCost(u, min, w)
    ensures WeightedCost(u, min, w) <=
            Stretched(w.delay, dev.delay) + Stretched(w.cyc, dev.cyc) + Stretched(w.dyn, dev.dyn)
            + Stretched(w.leakage, dev.leakage) + Stretched(w.area, dev.area)
  {
    hide Term, Stretched;
    SameDeviation(u.delay, min.delay);
    TermBounds(w.delay, u.delay, min.delay, dev.delay);
    TermBounds(w.cyc, u.cyc, min.cyc, dev.cyc);
    TermBounds(w.dyn, u.dyn, min.dyn, dev.dyn);
    TermBounds(w.leakage, u.leakage, min.leakage, dev.leakage);
    TermBounds(w.area, u.area, min.area, dev.area);
  }

  /** Both bounds are reached: by the minima, and by the admissible organisation that uses up every deviation. */
  lemma BoundsAreReached(min: Org, w: Weights, dev: Deviations)
    requires Positive(min)
    ensures WeightedCost(min, min, w) == w.delay + w.cyc + w.dyn + w.leakage + w.area
    ensures var u := Org(min.delay * (1.0 + dev.delay / 100.0), min.dyn * (1.0 + dev.dyn / 100.0),
                         min.leakage * (1.0 + dev.leakage / 100.0), min.area * (1.0 + dev.area / 100.0),
                         min.cyc * (1.0 + dev.cyc / 100.0));
            && Check(u, min, dev)
            && WeightedCost(u, min, w) ==
               Stretched(w.delay, dev.delay) + Stretched(w.cyc, dev.cyc) + Stretched(w.dyn, dev.dyn)
               + Stretched(w.leakage, dev.leakage) + Stretched(w.area, dev.area)
  {
    var u := Org(min.delay * (1.0 + dev.delay / 100.0), min.dyn * (1.0 + dev.dyn / 100.0),
                 min.leakage * (1.0 + dev.leakage / 100.0), min.area * (1.0 + dev.area / 100.0),
                 min.cyc * (1.0 + dev.cyc / 100.0));
    CheckIff(u, min, dev);
    hide Check, Stretched, Term;
    CostIsLinear(min, min, w, 0.0);
    TermAt(w.delay, u.delay, min.delay, dev.delay);
    TermAt(w.dyn, u.dyn, min.dyn, dev.dyn);
    TermAt(w.leakage, u.leakage, min.leakage, dev.leakage);
    TermAt(w.cyc, u.cyc, min.cyc, dev.cyc);
    TermAt(w.area, u.area, min.area, dev.area);
  }

  lemma TermAt(w: real, x: real, min: real, dev: real)
    requires min > 0.0 && x == min * (1.0 + dev / 100.0)
    ensures Term(w, x, min) == Stretched(w, dev)
  {
    SameFactor(x / min, 1.0 + dev / 100.0, min);
  }

  lemma SameDeviation(x: real, min: real)
    requires min > 0.0
    ensures (x - min) * 100.0 / min == (x - min) / min * 100.0
  {
    var a, b := (x - min) / min, (x - min) * 100.0 / min;
    assert a * min == x - min && b * min == (x - min) * 100.0;
    SameFactor(a * 100.0, b, min);
  }

  lemma TermBounds(w: real, x: real, min: real, dev: real)
    requires w >= 0.0 && min > 0.0 && x >= min && (x - min) / min * 100.0 <= dev
    ensures w <= Term(w, x, min) <= Stretched(w, dev)
  {
    var ratio := x / min;
    var over := (x - min) / min;
    assert over * min == x - min && ratio * min == x;
    SameFactor(over, ratio - 1.0, min);
    assert 1.0 <= ratio <= 1.0 + dev / 100.0;
    Scale(w, 1.0, ratio);
    Scale(w, ratio, 1.0 + dev / 100.0);
  }

  lemma Scale(w: real, x: real, y: real)
    requires w >= 0.0 && x <= y
    ensures w * x <= w * y
  {
  }

  // ---------------------------------------------------------------- candidates and their scores

  /** What the search minimises. */
  datatype Objective = Ed | Ed2 | Weighted

  /** The scores the loop compares: energy-delay, energy-delay squared, or the weighted score. */
  function ScoreOf(o: Objective, u: Org, min: Org, w: Weights, dev: Deviations): real
    requires Positive(min)
  {
    match o
    case Ed => EnergyDelay(u, min)
    case Ed2 => EnergyDelaySquared(u, min)
    case Weighted => Score(u, min, w, dev)
  }

  ghost function Scores(o: Objective, us: seq<Org>, min: Org, w: Weights, dev: Deviations): (r: seq<real>)
    requires Positive(min)
    ensures |r| == |us| && forall i | 0 <= i < |us| :: r[i] == ScoreOf(o, us[i], min, w, dev)
  {
    seq(|us|, i requires 0 <= i < |us| => ScoreOf(o, us[i], min, w, dev))
  }

  /** The two products that the scores stand for. */
  lemma ScoresOfProducts(u: Org, min: Org)
    requires Positive(min)
    ensures EnergyDelay(u, min) * (min.delay * min.dyn) == u.delay * u.dyn
    ensures EnergyDelaySquared(u, min) * (min.delay * (min.delay * min.dyn)) == u.delay * u.delay * u.dyn
  {
    var a, b := u.delay / min.delay, u.dyn / min.dyn;
    assert a * min.delay == u.delay && b * min.dyn == u.dyn;
    ProductOfRatios(a, b, min.delay, min.dyn);
  }

  lemma ProductOfRatios(a: real, b: real, m: real, n: real)
    ensures a * b * (m * n) == a * m * (b * n)
    ensures a * a * b * (m * (m * n)) == a * m * (a * m) * (b * n)
  {
    assert a * a * b * (m * (m * n)) == a * b * (m * n) * (a * m);
  }

  /** The list of candidates, from which the weighted search erases. */
  class OrgList {
    var items: seq<Org>

    constructor (us: seq<Org>)
      ensures items == us
    {
      items := us;
    }
  }

  // ---------------------------------------------------------------- the best tag array

  /** Position best has the least score below BIGNUM from position n on, the last one on ties; None if
      there is no score below BIGNUM. */
  ghost predicate IsLastLeast(scores: seq<real>, n: nat, best: Option<nat>) {
    match best
    case None => forall i | n <= i < |scores| :: scores[i] >= BIGNUM
    case Some(b) =>
      && n <= b < |scores| && scores[b] < BIGNUM
      && (forall i | n <= i < |scores| :: scores[b] <= scores[i])
      && (forall i | b < i < |scores| :: scores[b] < scores[i])
  }

  /** Pops candidates from the back, keeping the cheapest admissible one; the list ends with that one
      alone. None stands for the program ending with an error. */
  method FilterTagArr(list: OrgList, min: Org, w: Weights, dev: Deviations) returns (ghost best: Option<nat>)
    requires Positive(min)
    modifies list
    ensures var us := old(list.items);
            && IsLastLeast(Scores(Weighted, us, min, w, dev), 0, best)
            && list.items == if best.None? then [] else [us[best.value]]
  {
    ghost var us := list.items;
    ghost var scores := Scores(Weighted, us, min, w, dev);
    var cost, res := BIGNUM, None;
    best := None;
    while list.items != []
      invariant |list.items| <= |us| && list.items == us[..|list.items|]
      invariant IsLastLeast(scores, |list.items|, best)
      invariant cost == if best.None? then BIGNUM else scores[best.value]
      invariant res == if best.None? then None else Some(us[best.value])
      decreases |list.items|
    {
      var back := list.items[|list.items| - 1];
      var curCost := if Check(back, min, dev) then WeightedCost(back, min, w) else BIGNUM;
      assert curCost == scores[|list.items| - 1];
      if curCost < cost {
        cost, res, best := curCost, Some(back), Some(|list.items| - 1);
      }
      list.items := list.items[..|list.items| - 1];
    }
    if res.Some? {
      list.items := [res.value];
    }
  }

  /** The tag array kept is admissible, costs no more than any other admissible one, and is the one
      nearest the back on ties; there is none exactly when no admissible one costs less than BIGNUM. */
  lemma TagChoice(us: seq<Org>, min: Org, w: Weights, dev: Deviations, best: Option<nat>)
    requires Positive(min) && IsLastLeast(Scores(Weighted, us, min, w, dev), 0, best)
    ensures best.None? <==> forall u | u in us && Check(u, min, dev) :: WeightedCost(u, min, w) >= BIGNUM
    ensures best.Some? ==> Check(us[best.value], min, dev)
    ensures best.Some? ==> forall i | 0 <= i < |us| && Check(us[i], min, dev) ::
              && WeightedCost(us[best.value], min, w) <= WeightedCost(us[i], min, w)
              && (i > best.value ==> WeightedCost(us[best.value], min, w) < WeightedCost(us[i], min, w))
  {
    hide Check, WeightedCost;
    var scores := Scores(Weighted, us, min, w, dev);
    if best.None? {
      forall u | u in us && Check(u, min, dev)
        ensures WeightedCost(u, min, w) >= BIGNUM
      {
        var i :| 0 <= i < |us| && us[i] == u;
        assert scores[i] >= BIGNUM;
      }
    } else {
      var b := best.value;
      assert scores[b] == Score(us[b], min, w, dev) && us[b] in us;
      forall i | 0 <= i < |us| && Check(us[i], min, dev)
        ensures scores[i] == WeightedCost(us[i], min, w)
      {
      }
    }
  }

  // ---------------------------------------------------------------- the least score, first come first served

  /** Position best has the least score below BIGNUM among the first n positions other than skip, the
      first one on ties; None if there is no score below BIGNUM. */
  ghost predicate IsFirstLeast(scores: seq<real>, skip: int, n: nat, best: Option<nat>) {
    && n <= |scores|
    && match best
       case None => forall i | 0 <= i < n && i != skip :: scores[i] >= BIGNUM
       case Some(b) =>
         && b < n && b != skip && scores[b] < BIGNUM
         && (forall i | 0 <= i < n && i != skip :: scores[b] <= scores[i])
         && (forall i | 0 <= i < b && i != skip :: scores[b] < scores[i])
  }

  /** The least score does not depend on the order of the list. */
  lemma LeastIsOrderFree(scores: seq<real>, others: seq<real>, best: Option<nat>, other: Option<nat>)
    requires multiset(scores) == multiset(others)
    requires IsFirstLeast(scores, -1, |scores|, best) && IsFirstLeast(others, -1, |others|, other)
    ensures best.None? <==> other.None?
    ensures best.Some? ==> scores[best.value] == others[other.value]
  {
    LeastIsMatched(scores, others, best, other);
    LeastIsMatched(others, scores, other, best);
  }

  lemma LeastIsMatched(scores: seq<real>, others: seq<real>, best: Option<nat>, other: Option<nat>)
    requires multiset(scores) == multiset(others)
    requires IsFirstLeast(scores, -1, |scores|, best) && IsFirstLeast(others, -1, |others|, other)
    ensures best.Some? ==> other.Some? && others[other.value] <= scores[best.value]
  {
    if best.Some? {
      var x := scores[best.value];
      assert x in multiset(scores) && x in multiset(others) && x in others;
      var i :| 0 <= i < |others| && others[i] == x;
    }
  }

  /** In the weighted search a candidate is erased when it is inadmissible and, for uniform caches,
      also when it improves on the best so far. Erasing the head leaves the iterator on the new head,
      and the loop then steps over it. So position 1 is never looked at exactly when the head is
      erased and there is a position 1. */
  ghost predicate HeadErased(o: Objective, us: seq<Org>, min: Org, w: Weights, dev: Deviations, eraseBest: bool)
    requires Positive(min)
  {
    o == Weighted && |us| >= 2
    && (!Check(us[0], min, dev) || (eraseBest && WeightedCost(us[0], min, w) < BIGNUM))
  }

  /** The scores and the position skipped when FindOptimal runs on us. */
  ghost function SkippedBy(o: Objective, us: seq<Org>, min: Org, w: Weights, dev: Deviations, eraseBest: bool): int
    requires Positive(min)
  {
    if HeadErased(o, us, min, w, dev, eraseBest) then 1 else -1
  }

  /** What is chosen, said without scores: for energy-delay the least product of delay and energy, for
      energy-delay squared the least product with the square of the delay, in the weighted search the least cost among
      the admissible candidates; the first one on ties, and in the weighted search without the position skipped. */
  lemma OptimalChoice(o: Objective, us: seq<Org>, min: Org, w: Weights, dev: Deviations, skip: int, b: nat)
    requires Positive(min) && IsFirstLeast(Scores(o, us, min, w, dev), skip, |us|, Some(b))
    ensures o == Ed ==> forall i | 0 <= i < |us| && i != skip ::
              && us[b].delay * us[b].dyn <= us[i].delay * us[i].dyn
              && (i < b ==> us[b].delay * us[b].dyn < us[i].delay * us[i].dyn)
    ensures o == Ed2 ==> forall i | 0 <= i < |us| && i != skip ::
              && us[b].delay * us[b].delay * us[b].dyn <= us[i].delay * us[i].delay * us[i].dyn
              && (i < b ==> us[b].delay * us[b].delay * us[b].dyn < us[i].delay * us[i].delay * us[i].dyn)
    ensures o == Weighted ==> Check(us[b], min, dev)
    ensures o == Weighted ==> forall i | 0 <= i < |us| && i != skip && Check(us[i], min, dev) ::
              && WeightedCost(us[b], min, w) <= WeightedCost(us[i], min, w)
              && (i < b ==> WeightedCost(us[b], min, w) < WeightedCost(us[i], min, w))
  {
    hide Check, WeightedCost, Positive, EnergyDelay, EnergyDelaySquared;
    forall i | 0 <= i < |us| && i != skip
      ensures ScoreOf(o, us[b], min, w, dev) <= ScoreOf(o, us[i], min, w, dev)
      ensures i < b ==> ScoreOf(o, us[b], min, w, dev) < ScoreOf(o, us[i], min, w, dev)
      ensures o == Ed ==> us[b].delay * us[b].dyn <= us[i].delay * us[i].dyn
      ensures o == Ed && i < b ==> us[b].delay * us[b].dyn < us[i].delay * us[i].dyn
      ensures o == Ed2 ==> us[b].delay * us[b].delay * us[b].dyn <= us[i].delay * us[i].delay * us[i].dyn
      ensures o == Ed2 && i < b ==> us[b].delay * us[b].delay * us[b].dyn < us[i].delay * us[i].delay * us[i].dyn
    {
      ProductOrder(us[b], us[i], min);
      ProductOrder(us[i], us[b], min);
    }
  }

  /** The search for the least product steps over nothing. */
  lemma ChoiceIsLeast(o: Objective, us: seq<Org>, min: Org, w: Weights, dev: Deviations, eraseBest: bool, b: nat)
    requires Positive(min)
    requires IsFirstLeast(Scores(o, us, min, w, dev), SkippedBy(o, us, min, w, dev, eraseBest), |us|, Some(b))
    ensures b < |us|
    ensures o == Ed ==> forall u | u in us :: us[b].delay * us[b].dyn <= u.delay * u.dyn
    ensures o == Ed2 ==> forall u | u in us :: us[b].delay * us[b].delay * us[b].dyn <= u.delay * u.delay * u.dyn
    ensures o == Weighted ==> Check(us[b], min, dev)
  {
    hide Check, Positive, ScoreOf;
    OptimalChoice(o, us, min, w, dev, SkippedBy(o, us, min, w, dev, eraseBest), b);
    forall u | u in us && !o.Weighted?
      ensures o == Ed ==> us[b].delay * us[b].dyn <= u.delay * u.dyn
      ensures o == Ed2 ==> us[b].delay * us[b].delay * us[b].dyn <= u.delay * u.delay * u.dyn
    {
      var i :| 0 <= i < |us| && us[i] == u;
    }
  }

  /** The scores order as the products do. */
  lemma ProductOrder(u: Org, v: Org, min: Org)
    requires Positive(min)
    ensures EnergyDelay(u, min) <= EnergyDelay(v, min) <==> u.delay * u.dyn <= v.delay * v.dyn
    ensures EnergyDelaySquared(u, min) <= EnergyDelaySquared(v, min) <==>
            u.delay * u.delay * u.dyn <= v.delay * v.delay * v.dyn
  {
    hide EnergyDelay, EnergyDelaySquared;
    ScoresOfProducts(u, min);
    ScoresOfProducts(v, min);
    var f := min.delay * min.dyn;
    var g := min.delay * f;
    PositiveProduct(min.delay, min.dyn);
    PositiveProduct(min.delay, f);
    SameOrder(EnergyDelay(u, min), EnergyDelay(v, min), f, u.delay * u.dyn, v.delay * v.dyn);
    SameOrder(EnergyDelaySquared(u, min), EnergyDelaySquared(v, min), g, u.delay * u.delay * u.dyn,
              v.delay * v.delay * v.dyn);
  }

  lemma PositiveProduct(x: real, y: real)
    requires x > 0.0 && y > 0.0
    ensures x * y > 0.0
  {
  }

  lemma SameOrder(x: real, y: real, f: real, xf: real, yf: real)
    requires f > 0.0 && x * f == xf && y * f == yf
    ensures x <= y <==> xf <= yf
  {
    if x < y {
      assert (y - x) * f > 0.0;
    } else if y < x {
      assert (x - y) * f > 0.0;
    }
  }

  /** No position has a lower score, and there is a result if any score is below BIGNUM. */
  ghost predicate IsLeast(scores: seq<real>, best: Option<nat>) {
    match best
    case None => forall i | 0 <= i < |scores| :: scores[i] >= BIGNUM
    case Some(b) => b < |scores| && forall i | 0 <= i < |scores| :: scores[b] <= scores[i]
  }

  /** The search finds the least score exactly when the head stays, or position 1 is no candidate, or some
      other position is as good. */
  lemma LeastIsFoundIff(o: Objective, us: seq<Org>, min: Org, w: Weights, dev: Deviations, eraseBest: bool,
                        best: Option<nat>)
    requires Positive(min)
    requires IsFirstLeast(Scores(o, us, min, w, dev), SkippedBy(o, us, min, w, dev, eraseBest), |us|, best)
    ensures var scores := Scores(o, us, min, w, dev);
            IsLeast(scores, best) <==>
              (!HeadErased(o, us, min, w, dev, eraseBest) || scores[1] >= BIGNUM
               || exists i :: 0 <= i < |us| && i != 1 && scores[i] <= scores[1])
  {
    SkippingOne(Scores(o, us, min, w, dev), best);
  }

  /** It chooses what a search that skips nothing chooses exactly when the head stays, or position 1 is no
      candidate, or the head is as good, or a later position is better. */
  lemma SameChoiceIff(o: Objective, us: seq<Org>, min: Org, w: Weights, dev: Deviations, eraseBest: bool,
                      best: Option<nat>)
    requires Positive(min)
    requires IsFirstLeast(Scores(o, us, min, w, dev), SkippedBy(o, us, min, w, dev, eraseBest), |us|, best)
    ensures var scores := Scores(o, us, min, w, dev);
            IsFirstLeast(scores, -1, |us|, best) <==>
              (!HeadErased(o, us, min, w, dev, eraseBest) || scores[1] >= BIGNUM
               || scores[0] <= scores[1] || exists i :: 1 < i < |us| && scores[i] < scores[1])
  {
    SkippingOne(Scores(o, us, min, w, dev), best);
  }

  lemma SkippingOne(scores: seq<real>, best: Option<nat>)
    ensures IsFirstLeast(scores, -1, |scores|, best) ==> IsLeast(scores, best)
    ensures |scores| >= 2 && IsFirstLeast(scores, 1, |scores|, best) ==>
              (IsLeast(scores, best) <==>
                scores[1] >= BIGNUM || exists i :: 0 <= i < |scores| && i != 1 && scores[i] <= scores[1])
    ensures |scores| >= 2 && IsFirstLeast(scores, 1, |scores|, best) ==>
              (IsFirstLeast(scores, -1, |scores|, best) <==>
                scores[1] >= BIGNUM || scores[0] <= scores[1] || exists i :: 1 < i < |scores| && scores[i] < scores[1])
  {
  }

  /** A head that is too slow, the optimum behind it, and a third organisation that is worse: the search
      chooses the third. */
  lemma SecondIsMissed(eraseBest: bool, best: Option<nat>)
    requires IsFirstLeast(Scores(Weighted, MISSED, UNIT, ONLY_DELAY, TOLERANT),
                          SkippedBy(Weighted, MISSED, UNIT, ONLY_DELAY, TOLERANT, eraseBest), |MISSED|, best)
    ensures best == Some(2)
    ensures Check(MISSED[1], UNIT, TOLERANT) && Check(MISSED[2], UNIT, TOLERANT)
    ensures WeightedCost(MISSED[1], UNIT, ONLY_DELAY) < WeightedCost(MISSED[2], UNIT, ONLY_DELAY)
  {
    hide Check, WeightedCost, Score, Positive;
    DelayScore(3.0);
    DelayScore(1.0);
    DelayScore(1.5);
    assert MISSED[0] == UNIT.(delay := 3.0) && MISSED[1] == UNIT.(delay := 1.0) && MISSED[2] == UNIT.(delay := 1.5);
  }

  lemma DelayScore(d: real)
    ensures var u := UNIT.(delay := d);
            && Positive(UNIT) && Check(u, UNIT, TOLERANT) == (d <= 2.0) && WeightedCost(u, UNIT, ONLY_DELAY) == d
            && Score(u, UNIT, ONLY_DELAY, TOLERANT) == if d <= 2.0 then d else BIGNUM
  {
  }

  const UNIT := Org(1.0, 1.0, 1.0, 1.0, 1.0)
  const MISSED: seq<Org> := [UNIT.(delay := 3.0), UNIT, UNIT.(delay := 1.5)]
  const ONLY_DELAY := Weights(1.0, 0.0, 0.0, 0.0, 0.0)
  const TOLERANT := Deviations(100.0, 100.0, 100.0, 100.0, 100.0)

  /** The least score met before position n. */
  ghost function LeastBefore(scores: seq<real>, skip: int, n: nat): real
    requires n <= |scores|
  {
    if n == 0 then BIGNUM
    else
      var m := LeastBefore(scores, skip, n - 1);
      if n - 1 != skip && scores[n - 1] < m then scores[n - 1] else m
  }

  lemma LeastStep(scores: seq<real>, skip: int, n: nat, best: Option<nat>)
    requires n < |scores| && IsFirstLeast(scores, skip, n, best)
    ensures LeastBefore(scores, skip, n + 1) ==
            if n != skip && scores[n] < LeastBefore(scores, skip, n) then scores[n] else LeastBefore(scores, skip, n)
    ensures n == skip ==> IsFirstLeast(scores, skip, n + 1, best)
    ensures n != skip && (if best.None? then BIGNUM else scores[best.value]) > scores[n] ==>
              IsFirstLeast(scores, skip, n + 1, Some(n))
    ensures n != skip && (if best.None? then BIGNUM else scores[best.value]) <= scores[n] ==>
              IsFirstLeast(scores, skip, n + 1, best)
  {
  }

  lemma NoneYet(scores: seq<real>, skip: int)
    ensures IsFirstLeast(scores, skip, 0, None) && LeastBefore(scores, skip, 0) == BIGNUM
  {
  }

  /** The candidate at position i is erased. */
  ghost predicate Erased(o: Objective, us: seq<Org>, min: Org, w: Weights, dev: Deviations, eraseBest: bool,
                         skip: int, i: nat)
    requires Positive(min) && i < |us|
  {
    var scores := Scores(o, us, min, w, dev);
    o == Weighted && i != skip && (!Check(us[i], min, dev) || (eraseBest && scores[i] < LeastBefore(scores, skip, i)))
  }

  /** What is left of the first n candidates. */
  ghost function Survivors(o: Objective, us: seq<Org>, min: Org, w: Weights, dev: Deviations, eraseBest: bool,
                           skip: int, n: nat)
    : (r: seq<Org>)
    requires Positive(min) && n <= |us|
    ensures o != Weighted ==> r == us[..n]
  {
    if n == 0 then []
    else
      var rest := Survivors(o, us, min, w, dev, eraseBest, skip, n - 1);
      if Erased(o, us, min, w, dev, eraseBest, skip, n - 1) then rest else rest + [us[n - 1]]
  }

  /** What the loop decides at position n, and how that fits the position skipped. */
  lemma Decision(o: Objective, us: seq<Org>, min: Org, w: Weights, dev: Deviations, eraseBest: bool, skip: int, n: nat)
    requires Positive(min) && n < |us| && skip == SkippedBy(o, us, min, w, dev, eraseBest)
    requires n == 1 && |us| >= 2 ==> skip != 1
    ensures n != skip
    ensures Erased(o, us, min, w, dev, eraseBest, skip, n) <==>
              o == Weighted && (!Check(us[n], min, dev) ||
                (eraseBest && LeastBefore(Scores(o, us, min, w, dev), skip, n) > ScoreOf(o, us[n], min, w, dev)))
    ensures n == 0 && |us| >= 2 ==> (skip == 1 <==> Erased(o, us, min, w, dev, eraseBest, skip, 0))
    ensures skip == 1 ==> !Erased(o, us, min, w, dev, eraseBest, skip, 1)
  {
    hide Check, WeightedCost;
  }

  lemma NothingErased(o: Objective, us: seq<Org>, min: Org, w: Weights, dev: Deviations, eraseBest: bool, skip: int)
    requires Positive(min)
    ensures Survivors(o, us, min, w, dev, eraseBest, skip, 0) == []
  {
  }

  lemma SurvivorsStep(o: Objective, us: seq<Org>, min: Org, w: Weights, dev: Deviations, eraseBest: bool, skip: int,
                      n: nat)
    requires Positive(min) && n < |us|
    ensures Survivors(o, us, min, w, dev, eraseBest, skip, n + 1) ==
            Survivors(o, us, min, w, dev, eraseBest, skip, n) +
            if Erased(o, us, min, w, dev, eraseBest, skip, n) then [] else [us[n]]
  {
  }

  /** The list while the loop runs: what survived of the candidates seen, then those not yet seen. */
  ghost function Joined(front: seq<Org>, us: seq<Org>, n: nat): (r: seq<Org>)
    requires n <= |us|
    ensures |r| == |front| + |us| - n
  {
    front + us[n..]
  }

  lemma AtIterator(front: seq<Org>, us: seq<Org>, n: nat, items: seq<Org>)
    requires n < |us| && items == Joined(front, us, n)
    ensures items[|front|] == us[n]
    ensures items[..|front|] + items[|front| + 1..] == Joined(front, us, n + 1)
    ensures items == Joined(front + [us[n]], us, n + 1)
  {
  }

  lemma Ends(us: seq<Org>, front: seq<Org>)
    ensures us == Joined([], us, 0) && Joined(front, us, |us|) == front
  {
  }

  /** Picks the organisation of least score and erases candidates on the way. With eraseBest the loop is
      that of the uniform cache search, without it that of the non-uniform one. */
  method FindOptimal(o: Objective, list: OrgList, min: Org, w: Weights, dev: Deviations, eraseBest: bool)
    returns (res: Option<Org>, ghost best: Option<nat>)
    requires Positive(min)
    modifies list
    ensures var us := old(list.items);
            var skip := SkippedBy(o, us, min, w, dev, eraseBest);
            && IsFirstLeast(Scores(o, us, min, w, dev), skip, |us|, best)
            && list.items == Survivors(o, us, min, w, dev, eraseBest, skip, |us|)
    ensures res == if best.None? then None else Some(old(list.items)[best.value])
    ensures o == Ed && res.Some? ==>
              forall u | u in old(list.items) :: res.value.delay * res.value.dyn <= u.delay * u.dyn
    ensures o == Ed2 && res.Some? ==> forall u | u in old(list.items) ::
              res.value.delay * res.value.delay * res.value.dyn <= u.delay * u.delay * u.dyn
    ensures o == Weighted && res.Some? ==> Check(res.value, min, dev)
  {
    hide Check, ScoreOf, HeadErased, Erased, LeastBefore, IsFirstLeast, Survivors, Joined;
    ghost var us := list.items;
    ghost var scores := Scores(o, us, min, w, dev);
    ghost var skip := SkippedBy(o, us, min, w, dev, eraseBest);
    var minCost, it := BIGNUM, 0;
    res, best := None, None;
    ghost var pos: nat, front: seq<Org> := 0, [];
    Ends(us, front);
    NoneYet(scores, skip);
    NothingErased(o, us, min, w, dev, eraseBest, skip);
    while it < |list.items|
      invariant pos <= |us| && front == Survivors(o, us, min, w, dev, eraseBest, skip, pos)
      invariant list.items == Joined(front, us, pos)
      invariant it == |front| || (it > |list.items| && pos == |us|)
      invariant it == 0 <==> pos == 0
      invariant pos == 1 && |us| >= 2 ==> skip != 1
      invariant IsFirstLeast(scores, skip, pos, best) && (best.Some? ==> best.value < pos)
      invariant minCost == if best.None? then BIGNUM else scores[best.value]
      invariant minCost == LeastBefore(scores, skip, pos)
      invariant res == if best.None? then None else Some(us[best.value])
      decreases |us| - pos
    {
      AtIterator(front, us, pos, list.items);
      var u := list.items[it];
      var cost := ScoreOf(o, u, min, w, dev);
      Decision(o, us, min, w, dev, eraseBest, skip, pos);
      var erase := o == Weighted && (!Check(u, min, dev) || (eraseBest && minCost > cost));
      LeastStep(scores, skip, pos, best);
      SurvivorsStep(o, us, min, w, dev, eraseBest, skip, pos);
      if minCost > cost {
        minCost, res, best := cost, Some(u), Some(pos);
      }
      pos := pos + 1;
      if erase {
        list.items := list.items[..it] + list.items[it + 1..];
        if it != 0 {
          it := it - 1;
        } else if pos < |us| {
          LeastStep(scores, skip, pos, best);
          SurvivorsStep(o, us, min, w, dev, eraseBest, skip, pos);
          AtIterator(front, us, pos, list.items);
          front := front + [us[pos]];
          pos := pos + 1;
        }
      } else {
        front := front + [u];
      }
      it := it + 1;
    }
    Ends(us, front);
    if best.Some? {
      ChoiceIsLeast(o, us, min, w, dev, eraseBest, best.value);
    }
  }
}
