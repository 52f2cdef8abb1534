/** The search for a tag array from end to end: explore the design space with any number of threads,
    then keep the cheapest admissible organisation. */
module TagSearch {
  import opened Enumeration
  import opened Options
  import opened OrgSelection
  import opened Sorting
  import opened Ucache

  /** In the design space the circuit model never reports a figure of zero or below. */
  ghost predicate Physical(circuit: Circuit, x: Space)
    requires x.Valid()
  {
    forall v | InSpace(x, v) && Outcome(circuit, x, v).Some? :: Positive(Outcome(circuit, x, v).value.org)
  }

  /** The minima over the whole design space. */
  ghost function SpaceMinima(circuit: Circuit, x: Space): Org
    requires x.Valid()
  {
    Minima(Orgs(Results(circuit, x, Visits(x, 0, 1))))
  }

  lemma {:induction false} ResultsMember(circuit: Circuit, x: Space, vs: seq<Visit>, m: MemArray)
    requires x.radix.Positive()
    ensures m in Results(circuit, x, vs) <==> exists v :: v in vs && Outcome(circuit, x, v) == Some(m)
  {
    if vs != [] {
      var rest, last := vs[..|vs| - 1], vs[|vs| - 1];
      ResultsMember(circuit, x, rest, m);
      assert vs == rest + [last];
      ResultsSnoc(circuit, x, rest, last);
    }
  }

  /** What the search finds is what the points of the design space yield. */
  lemma FoundInSpace(circuit: Circuit, x: Space, m: MemArray)
    requires x.Valid()
    ensures m in Results(circuit, x, Visits(x, 0, 1)) <==>
            exists v :: InSpace(x, v) && Outcome(circuit, x, v) == Some(m)
  {
    hide Visits, InSpace, Results, Outcome;
    var vs := Visits(x, 0, 1);
    ResultsMember(circuit, x, vs, m);
    forall v
      ensures v in vs <==> InSpace(x, v)
    {
      VisitedExactlyOnce(x, v);
      assert v in vs <==> v in multiset(vs);
    }
  }

  lemma {:induction false} MinimaPositive(us: seq<Org>)
    requires forall u | u in us :: Positive(u)
    ensures Positive(Minima(us))
  {
    if us != [] {
      MinimaPositive(us[..|us| - 1]);
      assert us[|us| - 1] in us;
    }
  }

  /** A point of the design space with a valid organisation that meets the deviation constraints. */
  ghost predicate Admissible(circuit: Circuit, x: Space, min: Org, dev: Deviations, v: Visit)
    requires x.Valid() && Positive(min)
  {
    InSpace(x, v) && Outcome(circuit, x, v).Some? && Check(Outcome(circuit, x, v).value.org, min, dev)
  }

  ghost function CostAt(circuit: Circuit, x: Space, min: Org, w: Weights, v: Visit): real
    requires x.Valid() && Positive(min) && Outcome(circuit, x, v).Some?
  {
    WeightedCost(Outcome(circuit, x, v).value.org, min, w)
  }

  lemma SpaceMinimaPositive(circuit: Circuit, x: Space)
    requires x.Valid() && Physical(circuit, x)
    ensures Positive(SpaceMinima(circuit, x))
    ensures forall v | InSpace(x, v) && Outcome(circuit, x, v).Some? ::
              AtMost(SpaceMinima(circuit, x), Outcome(circuit, x, v).value.org)
  {
    hide Visits, InSpace, Results, Outcome, Positive, AtMost, Minima;
    var found := Results(circuit, x, Visits(x, 0, 1));
    forall u | u in Orgs(found)
      ensures Positive(u)
    {
      var i :| 0 <= i < |found| && Orgs(found)[i] == u;
      FoundInSpace(circuit, x, found[i]);
    }
    MinimaPositive(Orgs(found));
    MinimaAreLeast(Orgs(found));
    forall v | InSpace(x, v) && Outcome(circuit, x, v).Some?
      ensures AtMost(SpaceMinima(circuit, x), Outcome(circuit, x, v).value.org)
    {
      var m := Outcome(circuit, x, v).value;
      FoundInSpace(circuit, x, m);
      var i :| 0 <= i < |found| && found[i] == m;
      assert Orgs(found)[i] == m.org;
    }
  }

  /** The cost of an admissible point lies between the sum of the weights and the sum of the weights
      stretched by the tolerated deviations. */
  lemma AdmissibleCostBounds(circuit: Circuit, x: Space, w: Weights, dev: Deviations, v: Visit)
    requires x.Valid() && Physical(circuit, x) && Positive(SpaceMinima(circuit, x))
    requires Admissible(circuit, x, SpaceMinima(circuit, x), dev, v)
    requires w.delay >= 0.0 && w.dyn >= 0.0 && w.leakage >= 0.0 && w.cyc >= 0.0 && w.area >= 0.0
    ensures w.delay + w.cyc + w.dyn + w.leakage + w.area <= CostAt(circuit, x, SpaceMinima(circuit, x), w, v)
    ensures CostAt(circuit, x, SpaceMinima(circuit, x), w, v) <=
            Stretched(w.delay, dev.delay) + Stretched(w.cyc, dev.cyc) + Stretched(w.dyn, dev.dyn)
            + Stretched(w.leakage, dev.leakage) + Stretched(w.area, dev.area)
  {
    hide SpaceMinima, InSpace, Outcome, Positive, Check, WeightedCost, AtMost, Stretched, Physical;
    SpaceMinimaPositive(circuit, x);
    CostOfAdmissible(Outcome(circuit, x, v).value.org, SpaceMinima(circuit, x), w, dev);
  }

  /** No admissible point costs less than this one. */
  ghost predicate Cheapest(circuit: Circuit, x: Space, min: Org, w: Weights, dev: Deviations, v: Visit)
    requires x.Valid() && Positive(min)
  {
    && Admissible(circuit, x, min, dev, v)
    && forall u | Admissible(circuit, x, min, dev, u) :: CostAt(circuit, x, min, w, v) <= CostAt(circuit, x, min, w, u)
  }

  /** If one figure alone has a weight, a cheapest point has the least value of that figure. */
  lemma CheapestIsLeast(circuit: Circuit, x: Space, min: Org, w: Weights, dev: Deviations, v: Visit)
    requires x.Valid() && Positive(min) && Cheapest(circuit, x, min, w, dev, v)
    ensures forall u | Admissible(circuit, x, min, dev, u) ::
              LeastWhereWeighted(w, Outcome(circuit, x, v).value.org, Outcome(circuit, x, u).value.org)
  {
    hide Outcome, InSpace, Check, Positive, WeightedCost, LeastWhereWeighted;
    forall u | Admissible(circuit, x, min, dev, u)
      ensures LeastWhereWeighted(w, Outcome(circuit, x, v).value.org, Outcome(circuit, x, u).value.org)
    {
      OneWeightDecides(Outcome(circuit, x, v).value.org, Outcome(circuit, x, u).value.org, min, w);
    }
  }

  /** Every admissible point costs BIGNUM or more. */
  ghost predicate AllTooCostly(circuit: Circuit, x: Space, min: Org, w: Weights, dev: Deviations)
    requires x.Valid() && Positive(min)
  {
    forall u | Admissible(circuit, x, min, dev, u) :: CostAt(circuit, x, min, w, u) >= BIGNUM
  }

  /** The list holds what the sequential search collects, in any order. */
  ghost predicate HoldsAll(circuit: Circuit, x: Space, arr: seq<MemArray>)
    requires x.Valid()
  {
    multiset(arr) == multiset(Results(circuit, x, Visits(x, 0, 1)))
  }

  lemma BestPoint(circuit: Circuit, x: Space, arr: seq<MemArray>, min: Org, w: Weights, dev: Deviations,
                  best: Option<nat>)
    returns (v: Visit)
    requires x.Valid() && Positive(min)
    requires HoldsAll(circuit, x, arr)
    requires IsLastLeast(Scores(Weighted, Orgs(arr), min, w, dev), 0, best)
    ensures best.None? <==> AllTooCostly(circuit, x, min, w, dev)
    ensures best.Some? ==>
              && Cheapest(circuit, x, min, w, dev, v)
              && best.value < |arr| && arr[best.value].org == Outcome(circuit, x, v).value.org
  {
    hide Visits, InSpace, Results, Outcome, Positive, Check, WeightedCost, HoldsAll;
    var us := Orgs(arr);
    TagChoice(us, min, w, dev, best);
    forall u | Admissible(circuit, x, min, dev, u)
      ensures exists i :: 0 <= i < |us| && us[i] == Outcome(circuit, x, u).value.org
    {
      var i := IndexOf(circuit, x, arr, u);
      assert us[i] == Outcome(circuit, x, u).value.org;
    }
    v := START;
    if best.Some? {
      v := PointOf(circuit, x, arr, best.value);
    }
    if exists i :: 0 <= i < |us| && Check(us[i], min, dev) && WeightedCost(us[i], min, w) < BIGNUM {
      var i :| 0 <= i < |us| && Check(us[i], min, dev) && WeightedCost(us[i], min, w) < BIGNUM;
      var u := PointOf(circuit, x, arr, i);
      assert Admissible(circuit, x, min, dev, u) && CostAt(circuit, x, min, w, u) < BIGNUM;
    }
  }

  lemma IndexOf(circuit: Circuit, x: Space, arr: seq<MemArray>, u: Visit) returns (i: nat)
    requires x.Valid() && InSpace(x, u) && Outcome(circuit, x, u).Some?
    requires HoldsAll(circuit, x, arr)
    ensures i < |arr| && arr[i] == Outcome(circuit, x, u).value
  {
    hide Visits, InSpace, Results, Outcome;
    var m := Outcome(circuit, x, u).value;
    FoundInSpace(circuit, x, m);
    assert m in multiset(arr);
    i :| 0 <= i < |arr| && arr[i] == m;
  }

  lemma PointOf(circuit: Circuit, x: Space, arr: seq<MemArray>, i: nat) returns (u: Visit)
    requires x.Valid() && i < |arr|
    requires HoldsAll(circuit, x, arr)
    ensures InSpace(x, u) && Outcome(circuit, x, u) == Some(arr[i])
  {
    hide Visits, InSpace, Results, Outcome;
    assert arr[i] in multiset(arr);
    FoundInSpace(circuit, x, arr[i]);
    u :| InSpace(x, u) && Outcome(circuit, x, u) == Some(arr[i]);
  }

  /** What the tag search with n threads keeps: the last cheapest organisation of the searched list. */
  ghost predicate KeptBy(circuit: Circuit, x: Space, n: nat, w: Weights, dev: Deviations, items: seq<Org>)
    requires x.Valid() && Positive(SpaceMinima(circuit, x))
  {
    exists arr, best ::
      SearchedBy(circuit, x, n, arr) && Chosen(Orgs(arr), SpaceMinima(circuit, x), w, dev, best, items)
  }

  ghost predicate Chosen(us: seq<Org>, min: Org, w: Weights, dev: Deviations, best: Option<nat>, items: seq<Org>)
    requires Positive(min)
  {
    IsLastLeast(Scores(Weighted, us, min, w, dev), 0, best) && items == if best.None? then [] else [us[best.value]]
  }

  /** Whatever the number of threads, the tag array kept comes from an admissible point of the design
      space, and no admissible point of the whole space costs less; none is kept exactly when every
      admissible point costs BIGNUM or more. Among equally cheap ones the last of the searched list stays. */
  method FindTag(circuit: Circuit, x: Space, nthreads: nat, w: Weights, dev: Deviations)
    returns (list: OrgList, ghost v: Visit)
    requires x.Valid() && nthreads >= 1 && Physical(circuit, x)
    ensures Positive(SpaceMinima(circuit, x))
    ensures list.items == [] <==> AllTooCostly(circuit, x, SpaceMinima(circuit, x), w, dev)
    ensures list.items != [] ==>
              && Cheapest(circuit, x, SpaceMinima(circuit, x), w, dev, v)
              && list.items == [Outcome(circuit, x, v).value.org]
    ensures list.items != [] ==> forall u | Admissible(circuit, x, SpaceMinima(circuit, x), dev, u) ::
              LeastWhereWeighted(w, list.items[0], Outcome(circuit, x, u).value.org)
    ensures KeptBy(circuit, x, nthreads, w, dev, list.items)
  {
    hide Visits, InSpace, Results, Outcome, Positive, Minima, Check, WeightedCost, Physical, Cheapest, AllTooCostly;
    hide SearchedBy, SortedBy;
    SpaceMinimaPositive(circuit, x);
    var arr, min := SearchArrays(circuit, x, nthreads);
    list := new OrgList(Orgs(arr));
    ghost var best := FilterTagArr(list, min.Value(), w, dev);
    v := BestPoint(circuit, x, arr, min.Value(), w, dev, best);
    assert Chosen(Orgs(arr), SpaceMinima(circuit, x), w, dev, best, list.items);
    if list.items != [] {
      CheapestIsLeast(circuit, x, min.Value(), w, dev, v);
    }
  }
}
