/** In same-bandwidth mode the channels are pruned to one per capacity before they are matched by
    bandwidth. This can lose designs; here is exactly when it does. */
module SameBandwidthPruning {
  import opened Metrics
  import opened Pruning
  import opened Designs

  /** A memory of equal-bandwidth BoBs, given by the figures of its BoBs. */
  ghost predicate UniformMemory(figs: seq<Totals>, n: int, bobs: seq<Totals>) {
    forall i | 0 <= i < |bobs| :: UniformBob(figs, n, bobs[i])
  }

  /** t is matched or beaten by a BoB over the pruned list. */
  ghost predicate BobSurvives(r: Ranking, kept: seq<Totals>, n: int, t: Totals) {
    exists u :: UniformBob(kept, n, u) && Beats(r, Exact, u, t)
  }

  /** Every BoB over the full list with a capacity from lo to hi survives. */
  ghost predicate BobsSurvive(r: Ranking, kept: seq<Totals>, all: seq<Totals>, n: int, lo: int, hi: int) {
    forall t | UniformBob(all, n, t) && lo <= t.capacity <= hi :: BobSurvives(r, kept, n, t)
  }

  ghost predicate MemorySurvives(r: Ranking, kept: seq<Totals>, n: int, bobs: seq<Totals>) {
    exists better :: |better| == |bobs| && UniformMemory(kept, n, better) && Beats(r, Exact, Sum(better), Sum(bobs))
  }

  /** Every memory over the full list with a capacity of at most hi is matched or beaten by one with as many BoBs
      over the pruned list. */
  ghost predicate MemoriesSurvive(r: Ranking, kept: seq<Totals>, all: seq<Totals>, n: int, hi: int) {
    forall bobs | UniformMemory(all, n, bobs) && Sum(bobs).capacity <= hi :: MemorySurvives(r, kept, n, bobs)
  }

  lemma UniformNonNegative(figs: seq<Totals>, n: int, bobs: seq<Totals>)
    requires NonNegative(figs) && UniformMemory(figs, n, bobs)
    ensures NonNegative(bobs)
  {
    forall t | t in bobs
      ensures t.capacity >= 0
    {
      var i :| 0 <= i < |bobs| && bobs[i] == t;
      var cs :| UniformParts(figs, n, cs) && t == Sum(cs);
      SumNonNegative(cs);
    }
  }

  lemma {:induction false} BetterMemory(r: Ranking, kept: seq<Totals>, n: int, bobs: seq<Totals>)
    returns (better: seq<Totals>)
    requires forall i | 0 <= i < |bobs| :: BobSurvives(r, kept, n, bobs[i])
    ensures |better| == |bobs| && UniformMemory(kept, n, better)
    ensures forall i | 0 <= i < |bobs| :: Beats(r, Exact, better[i], bobs[i])
  {
    hide Beats, UniformBob;
    better := [];
    if bobs != [] {
      assert forall i | 0 <= i < |bobs[1..]| :: bobs[1..][i] == bobs[i + 1];
      var rest := BetterMemory(r, kept, n, bobs[1..]);
      assert BobSurvives(r, kept, n, bobs[0]);
      var u :| UniformBob(kept, n, u) && Beats(r, Exact, u, bobs[0]);
      better := [u] + rest;
    }
  }

  lemma SurvivingMemory(r: Ranking, kept: seq<Totals>, n: int, bobs: seq<Totals>)
    requires forall i | 0 <= i < |bobs| :: BobSurvives(r, kept, n, bobs[i])
    ensures MemorySurvives(r, kept, n, bobs)
  {
    hide Beats, UniformBob;
    var better := BetterMemory(r, kept, n, bobs);
    ExchangeParts(r, Exact, better, bobs);
    TimesAmount(|bobs|, Exact);
  }

  lemma MemoriesSurviveIffBobs(r: Ranking, kept: seq<Totals>, all: seq<Totals>, n: int, hi: int)
    requires NonNegative(all)
    ensures MemoriesSurvive(r, kept, all, n, hi) <==> BobsSurvive(r, kept, all, n, 0, hi)
  {
    hide Beats, UniformBob;
    if BobsSurvive(r, kept, all, n, 0, hi) {
      forall bobs | UniformMemory(all, n, bobs) && Sum(bobs).capacity <= hi
        ensures MemorySurvives(r, kept, n, bobs)
      {
        UniformNonNegative(all, n, bobs);
        forall i | 0 <= i < |bobs|
          ensures BobSurvives(r, kept, n, bobs[i])
        {
          PartAtMostSum(bobs, i);
        }
        SurvivingMemory(r, kept, n, bobs);
      }
    }
    if MemoriesSurvive(r, kept, all, n, hi) {
      forall t | UniformBob(all, n, t) && 0 <= t.capacity <= hi
        ensures BobSurvives(r, kept, n, t)
      {
        SingleSum(t);
        assert UniformMemory(all, n, [t]) && MemorySurvives(r, kept, n, [t]);
        var better :| |better| == 1 && UniformMemory(kept, n, better) && Beats(r, Exact, Sum(better), Sum([t]));
        SingleSum(better[0]);
        assert better == [better[0]] && UniformBob(kept, n, better[0]);
      }
    }
  }

  // ---------------------------------------------------------------- a check over positions of the two lists

  /** Two kept channels of one bandwidth match or beat t. */
  predicate PairSurvives(r: Ranking, kept: seq<Totals>, t: Totals) {
    exists k, l | 0 <= k <= l < |kept| ::
      kept[k].bandwidth == kept[l].bandwidth && Beats(r, Exact, kept[k].Plus(kept[l]), t)
  }

  /** Every two channels of one bandwidth with a total capacity from lo to hi are matched or beaten by two kept
      ones of one bandwidth. */
  predicate PairsSurvive(r: Ranking, kept: seq<Totals>, all: seq<Totals>, lo: int, hi: int) {
    forall i, j | 0 <= i <= j < |all| ::
      all[i].bandwidth == all[j].bandwidth && lo <= all[i].capacity + all[j].capacity <= hi ==>
        PairSurvives(r, kept, all[i].Plus(all[j]))
  }

  lemma PairIsBob(figs: seq<Totals>, i: nat, j: nat)
    requires i < |figs| && j < |figs| && figs[i].bandwidth == figs[j].bandwidth
    ensures UniformBob(figs, 2, figs[i].Plus(figs[j]))
  {
    PairSum(figs[i], figs[j]);
    assert UniformParts(figs, 2, [figs[i], figs[j]]);
  }

  lemma BobIsPair(figs: seq<Totals>, t: Totals) returns (i: nat, j: nat)
    requires UniformBob(figs, 2, t)
    ensures i <= j < |figs| && figs[i].bandwidth == figs[j].bandwidth && t == figs[i].Plus(figs[j])
  {
    var cs: seq<Totals> :| UniformParts(figs, 2, cs) && t == Sum(cs);
    assert cs == [cs[0], cs[1]] && cs[0] in cs && cs[1] in cs;
    PairSum(cs[0], cs[1]);
    i :| 0 <= i < |figs| && figs[i] == cs[0];
    j :| 0 <= j < |figs| && figs[j] == cs[1];
    if j < i {
      i, j := j, i;
      assert cs[0].Plus(cs[1]) == cs[1].Plus(cs[0]);
    }
  }

  lemma PairIffBob(r: Ranking, kept: seq<Totals>, t: Totals)
    ensures PairSurvives(r, kept, t) <==> BobSurvives(r, kept, 2, t)
  {
    hide UniformBob, Beats;
    if PairSurvives(r, kept, t) {
      var k, l :| 0 <= k <= l < |kept| && kept[k].bandwidth == kept[l].bandwidth
                  && Beats(r, Exact, kept[k].Plus(kept[l]), t);
      PairIsBob(kept, k, l);
    }
    if BobSurvives(r, kept, 2, t) {
      var u :| UniformBob(kept, 2, u) && Beats(r, Exact, u, t);
      var k, l := BobIsPair(kept, u);
    }
  }

  lemma PairsDecide(r: Ranking, kept: seq<Totals>, all: seq<Totals>, lo: int, hi: int)
    ensures BobsSurvive(r, kept, all, 2, lo, hi) <==> PairsSurvive(r, kept, all, lo, hi)
  {
    hide UniformBob, BobSurvives, PairSurvives;
    if PairsSurvive(r, kept, all, lo, hi) {
      forall t | UniformBob(all, 2, t) && lo <= t.capacity <= hi
        ensures BobSurvives(r, kept, 2, t)
      {
        var i, j := BobIsPair(all, t);
        PairIffBob(r, kept, t);
      }
    }
    if BobsSurvive(r, kept, all, 2, lo, hi) {
      forall i, j | 0 <= i <= j < |all| && all[i].bandwidth == all[j].bandwidth
                    && lo <= all[i].capacity + all[j].capacity <= hi
        ensures PairSurvives(r, kept, all[i].Plus(all[j]))
      {
        PairIsBob(all, i, j);
        PairIffBob(r, kept, all[i].Plus(all[j]));
      }
    }
  }

  lemma SingleChannel(figs: seq<Totals>, t: Totals)
    ensures UniformBob(figs, 1, t) <==> t in figs
  {
    SingleSum(t);
    if t in figs {
      assert UniformParts(figs, 1, [t]);
    }
    if UniformBob(figs, 1, t) {
      var cs :| UniformParts(figs, 1, cs) && t == Sum(cs);
      assert cs == [cs[0]] && cs[0] in cs;
      SingleSum(cs[0]);
    }
  }

  /** With one channel per BoB there is nothing to match, so covering channels suffice. */
  lemma SingleChannelsSurvive(r: Ranking, kept: seq<Totals>, all: seq<Totals>, lo: int, hi: int)
    requires Covers(r, Exact, kept, all)
    ensures BobsSurvive(r, kept, all, 1, lo, hi)
  {
    hide Beats, UniformBob;
    forall t | UniformBob(all, 1, t)
      ensures BobSurvives(r, kept, 1, t)
    {
      SingleChannel(all, t);
      assert BeatenBySome(r, Exact, kept, t);
      var u :| u in kept && Beats(r, Exact, u, t);
      SingleChannel(kept, u);
    }
  }

  lemma EmptyBobsSurvive(r: Ranking, kept: seq<Totals>, all: seq<Totals>, lo: int, hi: int)
    ensures BobsSurvive(r, kept, all, 0, lo, hi)
  {
    forall t | UniformBob(all, 0, t)
      ensures BobSurvives(r, kept, 0, t)
    {
      var cs :| UniformParts(all, 0, cs) && t == Sum(cs);
      assert UniformParts(kept, 0, cs) && UniformBob(kept, 0, t);
      LeadsSelf(r, Exact, t);
    }
  }

  /** For every list of channels, every covering part of it and every bound: no memory up to the bound is lost
      exactly when the BoBs have at most one channel, or every two channels of one bandwidth that together stay
      within the bound are matched or beaten by two kept ones of one bandwidth. */
  lemma SurvivalIsDecidedByPairs(r: Ranking, kept: seq<Totals>, all: seq<Totals>, n: nat, hi: int)
    requires NonNegative(all) && Covers(r, Exact, kept, all) && n <= 2
    ensures MemoriesSurvive(r, kept, all, n, hi) <==> (n == 2 ==> PairsSurvive(r, kept, all, 0, hi))
  {
    hide PairsSurvive, MemoriesSurvive, BobsSurvive;
    MemoriesSurviveIffBobs(r, kept, all, n, hi);
    EmptyBobsSurvive(r, kept, all, 0, hi);
    SingleChannelsSurvive(r, kept, all, 0, hi);
    PairsDecide(r, kept, all, 0, hi);
  }
}
