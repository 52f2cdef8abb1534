/** What a whole configuration is made of, independently of the search: the reference that the
    result of the search is compared with. */
module Designs {
  import opened Metrics
  import opened Enumeration
  import opened Pruning
  import opened Configurations
  import opened Offers

  // ---------------------------------------------------------------- channels, BoBs and memories on offer

  ghost predicate ChannelOffered(p: Parameters, t: Totals)
    requires Usable(p)
  {
    exists c :: OnOffer(p, c) && ChoiceFigures(p, c) == t
  }

  /** ts lists the figures of exactly the channels on offer. */
  ghost predicate AllFigures(p: Parameters, ts: seq<Totals>)
    requires Usable(p)
  {
    forall t :: t in ts <==> ChannelOffered(p, t)
  }

  ghost predicate SameBandwidth(cs: seq<Totals>) {
    forall i, j | 0 <= i < |cs| && 0 <= j < |cs| :: cs[i].bandwidth == cs[j].bandwidth
  }

  /** n channels of one bandwidth. */
  ghost predicate UniformParts(figs: seq<Totals>, n: int, cs: seq<Totals>) {
    |cs| == n && DrawnFrom(figs, cs) && SameBandwidth(cs)
  }

  /** t are the figures of a BoB of n channels of one bandwidth. */
  ghost predicate UniformBob(figs: seq<Totals>, n: int, t: Totals) {
    exists cs :: UniformParts(figs, n, cs) && t == Sum(cs)
  }

  /** t are the figures of a BoB that may be built from channels with these figures. */
  ghost predicate BobFrom(p: Parameters, figs: seq<Totals>, t: Totals) {
    p.numChannelsPerBob >= 0 &&
    if p.mirrorInBob then exists c | c in figs :: t == Copies(p.numChannelsPerBob, c)
    else UniformBob(figs, p.numChannelsPerBob, t)
  }

  /** ts lists the figures of exactly the BoBs that may be built. */
  ghost predicate AllBobs(p: Parameters, figs: seq<Totals>, ts: seq<Totals>) {
    forall t :: t in ts <==> BobFrom(p, figs, t)
  }

  /** A memory of n BoBs with these figures and of exactly the capacity asked for. */
  ghost predicate Design(n: int, capacity: int, bobs: seq<Totals>, design: seq<Totals>) {
    |design| == n && DrawnFrom(bobs, design) && Sum(design).capacity == capacity
  }

  /** t are the figures of a design over these BoBs. */
  ghost predicate DesignOf(p: Parameters, bobs: seq<Totals>, t: Totals) {
    exists design :: Design(p.numBobs, p.capacity, bobs, design) && Sum(design) == t
  }

  /** A BoB that the mode allows, of any channels on offer. */
  ghost predicate BobOffered(p: Parameters, t: Totals)
    requires Usable(p)
  {
    exists figs :: (forall f | f in figs :: ChannelOffered(p, f)) && BobFrom(p, figs, t)
  }

  /** The BoBs of a memory of exactly the capacity asked for, of any channels on offer. */
  ghost predicate OfferedDesign(p: Parameters, design: seq<Totals>)
    requires Usable(p)
  {
    |design| == p.numBobs && (forall t | t in design :: BobOffered(p, t)) && Sum(design).capacity == p.capacity
  }

  lemma BobFromMore(p: Parameters, figs: seq<Totals>, all: seq<Totals>, t: Totals)
    requires BobFrom(p, figs, t) && DrawnFrom(all, figs)
    ensures BobFrom(p, all, t)
  {
    if !p.mirrorInBob {
      var cs :| UniformParts(figs, p.numChannelsPerBob, cs) && t == Sum(cs);
      assert UniformParts(all, p.numChannelsPerBob, cs);
    }
  }

  lemma OfferedBobs(p: Parameters, all: seq<Totals>, t: Totals)
    requires Usable(p) && AllFigures(p, all)
    ensures BobOffered(p, t) <==> BobFrom(p, all, t)
  {
    hide ChannelOffered;
    if BobOffered(p, t) {
      var figs :| (forall f | f in figs :: ChannelOffered(p, f)) && BobFrom(p, figs, t);
      BobFromMore(p, figs, all, t);
    }
  }

  // ---------------------------------------------------------------- capacities are not negative

  lemma {:induction false} CopiesNonNegative(n: nat, t: Totals)
    requires t.capacity >= 0
    ensures Copies(n, t).capacity >= 0
  {
    if n > 0 {
      CopiesNonNegative(n - 1, t);
    }
  }

  lemma {:induction false} SumNonNegative(ts: seq<Totals>)
    requires NonNegative(ts)
    ensures Sum(ts).capacity >= 0
  {
    if ts != [] {
      assert ts[0] in ts && NonNegative(ts[1..]);
      SumNonNegative(ts[1..]);
    }
  }

  lemma {:induction false} PartAtMostSum(ts: seq<Totals>, i: nat)
    requires NonNegative(ts) && i < |ts|
    ensures ts[i].capacity <= Sum(ts).capacity
  {
    assert ts[0] in ts && NonNegative(ts[1..]);
    if i == 0 {
      SumNonNegative(ts[1..]);
    } else {
      PartAtMostSum(ts[1..], i - 1);
    }
  }

  lemma BobNonNegative(p: Parameters, figs: seq<Totals>, t: Totals)
    requires NonNegative(figs) && BobFrom(p, figs, t)
    ensures t.capacity >= 0
  {
    if p.mirrorInBob {
      var c :| c in figs && t == Copies(p.numChannelsPerBob, c);
      CopiesNonNegative(p.numChannelsPerBob, c);
    } else {
      var cs :| UniformParts(figs, p.numChannelsPerBob, cs) && t == Sum(cs);
      SumNonNegative(cs);
    }
  }

  lemma BobsNonNegative(p: Parameters, figs: seq<Totals>, ts: seq<Totals>)
    requires NonNegative(figs) && AllBobs(p, figs, ts)
    ensures NonNegative(ts)
  {
    hide BobFrom;
    forall t | t in ts
      ensures t.capacity >= 0
    {
      BobNonNegative(p, figs, t);
    }
  }

  lemma OfferNonNegative(p: Parameters, all: seq<Totals>)
    requires Usable(p) && AllFigures(p, all)
    ensures NonNegative(all)
  {
    forall t | t in all
      ensures t.capacity >= 0
    {
      var c :| OnOffer(p, c) && ChoiceFigures(p, c) == t;
      OfferedSize(p, c);
    }
  }

  lemma OfferedSize(p: Parameters, c: Choice)
    requires Usable(p) && OnOffer(p, c)
    ensures InTable(c) && c.bwId <= 3 && ChoiceFigures(p, c).capacity == SizeOf(c) >= 0
  {
    hide EnergyPerAccess, EnergyPerRead, EnergyPerWrite, ChannelCost, HistogramOf, DimmsOf, Admitted;
  }

  // ---------------------------------------------------------------- where the tolerance matters

  /** The memories of these BoBs, listed in any way, are fit to be sorted. */
  ghost predicate MemoriesFit(p: Parameters, s: Slack, bobs: seq<Totals>) {
    forall ts | (forall t | t in ts :: DesignOf(p, bobs, t)) :: Fit(p.ranking, s, ts)
  }

  /** The BoBs built are fit to be sorted, and so are the memories after any pruning of them. */
  ghost predicate BobsFit(p: Parameters, s: Slack, built: seq<Totals>) {
    Fit(p.ranking, s, built) && forall kept | BestPerCapacity(p.ranking, built, kept) :: MemoriesFit(p, s, kept)
  }

  /** The same of the BoBs that can be built from these channels. */
  ghost predicate BuildsFit(p: Parameters, s: Slack, pruned: seq<Totals>) {
    forall built | AllBobs(p, pruned, built) :: BobsFit(p, s, built)
  }

  /** The channels are fit to be sorted, and so are BoBs and memories after any pruning of them. */
  ghost predicate ChannelsFit(p: Parameters, s: Slack, all: seq<Totals>) {
    Fit(p.ranking, s, all) && forall pruned | BestPerCapacity(p.ranking, all, pruned) :: BuildsFit(p, s, pruned)
  }

  ghost predicate SortsFit(p: Parameters, s: Slack)
    requires Usable(p)
  {
    forall all | AllFigures(p, all) :: ChannelsFit(p, s, all)
  }

  /** All that the three sorts need: the comparator is transitive on each list. */
  ghost predicate SortsDefined(p: Parameters)
    requires Usable(p)
  {
    SortsFit(p, UpTo(EPS))
  }

  /** The tolerance acts in none of the three sorts: configurations that one sort compares by energy have
      equal energies or energies more than EPS apart. */
  ghost predicate EnergiesApart(p: Parameters)
    requires Usable(p)
  {
    SortsFit(p, Exact)
  }

  lemma ApartIsOrdered(r: Ranking, ts: seq<Totals>)
    requires Fit(r, Exact, ts)
    ensures Fit(r, UpTo(EPS), ts)
  {
    FitOrdered(r, Exact, ts);
  }

  lemma BuildsOrdered(p: Parameters, pruned: seq<Totals>)
    requires BuildsFit(p, Exact, pruned)
    ensures BuildsFit(p, UpTo(EPS), pruned)
  {
    hide Fit, AllBobs, BestPerCapacity, DesignOf;
    forall built | AllBobs(p, pruned, built)
      ensures BobsFit(p, UpTo(EPS), built)
    {
      ApartIsOrdered(p.ranking, built);
      forall kept | BestPerCapacity(p.ranking, built, kept)
        ensures MemoriesFit(p, UpTo(EPS), kept)
      {
        forall ts | (forall t | t in ts :: DesignOf(p, kept, t))
          ensures Fit(p.ranking, UpTo(EPS), ts)
        {
          assert MemoriesFit(p, Exact, kept);
          ApartIsOrdered(p.ranking, ts);
        }
      }
    }
  }

  /** Where the tolerance does not act the sorts are defined. */
  lemma ApartIsDefined(p: Parameters)
    requires Usable(p) && EnergiesApart(p)
    ensures SortsDefined(p)
  {
    hide Fit, AllFigures, BestPerCapacity, BuildsFit;
    forall all | AllFigures(p, all)
      ensures ChannelsFit(p, UpTo(EPS), all)
    {
      ApartIsOrdered(p.ranking, all);
      forall pruned | BestPerCapacity(p.ranking, all, pruned)
        ensures BuildsFit(p, UpTo(EPS), pruned)
      {
        BuildsOrdered(p, pruned);
      }
    }
  }

  /** What the search needs of its parameters: the list sizes that the constructors admit, a mode it
      supports, and in same-bandwidth mode at least one channel to start from. */
  ghost predicate Solvable(p: Parameters) {
    && Usable(p) && 1 <= p.numBobs <= MAX_NUM_BOBS && 0 <= p.numChannelsPerBob <= MAX_NUM_CHANNELS_PER_BOB
    && (p.mirrorInBob || (p.sameBwInBob && p.numChannelsPerBob >= 1 && exists c :: OnOffer(p, c)))
  }

  /** If energy is ranked, the energies on offer are multiples of a quantum above EPS. */
  ghost predicate OffersOnGrid(p: Parameters, q: real)
    requires Usable(p)
  {
    (p.ranking.UsesEnergy() ==> q > EPS) && forall c | OnOffer(p, c) :: Comparable(p.ranking, q, ChoiceFigures(p, c))
  }

  ghost predicate AllComparable(r: Ranking, q: real, ts: seq<Totals>) {
    (r.UsesEnergy() ==> q > EPS) && forall t | t in ts :: Comparable(r, q, t)
  }

  lemma GridApart(r: Ranking, q: real, ts: seq<Totals>)
    requires AllComparable(r, q, ts)
    ensures Apart(r, ts)
  {
    forall x, y | x in ts && y in ts
      ensures Discernible(r, x, y)
    {
      GridDiscernible(r, q, x, y);
    }
  }

  lemma BobsComparable(p: Parameters, q: real, figs: seq<Totals>, ts: seq<Totals>)
    requires AllComparable(p.ranking, q, figs) && AllBobs(p, figs, ts)
    ensures AllComparable(p.ranking, q, ts)
  {
    hide Comparable;
    forall t | t in ts
      ensures Comparable(p.ranking, q, t)
    {
      assert BobFrom(p, figs, t);
      if p.mirrorInBob {
        var c :| c in figs && t == Copies(p.numChannelsPerBob, c);
        ComparableCopies(p.ranking, q, p.numChannelsPerBob, c);
      } else {
        var cs :| UniformParts(figs, p.numChannelsPerBob, cs) && t == Sum(cs);
        ComparableSum(p.ranking, q, cs);
      }
    }
  }

  lemma GridMemoriesApart(p: Parameters, q: real, bobs: seq<Totals>)
    requires AllComparable(p.ranking, q, bobs)
    ensures MemoriesFit(p, Exact, bobs)
  {
    hide Comparable, Apart;
    forall ts | (forall t | t in ts :: DesignOf(p, bobs, t))
      ensures Fit(p.ranking, Exact, ts)
    {
      forall t | t in ts
        ensures Comparable(p.ranking, q, t)
      {
        var design :| Design(p.numBobs, p.capacity, bobs, design) && Sum(design) == t;
        ComparableSum(p.ranking, q, design);
      }
      GridApart(p.ranking, q, ts);
    }
  }

  lemma GridBuildsApart(p: Parameters, q: real, pruned: seq<Totals>)
    requires AllComparable(p.ranking, q, pruned)
    ensures BuildsFit(p, Exact, pruned)
  {
    hide Comparable, Apart, AllBobs, MemoriesFit;
    forall built | AllBobs(p, pruned, built)
      ensures BobsFit(p, Exact, built)
    {
      BobsComparable(p, q, pruned, built);
      GridApart(p.ranking, q, built);
      forall kept | BestPerCapacity(p.ranking, built, kept)
        ensures MemoriesFit(p, Exact, kept)
      {
        GridMemoriesApart(p, q, kept);
      }
    }
  }

  /** Energies on a grid coarser than EPS are one way to keep the tolerance from acting: sums stay on the grid. */
  lemma GridEnergiesApart(p: Parameters, q: real)
    requires Usable(p) && OffersOnGrid(p, q)
    ensures EnergiesApart(p)
  {
    hide Comparable, Apart, OnOffer, BuildsFit;
    forall all | AllFigures(p, all)
      ensures ChannelsFit(p, Exact, all)
    {
      GridApart(p.ranking, q, all);
      forall pruned | BestPerCapacity(p.ranking, all, pruned)
        ensures BuildsFit(p, Exact, pruned)
      {
        GridBuildsApart(p, q, pruned);
      }
    }
  }

  // ---------------------------------------------------------------- one channel, one BoB

  lemma SingleSum(t: Totals)
    ensures Sum([t]) == t && Copies(1, t) == t
  {
    assert [t][1..] == [];
    assert Copies(0, t) == ZERO;
  }

  lemma PairSum(a: Totals, b: Totals)
    ensures Sum([a, b]) == a.Plus(b)
  {
    assert [a, b][1..] == [b];
    SingleSum(b);
  }

  lemma SingleBob(p: Parameters, figs: seq<Totals>, t: Totals)
    requires p.numChannelsPerBob == 1 && BobFrom(p, figs, t)
    ensures t in figs
  {
    if p.mirrorInBob {
      var c :| c in figs && t == Copies(1, c);
      SingleSum(c);
    } else {
      var cs :| UniformParts(figs, 1, cs) && t == Sum(cs);
      assert cs == [cs[0]] && cs[0] in cs;
      SingleSum(cs[0]);
    }
  }

  lemma FitPart(r: Ranking, s: Slack, all: seq<Totals>, ts: seq<Totals>)
    requires Fit(r, s, all) && DrawnFrom(all, ts)
    ensures Fit(r, s, ts)
  {
    hide NotWorse, Discernible;
  }

  lemma SingleMemoriesFit(p: Parameters, s: Slack, bobs: seq<Totals>)
    requires p.numBobs == 1 && Fit(p.ranking, s, bobs)
    ensures MemoriesFit(p, s, bobs)
  {
    hide Fit;
    forall ts | (forall t | t in ts :: DesignOf(p, bobs, t))
      ensures Fit(p.ranking, s, ts)
    {
      forall t | t in ts
        ensures t in bobs
      {
        var design :| Design(1, p.capacity, bobs, design) && Sum(design) == t;
        assert design == [design[0]] && design[0] in design;
        SingleSum(design[0]);
      }
      FitPart(p.ranking, s, bobs, ts);
    }
  }

  lemma SingleBuildsFit(p: Parameters, s: Slack, all: seq<Totals>, pruned: seq<Totals>)
    requires p.numBobs == 1 && p.numChannelsPerBob == 1
    requires Fit(p.ranking, s, all) && DrawnFrom(all, pruned)
    ensures BuildsFit(p, s, pruned)
  {
    hide Fit, BobFrom, RankedCover, DistinctCapacities, MemoriesFit;
    forall built | AllBobs(p, pruned, built)
      ensures BobsFit(p, s, built)
    {
      forall t | t in built
        ensures t in all
      {
        SingleBob(p, pruned, t);
      }
      FitPart(p.ranking, s, all, built);
      forall kept | BestPerCapacity(p.ranking, built, kept)
        ensures MemoriesFit(p, s, kept)
      {
        FitPart(p.ranking, s, built, kept);
        SingleMemoriesFit(p, s, kept);
      }
    }
  }

  /** For one BoB of one channel the three sorts compare nothing but channels on offer. */
  lemma SingleSortsFit(p: Parameters, s: Slack)
    requires Usable(p) && p.numBobs == 1 && p.numChannelsPerBob == 1
    requires forall all | AllFigures(p, all) :: Fit(p.ranking, s, all)
    ensures SortsFit(p, s)
  {
    hide Fit, AllFigures, BuildsFit;
    forall all | AllFigures(p, all)
      ensures ChannelsFit(p, s, all)
    {
      forall pruned | BestPerCapacity(p.ranking, all, pruned)
        ensures BuildsFit(p, s, pruned)
      {
        SingleBuildsFit(p, s, all, pruned);
      }
    }
  }

  // ---------------------------------------------------------------- equal-bandwidth selections

  lemma UniformBobIsSum(chs: seq<ChannelConf>, s: seq<nat>)
    requires Within(s, 0, |chs|)
    ensures ChannelFigures(Pick(chs, s)) == Pick(ChannelFigures(chs), s)
  {
  }

  lemma PartsDrawn(figs: seq<Totals>, s: seq<nat>)
    requires Within(s, 0, |figs|)
    ensures DrawnFrom(figs, Pick(figs, s))
  {
    forall c | c in Pick(figs, s)
      ensures c in figs
    {
      var i :| 0 <= i < |s| && Pick(figs, s)[i] == c;
      assert figs[s[i]] == c;
    }
  }

  /** The BoBs built in mirrored mode are all that the mode allows. */
  lemma MirroredAreAllBobs(p: Parameters, figs: seq<Totals>, ts: seq<Totals>)
    requires p.mirrorInBob && p.numChannelsPerBob >= 0 && |ts| == |figs|
    requires forall i | 0 <= i < |figs| :: ts[i] == Copies(p.numChannelsPerBob, figs[i])
    ensures AllBobs(p, figs, ts)
  {
    forall t
      ensures t in ts <==> BobFrom(p, figs, t)
    {
      if t in ts {
        var i :| 0 <= i < |ts| && ts[i] == t;
        assert figs[i] in figs && t == Copies(p.numChannelsPerBob, figs[i]);
      }
      if BobFrom(p, figs, t) {
        var c :| c in figs && t == Copies(p.numChannelsPerBob, c);
        var i :| 0 <= i < |figs| && figs[i] == c;
        assert ts[i] == t;
      }
    }
  }
}
