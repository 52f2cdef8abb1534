/** Two runs with the built-in tables: the one that is shipped, and one that misses the memory asked for. */
module Runs {
  import opened Metrics
  import opened Pruning
  import opened Configurations
  import opened Offers
  import opened Designs
  import opened BuiltInTables
  import opened SameBandwidthPruning
  import opened MemCad

  // ---------------------------------------------------------------- the shipped run

  const SHIPPED_BEST := Choice(3, 4, 4, RDIMM, 1, false)

  /** 80 GB in at most three DIMMs. */
  lemma EightyGigabytes(c: Choice)
    requires InTable(c) && SizeOf(c) == 80
    ensures (c.d1, c.d2, c.d3) in {(0, 3, 5), (2, 2, 5), (3, 4, 4)}
  {
  }

  lemma ShippedPrices(k: DimmKind, i: int)
    ensures SHIPPED.tables.cost(k, i) == Price(DDR3, k, i) as real / 100.0 >= 0.0
  {
  }

  lemma ShippedSteps(b: int)
    ensures SHIPPED.tables.bandwidthLoad(b) == BandwidthLoad(DDR3, b)
  {
  }

  /** Of the channels of 80 GB those of one RDIMM of 16 GB and two of 32 GB are the cheapest, and run at 533 at most. */
  lemma ShippedChoice(c: Choice)
    requires OnOffer(SHIPPED, c) && SizeOf(c) == 80
    ensures c.bwId <= 3 && ChoiceFigures(SHIPPED, c).cost >= 731.20
    ensures ChoiceFigures(SHIPPED, c).cost == 731.20 ==>
              && c.d1 == 3 && c.d2 == 4 && c.d3 == 4 && c.kind == RDIMM
              && ChoiceFigures(SHIPPED, c).bandwidth <= 533
  {
    EightyGigabytes(c);
    ShippedPrices(c.kind, c.d1 - 1);
    ShippedPrices(c.kind, c.d2 - 1);
    ShippedPrices(c.kind, c.d3 - 1);
    ShippedSteps(c.bwId);
    ShippedSteps(4 - DimmCount(c));
    assert c.bwId <= 3;
    ChoiceCost(SHIPPED, c);
    hide BuiltIn, ChannelCost, HistogramOf;
  }

  lemma ShippedBestOffered()
    ensures OnOffer(SHIPPED, SHIPPED_BEST) && SizeOf(SHIPPED_BEST) == 80
    ensures ChoiceFigures(SHIPPED, SHIPPED_BEST).capacity == 80
    ensures ChoiceFigures(SHIPPED, SHIPPED_BEST).cost == 731.20
    ensures ChoiceFigures(SHIPPED, SHIPPED_BEST).bandwidth == 533
  {
    var c := SHIPPED_BEST;
    ShippedPrices(c.kind, 2);
    ShippedPrices(c.kind, 3);
    ShippedSteps(c.bwId);
    ShippedSteps(1);
    assert DimmCount(c) == 3 && LastBandwidth(SHIPPED, c) == 1;
    ChoiceCost(SHIPPED, c);
    hide BuiltIn, ChannelCost, HistogramOf, BwIndex;
  }

  /** The histogram of that channel. */
  lemma ShippedHistogram()
    ensures ChoiceHistogram(SHIPPED_BEST) == [0, 0, 1, 2, 0]
  {
    hide HistogramOf, SizeIndex;
    var both := [16, 32];
    assert HistogramOf([]) == [0, 0, 0, 0, 0] by { NoDimms(); }
    SizeOfStep(3);
    SizeOfStep(4);
    HistogramSnoc([], 16);
    HistogramSnoc([16], 32);
    HistogramSnoc(both, 32);
    assert [] + [16] == [16] && [16] + [32] == both && both + [32] == DimmsOf(SHIPPED_BEST);
  }

  lemma NoDimms()
    ensures HistogramOf([]) == [0, 0, 0, 0, 0]
  {
  }

  /** One RDIMM of 16 GB and two of 32 GB at 533. */
  ghost predicate ShippedMemory(m: MemoryConf) {
    && m.cost == 731.20 && m.capacity == 80 && m.bandwidth == 533
    && forall b, c | b in m.bobs && c in b.channels :: c.kind == RDIMM && c.histogram == [0, 0, 1, 2, 0]
  }

  /** The search with the shipped parameters finds the best memory on offer, in the exact order: one RDIMM of 16 GB
      and two of 32 GB at 533 for 731.20. */
  method ShippedRun() returns (s: Search)
    ensures BestOffered(SHIPPED, Exact, s.memories)
    ensures s.memories != [] && ShippedMemory(s.memories[0])
  {
    hide ShippedMemory;
    ShippedIsSolvable();
    ApartIsDefined(SHIPPED);
    hide EnergiesApart, SortsDefined, Solvable, BestOffered, BestBuilt, Assembled, BuiltMemory, AllFigures, AllBobs;
    ghost var all, pruned, built;
    var found;
    s, found, all, pruned, built := Solve(SHIPPED);
    ShippedResult(s.memories, built, pruned);
  }

  /** The design of that one channel. */
  lemma ShippedDesign() returns (design: seq<Totals>)
    ensures OfferedDesign(SHIPPED, design) && Sum(design) == ChoiceFigures(SHIPPED, SHIPPED_BEST)
  {
    ShippedBestOffered();
    hide OnOffer, ChoiceFigures;
    var t := ChoiceFigures(SHIPPED, SHIPPED_BEST);
    SingleChannel([t], t);
    SingleSum(t);
    assert ChannelOffered(SHIPPED, t) && BobFrom(SHIPPED, [t], t) && BobOffered(SHIPPED, t);
    design := [t];
  }

  lemma ShippedResult(ms: seq<MemoryConf>, built: seq<Totals>, pruned: seq<Totals>)
    requires BestOffered(SHIPPED, Exact, ms)
    requires forall m | m in ms :: BuiltMemory(SHIPPED, m) && Assembled(SHIPPED, m, built, pruned)
    ensures ms != [] && ShippedMemory(ms[0])
  {
    hide OnOffer, ChoiceFigures, OfferedDesign;
    var design := ShippedDesign();
    ShippedBestOffered();
    NoSlack(SHIPPED);
    var m := ms[0];
    assert m in ms && Precedes(SHIPPED.ranking, m.Figures(), Sum(design));
    var ch, c := OnlyChannel(m, built, pruned);
    ShippedChoice(c);
    ShippedHistogram();
    assert DimmsOf(c) == DimmsOf(SHIPPED_BEST);
  }

  /** The one channel of a result, and the choice it realises. */
  lemma OnlyChannel(m: MemoryConf, built: seq<Totals>, pruned: seq<Totals>) returns (ch: ChannelConf, c: Choice)
    requires BuiltMemory(SHIPPED, m) && Assembled(SHIPPED, m, built, pruned)
    ensures OnOffer(SHIPPED, c) && Realises(SHIPPED, ch, c) && SizeOf(c) == 80
    ensures m.Figures() == ch.Figures() == ChoiceFigures(SHIPPED, c)
    ensures forall b, d | b in m.bobs && d in b.channels :: d == ch
  {
    hide OnOffer;
    var b := m.bobs[0];
    assert m.bobs == [b] && b in m.bobs && BuiltBob(SHIPPED, b);
    ch := b.channels[0];
    assert b.channels == [ch] && ch in b.channels && ChannelOnOffer(SHIPPED, ch);
    SingleSum(b.Figures());
    SingleSum(ch.Figures());
    assert BobFigures(m.bobs) == [b.Figures()] && ChannelFigures(b.channels) == [ch.Figures()];
    c :| OnOffer(SHIPPED, c) && Realises(SHIPPED, ch, c);
  }

  // ---------------------------------------------------------------- a memory that is missed

  /** One BoB of two UDIMM channels of one bandwidth, 20 GB in all, with the built-in DDR4 tables. */
  const LOSSY := Parameters(DDR4, BuiltIn(DDR4), 20, 1, 2, true, Ranking(Cost, Metrics.Bandwidth, Energy), JUST_UDIMM,
                            false, 2.0, true, false)

  const LOSSY_PRICES: seq<real> := [25.99, 45.99, 9999999.0, 9999999.0, 9999999.0]

  lemma LossyTables()
    ensures forall i | 0 <= i < 5 :: LOSSY.tables.cost(UDIMM, i) == LOSSY_PRICES[i]
    ensures forall b :: LOSSY.tables.bandwidthLoad(b) == BandwidthLoad(DDR4, b)
  {
  }

  function LossyCost(h: seq<nat>): real
    requires |h| == 5
  {
    25.99 * h[0] as real + 45.99 * h[1] as real + 9999999.0 * (h[2] + h[3] + h[4]) as real
  }

  lemma LossyChannelCost(h: seq<nat>)
    requires |h| == 5
    ensures ChannelCost(LOSSY.tables, UDIMM, h, 5) == LossyCost(h)
  {
    LossyTables();
    CostOf(LOSSY.tables, UDIMM, h, LOSSY_PRICES);
    hide BuiltIn, ChannelCost;
    SameProduct(h[0] as real, LOSSY_PRICES[0], 25.99);
    SameProduct(h[1] as real, LOSSY_PRICES[1], 45.99);
    SameProduct(h[2] as real, LOSSY_PRICES[2], 9999999.0);
    SameProduct(h[3] as real, LOSSY_PRICES[3], 9999999.0);
    SameProduct(h[4] as real, LOSSY_PRICES[4], 9999999.0);
  }

  lemma LossyPrice(c: Choice)
    requires InTable(c) && c.bwId <= 3 && c.kind == UDIMM
    ensures ChoiceFigures(LOSSY, c).bandwidth == BandwidthLoad(DDR4, c.bwId)
    ensures ChoiceFigures(LOSSY, c).capacity == SizeOf(c)
    ensures var h := ChoiceHistogram(c);
            && |h| == 5 && HistogramCapacity(h) == SizeOf(c) && HistogramCount(h) == DimmCount(c)
            && ChoiceFigures(LOSSY, c).cost == LossyCost(h)
  {
    DimmsFacts(c);
    LossyTables();
    hide BuiltIn, BandwidthLoad, LossyCost, ChannelCost, HistogramOf, DimmsOf;
    LossyChannelCost(ChoiceHistogram(c));
  }

  /** The least cost of a channel of 4, 8 or 12 GB, and with how many DIMMs it is met. */
  function LeastCost(capacity: int): real {
    if capacity == 4 then 25.99 else if capacity == 8 then 45.99 else 71.98
  }

  function LeastDimms(capacity: int): nat {
    if capacity == 12 then 2 else 1
  }

  lemma SmallCost(c: Choice)
    requires InTable(c) && c.bwId <= 3 && c.kind == UDIMM && SizeOf(c) in {4, 8, 12}
    ensures ChoiceFigures(LOSSY, c).cost >= LeastCost(SizeOf(c))
    ensures DimmCount(c) == LeastDimms(SizeOf(c)) ==> ChoiceFigures(LOSSY, c).cost == LeastCost(SizeOf(c))
  {
    LossyPrice(c);
    hide ChoiceHistogram, ChoiceFigures, SizeOf, DimmCount;
  }

  lemma ChoiceBehind(t: Totals) returns (c: Choice)
    requires ChannelOffered(LOSSY, t)
    ensures OnOffer(LOSSY, c) && ChoiceFigures(LOSSY, c) == t
  {
    c :| OnOffer(LOSSY, c) && ChoiceFigures(LOSSY, c) == t;
  }

  /** What is on offer: the bandwidth steps depend on the number of DIMMs only. */
  lemma LossyOffer(c: Choice)
    requires OnOffer(LOSSY, c)
    ensures InTable(c) && c.bwId <= 3 && c.kind == UDIMM && 4 <= SizeOf(c) <= 20 && ChoiceFigures(LOSSY, c).cost < INF
    ensures SizeOf(c) >= 12 ==> c.bwId <= 2
    ensures SizeOf(c) >= 20 ==> c.bwId <= 1
  {
    LossyPrice(c);
  }

  lemma LossyOffered(c: Choice)
    requires InTable(c) && c.kind == UDIMM && !c.lowPower && c.d1 == 0 && 1 <= c.d3 <= 2 && SizeOf(c) <= 12
    requires c.bwId <= if c.d2 == 0 then 3 else 2
    ensures OnOffer(LOSSY, c)
  {
    LossyPrice(c);
  }

  function TopBandwidth(capacity: int): int {
    if capacity == 12 then 1066 else 1200
  }

  lemma FastestSmall(capacity: int) returns (f: Totals)
    requires capacity in {4, 8, 12}
    ensures ChannelOffered(LOSSY, f) && f.capacity == capacity
    ensures f.cost == LeastCost(capacity) && f.bandwidth == TopBandwidth(capacity)
  {
    hide OnOffer, ChoiceFigures, ChannelOffered;
    var c := if capacity == 12 then Choice(0, 1, 2, UDIMM, 2, false)
             else Choice(0, 0, if capacity == 4 then 1 else 2, UDIMM, 3, false);
    LossyFigures(c);
    SmallCost(c);
    f := ChoiceFigures(LOSSY, c);
  }

  lemma SmallBounds(t: Totals)
    requires ChannelOffered(LOSSY, t) && t.capacity in {4, 8, 12}
    ensures t.cost >= LeastCost(t.capacity) && t.bandwidth <= TopBandwidth(t.capacity)
  {
    hide OnOffer, ChoiceFigures, ChannelOffered;
    var c := ChoiceBehind(t);
    LossyOffer(c);
    LossyPrice(c);
    SmallCost(c);
    hide LossyCost, HistogramCapacity, HistogramCount, ChoiceHistogram;
  }

  /** The cheapest channels of 4, 8 and 12 GB hold one DIMM or two; the fastest of them are kept. */
  lemma SmallBandwidth(all: seq<Totals>, kept: seq<Totals>, t: Totals)
    requires AllFigures(LOSSY, all) && BestPerCapacity(LOSSY.ranking, all, kept)
    requires t in kept && t.capacity in {4, 8, 12}
    ensures t.bandwidth == TopBandwidth(t.capacity)
  {
    hide DistinctCapacities, ChannelOffered;
    var f := FastestSmall(t.capacity);
    assert RankedBySome(LOSSY.ranking, kept, f);
    var y :| y in kept && y.capacity == f.capacity && NotWorse(LOSSY.ranking, y, f);
    SameCapacity(kept, y, t);
    SmallBounds(t);
  }

  lemma LossyFigures(c: Choice)
    requires InTable(c) && c.kind == UDIMM && !c.lowPower && c.d1 == 0 && 1 <= c.d3 <= 2 && SizeOf(c) <= 12
    requires c.bwId <= if c.d2 == 0 then 3 else 2
    ensures var f := ChoiceFigures(LOSSY, c);
            ChannelOffered(LOSSY, f) && f.bandwidth == BandwidthLoad(DDR4, c.bwId) && f.capacity == SizeOf(c)
  {
    LossyOffered(c);
    LossyPrice(c);
  }

  lemma SameCapacity(kept: seq<Totals>, x: Totals, y: Totals)
    requires DistinctCapacities(kept) && x in kept && y in kept && x.capacity == y.capacity
    ensures x == y
  {
  }

  /** Channels of 16 and 20 GB hold more DIMMs and run more slowly. */
  lemma LargeBandwidth(all: seq<Totals>, t: Totals)
    requires AllFigures(LOSSY, all) && t in all
    ensures t.capacity in {4, 8, 12, 16, 20}
    ensures t.capacity == 16 ==> t.bandwidth <= 1066
    ensures t.capacity == 20 ==> t.bandwidth <= 933
  {
    hide OnOffer, ChoiceFigures, LossyCost, ChoiceHistogram, SizeOf;
    assert ChannelOffered(LOSSY, t);
    var c := ChoiceBehind(t);
    LossyOffer(c);
    LossyPrice(c);
    SizeByFours(c);
  }

  lemma SizeByFours(c: Choice)
    requires InTable(c)
    ensures SizeOf(c) % 4 == 0
  {
  }

  /** What is known of a kept channel. */
  predicate LossyKept(t: Totals) {
    && t.capacity in {4, 8, 12, 16, 20}
    && (t.capacity <= 8 ==> t.bandwidth == 1200) && (t.capacity == 12 ==> t.bandwidth == 1066)
    && (t.capacity == 16 ==> t.bandwidth <= 1066) && (t.capacity == 20 ==> t.bandwidth <= 933)
  }

  lemma KeptFacts(all: seq<Totals>, kept: seq<Totals>, t: Totals)
    requires AllFigures(LOSSY, all) && BestPerCapacity(LOSSY.ranking, all, kept) && t in kept
    ensures LossyKept(t)
  {
    hide AllFigures, RankedCover, DistinctCapacities;
    LargeBandwidth(all, t);
    if t.capacity <= 12 {
      SmallBandwidth(all, kept, t);
    }
  }

  /** Pairs of kept channels of one bandwidth: none makes 20 GB, and no two make the same capacity. */
  lemma PairCapacities(a: Totals, b: Totals, c: Totals, d: Totals)
    requires LossyKept(a) && LossyKept(b) && a.capacity <= b.capacity && a.bandwidth == b.bandwidth
    requires LossyKept(c) && LossyKept(d) && c.capacity <= d.capacity && c.bandwidth == d.bandwidth
    ensures a.capacity + b.capacity != 20
    ensures a.capacity + b.capacity == c.capacity + d.capacity ==> a.capacity == c.capacity && b.capacity == d.capacity
  {
  }

  lemma KeptPair(all: seq<Totals>, kept: seq<Totals>, t: Totals) returns (a: Totals, b: Totals)
    requires AllFigures(LOSSY, all) && BestPerCapacity(LOSSY.ranking, all, kept) && UniformBob(kept, 2, t)
    ensures a in kept && b in kept && t == a.Plus(b) && LossyKept(a) && LossyKept(b)
    ensures a.capacity <= b.capacity && a.bandwidth == b.bandwidth
  {
    hide AllFigures, RankedCover, UniformBob, LossyKept;
    var i, j := BobIsPair(kept, t);
    a, b := kept[i], kept[j];
    assert a in kept && b in kept;
    KeptFacts(all, kept, a);
    KeptFacts(all, kept, b);
  }

  lemma OneBobPerCapacity(all: seq<Totals>, kept: seq<Totals>, t: Totals, u: Totals)
    requires AllFigures(LOSSY, all) && BestPerCapacity(LOSSY.ranking, all, kept)
    requires UniformBob(kept, 2, t) && UniformBob(kept, 2, u)
    ensures t.capacity != 20 && (t.capacity == u.capacity ==> t == u)
  {
    hide AllFigures, RankedCover, UniformBob, LossyKept, DistinctCapacities;
    var a, b := KeptPair(all, kept, t);
    var c, d := KeptPair(all, kept, u);
    PairCapacities(a, b, c, d);
    if t.capacity == u.capacity {
      SameCapacity(kept, a, c);
      SameCapacity(kept, b, d);
    }
  }

  /** The tolerance does not act in this run. */
  lemma LossyIsApart()
    ensures EnergiesApart(LOSSY)
  {
    hide AllFigures, BestPerCapacity, BuildsFit, Apart;
    forall all | AllFigures(LOSSY, all)
      ensures ChannelsFit(LOSSY, Exact, all)
    {
      OfferIsApart(LOSSY, all);
      forall pruned | BestPerCapacity(LOSSY.ranking, all, pruned)
        ensures BuildsFit(LOSSY, Exact, pruned)
      {
        LossyBuilds(all, pruned);
      }
    }
  }

  lemma LossyBuilds(all: seq<Totals>, pruned: seq<Totals>)
    requires AllFigures(LOSSY, all) && BestPerCapacity(LOSSY.ranking, all, pruned)
    ensures BuildsFit(LOSSY, Exact, pruned)
  {
    hide AllFigures, RankedCover, DistinctCapacities, UniformBob, MemoriesFit;
    forall built | AllBobs(LOSSY, pruned, built)
      ensures BobsFit(LOSSY, Exact, built)
    {
      forall x, y | x in built && y in built
        ensures Discernible(LOSSY.ranking, x, y)
      {
        assert BobFrom(LOSSY, pruned, x) && BobFrom(LOSSY, pruned, y);
        OneBobPerCapacity(all, pruned, x, y);
      }
      forall kept | BestPerCapacity(LOSSY.ranking, built, kept)
        ensures MemoriesFit(LOSSY, Exact, kept)
      {
        FitPart(LOSSY.ranking, Exact, built, kept);
        SingleMemoriesFit(LOSSY, Exact, kept);
      }
    }
  }

  /** A channel of 8 GB, or with a further DIMM of 12 GB, at 1066. */
  lemma LossyPart(further: nat) returns (x: Totals)
    requires further <= 1
    ensures ChannelOffered(LOSSY, x) && x.bandwidth == 1066 && x.capacity == 8 + 4 * further
  {
    hide OnOffer, ChannelOffered, ChoiceFigures;
    var c := Choice(0, further, 2, UDIMM, 2, false);
    LossyFigures(c);
    x := ChoiceFigures(LOSSY, c);
  }

  /** Channels of 8 and 12 GB at 1066 make the memory asked for. */
  lemma LossyDesign(all: seq<Totals>) returns (design: seq<Totals>)
    requires AllFigures(LOSSY, all)
    ensures OfferedDesign(LOSSY, design)
  {
    hide ChannelOffered, UniformBob, BobOffered;
    var x := LossyPart(0);
    var y := LossyPart(1);
    var i :| 0 <= i < |all| && all[i] == x;
    var j :| 0 <= j < |all| && all[j] == y;
    PairIsBob(all, i, j);
    var t := all[i].Plus(all[j]);
    assert BobFrom(LOSSY, all, t);
    OfferedBobs(LOSSY, all, t);
    SingleSum(t);
    design := [t];
  }

  /** What pruning leaves has no BoB of 20 GB. */
  lemma NothingOf20(all: seq<Totals>, pruned: seq<Totals>, built: seq<Totals>, design: seq<Totals>)
    requires AllFigures(LOSSY, all) && BestPerCapacity(LOSSY.ranking, all, pruned) && AllBobs(LOSSY, pruned, built)
    ensures !Design(LOSSY.numBobs, LOSSY.capacity, built, design)
  {
    hide AllFigures, BestPerCapacity, UniformBob;
    if Design(1, 20, built, design) {
      assert design == [design[0]] && design[0] in design;
      SingleSum(design[0]);
      assert BobFrom(LOSSY, pruned, design[0]);
      OneBobPerCapacity(all, pruned, design[0], design[0]);
    }
  }

  lemma LossySolvable()
    ensures Solvable(LOSSY)
  {
    LossyOffered(Choice(0, 0, 1, UDIMM, 0, false));
  }

  /** The search reports that there is no such memory, but there is one. */
  method LossyRun() returns (s: Search, found: bool)
    ensures !found && s.memories == []
    ensures exists design :: OfferedDesign(LOSSY, design)
  {
    LossyIsApart();
    ApartIsDefined(LOSSY);
    LossySolvable();
    hide EnergiesApart, SortsDefined, Solvable, BestOffered, Assembled, BuiltMemory, AllFigures, AllBobs, Design;
    hide OfferedDesign, BestPerCapacity, OfferSurvives;
    ghost var all, pruned, built;
    s, found, all, pruned, built := Solve(LOSSY);
    if found {
      ghost var design :| Design(LOSSY.numBobs, LOSSY.capacity, built, design);
      NothingOf20(all, pruned, built, design);
    }
    ghost var missed := LossyDesign(all);
  }
}
