/** Which channels the search has to choose from. */
module Offers {
  import opened Combinatorics
  import opened Metrics
  import opened Configurations

  const DIMM_SIZE: seq<int> := [0, 4, 8, 16, 32, 64]

  /** One way to populate a channel: three size indices, the kind of DIMM, a bandwidth step and
      the low-power flag. */
  datatype Choice = Choice(d1: nat, d2: nat, d3: nat, kind: DimmKind, bwId: nat, lowPower: bool)

  predicate InTable(c: Choice) {
    c.d1 <= c.d2 <= c.d3 < 6
  }

  function DimmsOf(c: Choice): seq<int>
    requires InTable(c)
  {
    [DIMM_SIZE[c.d1], DIMM_SIZE[c.d2], DIMM_SIZE[c.d3]]
  }

  function SizeOf(c: Choice): int
    requires InTable(c)
  {
    DIMM_SIZE[c.d1] + DIMM_SIZE[c.d2] + DIMM_SIZE[c.d3]
  }

  function DimmCount(c: Choice): nat {
    (if c.d1 > 0 then 1 else 0) + (if c.d2 > 0 then 1 else 0) + (if c.d3 > 0 then 1 else 0)
  }

  lemma DimmsFacts(c: Choice)
    requires InTable(c)
    ensures AllSupported(DimmsOf(c)) && forall d | d in DimmsOf(c) :: HasSlot(d)
    ensures SumInts(DimmsOf(c)) == SizeOf(c) && CountPresent(DimmsOf(c)) == DimmCount(c)
    ensures HistogramCapacity(HistogramOf(DimmsOf(c))) == SizeOf(c)
    ensures HistogramCount(HistogramOf(DimmsOf(c))) == DimmCount(c)
  {
    hide HistogramOf, HistogramCapacity, HistogramCount;
    var s := DimmsOf(c);
    var one, two := [DIMM_SIZE[c.d1]], [DIMM_SIZE[c.d1], DIMM_SIZE[c.d2]];
    assert s[..2] == two && two[..1] == one && one[..0] == [];
    assert SumInts(two) == SumInts(one) + DIMM_SIZE[c.d2] && SumInts(one) == DIMM_SIZE[c.d1];
    assert CountPresent(two) == CountPresent(one) + if c.d2 > 0 then 1 else 0;
    assert forall i | 0 <= i < 6 :: Supported(DIMM_SIZE[i]);
    assert forall d | Supported(d) :: HasSlot(d);
    HistogramExactIffSupported(s);
  }

  /** Each DIMM present is sold: its table entry is below INF. */
  predicate Priced(p: Parameters, c: Choice) {
    && (c.d1 == 0 || p.tables.cost(c.kind, c.d1 - 1) < INF)
    && (c.d2 == 0 || p.tables.cost(c.kind, c.d2 - 1) < INF)
    && (c.d3 == 0 || p.tables.cost(c.kind, c.d3 - 1) < INF)
  }

  /** The guard of each kind's block. For RDIMM and UDIMM the `||` swallows the price checks when
      only that kind is wanted. */
  predicate Admitted(p: Parameters, c: Choice) {
    match c.kind
    case LRDIMM => (p.dimmModel == JUST_LRDIMM || p.dimmModel == ALL) && Priced(p, c)
    case RDIMM => p.dimmModel == JUST_RDIMM || (p.dimmModel == ALL && Priced(p, c))
    case UDIMM => p.dimmModel == JUST_UDIMM || (p.dimmModel == ALL && Priced(p, c))
  }

  function LastBandwidth(p: Parameters, c: Choice): int {
    BwIndex(p.ioType, p.tables.bandwidthLoad(4 - DimmCount(c)))
  }

  /** Parameters that the search's arithmetic is defined for. */
  ghost predicate Usable(p: Parameters) {
    p.Sound() && forall i | 0 <= i <= 3 :: p.tables.bandwidthLoad(i) != 0
  }

  function ChoiceHistogram(c: Choice): seq<nat>
    requires InTable(c)
  {
    DimmsFacts(c);
    HistogramOf(DimmsOf(c))
  }

  function ChoiceFigures(p: Parameters, c: Choice): Totals
    requires Usable(p) && InTable(c) && c.bwId <= 3
  {
    DimmsFacts(c);
    ChannelTotals(p, c.kind, HistogramOf(DimmsOf(c)), SizeOf(c), p.tables.bandwidthLoad(c.bwId))
  }

  /** A channel the search may use. The empty channel exists only as a plain LRDIMM one. */
  ghost predicate OnOffer(p: Parameters, c: Choice)
    requires Usable(p)
  {
    && InTable(c) && SizeOf(c) <= p.capacity
    && Admitted(p, c) && c.bwId <= LastBandwidth(p, c)
    && (c.lowPower ==> p.lowPowerPermitted)
    && (SizeOf(c) == 0 ==> c.kind == LRDIMM && !c.lowPower)
    && ChoiceFigures(p, c).cost < INF
  }

  /** The price checks that the `||` swallows make no difference: with non-negative prices a channel
      with an unsold DIMM costs at least INF and is dropped anyway. */
  lemma PriceChecksAreRedundant(p: Parameters, c: Choice)
    requires Usable(p) && InTable(c) && c.bwId <= 3
    requires forall k, i | 0 <= i < 5 :: p.tables.cost(k, i) >= 0.0
    ensures ChoiceFigures(p, c).cost < INF ==> Priced(p, c)
  {
    hide DimmsOf, HistogramOf, EnergyPerRead, EnergyPerWrite, EnergyPerAccess, HistogramCount, ChannelCost, SizeOf;
    if !Priced(p, c) {
      var d :| d in [c.d1, c.d2, c.d3] && d != 0 && p.tables.cost(c.kind, d - 1) >= INF;
      DimmsFacts(c);
      var h := HistogramOf(DimmsOf(c));
      PresentSlot(c, d);
      CostAtLeast(p.tables, c.kind, h, 5, d - 1);
    }
  }

  // ---------------------------------------------------------------- the channels on offer, said directly

  /** What the DIMM of a size index costs. */
  function DimmPrice(t: Tables, kind: DimmKind, d: nat): real {
    if d == 0 then 0.0 else t.cost(kind, d - 1)
  }

  /** One more DIMM in a slot adds its price. */
  lemma {:induction false} OneMorePrice(t: Tables, kind: DimmKind, h: seq<nat>, i: nat, n: nat)
    requires n <= |h| && i < |h|
    ensures ChannelCost(t, kind, h[i := h[i] + 1], n) ==
            ChannelCost(t, kind, h, n) + if i < n then t.cost(kind, i) else 0.0
  {
    if n > 0 {
      OneMorePrice(t, kind, h, i, n - 1);
      var x, y := h[n - 1] as real, t.cost(kind, n - 1);
      assert (x + 1.0) * y == x * y + y;
    }
  }

  /** A list of DIMMs with one more costs its price more. */
  lemma CostSnoc(t: Tables, kind: DimmKind, rest: seq<int>, d: nat)
    requires d < 6 && forall x | x in rest :: HasSlot(x)
    ensures HasSlot(DIMM_SIZE[d]) && forall x | x in rest + [DIMM_SIZE[d]] :: HasSlot(x)
    ensures ChannelCost(t, kind, HistogramOf(rest + [DIMM_SIZE[d]]), 5) ==
            ChannelCost(t, kind, HistogramOf(rest), 5) + DimmPrice(t, kind, d)
  {
    hide HistogramOf, ChannelCost, SizeIndex;
    if d > 0 {
      SizeOfStep(d);
      HistogramSnoc(rest, DIMM_SIZE[d]);
      OneMorePrice(t, kind, HistogramOf(rest), d - 1, 5);
    } else {
      HistogramSnoc(rest, 0);
    }
  }

  lemma NothingBought(t: Tables, kind: DimmKind)
    ensures ChannelCost(t, kind, HistogramOf([]), 5) == 0.0
  {
    var h := HistogramOf([]);
    assert forall i | 0 <= i < 5 :: h[i] == 0;
    assert ChannelCost(t, kind, h, 1) == 0.0;
    assert ChannelCost(t, kind, h, 2) == 0.0;
    assert ChannelCost(t, kind, h, 3) == 0.0;
    assert ChannelCost(t, kind, h, 4) == 0.0;
  }

  /** A channel costs what its DIMMs cost. */
  lemma ChoiceCost(p: Parameters, c: Choice)
    requires Usable(p) && InTable(c) && c.bwId <= 3
    ensures ChoiceFigures(p, c).cost ==
            DimmPrice(p.tables, c.kind, c.d1) + DimmPrice(p.tables, c.kind, c.d2) + DimmPrice(p.tables, c.kind, c.d3)
  {
    DimmsFacts(c);
    var one, two := [DIMM_SIZE[c.d1]], [DIMM_SIZE[c.d1], DIMM_SIZE[c.d2]];
    assert ChoiceFigures(p, c).cost == ChannelCost(p.tables, c.kind, HistogramOf(DimmsOf(c)), 5);
    hide HistogramOf, ChannelCost, DimmPrice, ChoiceFigures, HistogramCapacity, HistogramCount, HasSlot;
    NothingBought(p.tables, c.kind);
    assert [] + [DIMM_SIZE[c.d1]] == one && one + [DIMM_SIZE[c.d2]] == two && two + [DIMM_SIZE[c.d3]] == DimmsOf(c);
    CostSnoc(p.tables, c.kind, [], c.d1);
    CostSnoc(p.tables, c.kind, one, c.d2);
    CostSnoc(p.tables, c.kind, two, c.d3);
  }

  /** Gigabytes of the DIMM of a size index: 4, 8, 16, 32 and 64. */
  function Gigabytes(d: nat): nat {
    if d == 0 then 0 else 2 * Pow2(d)
  }

  lemma SizesDouble(d: nat)
    requires d < 6
    ensures DIMM_SIZE[d] == Gigabytes(d)
  {
    assert Pow2(2) == 4 && Pow2(3) == 8;
    assert Pow2(5) == 32 && Pow2(4) == 16;
  }

  /** A channel is on offer exactly when its kind is wanted, its DIMMs fit into the memory, its price is below INF, its
      bandwidth step is at most the one that as many DIMMs allow, and low power is permitted if asked for; an empty
      channel is offered once, as an LRDIMM channel at full power. Each DIMM by itself must be sold too, unless RDIMM
      or UDIMM alone is wanted. */
  lemma OnOfferIff(p: Parameters, c: Choice)
    requires Usable(p)
    ensures OnOffer(p, c) <==>
      && c.d1 <= c.d2 <= c.d3 < 6
      && (p.dimmModel == ALL || p.dimmModel == match c.kind
                                               case UDIMM => JUST_UDIMM
                                               case RDIMM => JUST_RDIMM
                                               case LRDIMM => JUST_LRDIMM)
      && Gigabytes(c.d1) + Gigabytes(c.d2) + Gigabytes(c.d3) <= p.capacity
      && DimmPrice(p.tables, c.kind, c.d1) + DimmPrice(p.tables, c.kind, c.d2) + DimmPrice(p.tables, c.kind, c.d3) < INF
      && (p.dimmModel == ALL || c.kind == LRDIMM ==>
            forall d | d in [c.d1, c.d2, c.d3] :: DimmPrice(p.tables, c.kind, d) < INF)
      && c.bwId <= BwIndex(p.ioType, p.tables.bandwidthLoad(4 - |set i | 0 <= i < 3 && [c.d1, c.d2, c.d3][i] > 0|))
      && (c.lowPower ==> p.lowPowerPermitted && c.d3 > 0)
      && (c.d3 == 0 ==> c.kind == LRDIMM)
  {
    PresentCount(c);
    if InTable(c) && c.bwId <= 3 {
      SizesDouble(c.d1);
      SizesDouble(c.d2);
      SizesDouble(c.d3);
      ChoiceCost(p, c);
      SoldIff(p, c);
      hide ChoiceFigures, Gigabytes, DimmPrice, Priced;
    }
  }

  lemma SoldIff(p: Parameters, c: Choice)
    ensures Priced(p, c) <==> forall d | d in [c.d1, c.d2, c.d3] :: DimmPrice(p.tables, c.kind, d) < INF
  {
    var ds := [c.d1, c.d2, c.d3];
    assert c.d1 in ds && c.d2 in ds && c.d3 in ds;
  }

  /** With non-negative prices the price of the channel says it all. */
  lemma SoldIfAffordable(p: Parameters, c: Choice)
    requires Usable(p) && InTable(c) && c.bwId <= 3
    requires forall k, i | 0 <= i < 5 :: p.tables.cost(k, i) >= 0.0
    requires ChoiceFigures(p, c).cost < INF
    ensures forall d | d in [c.d1, c.d2, c.d3] :: DimmPrice(p.tables, c.kind, d) < INF
  {
    PriceChecksAreRedundant(p, c);
    SoldIff(p, c);
  }

  lemma PresentCount(c: Choice)
    ensures |set i | 0 <= i < 3 && [c.d1, c.d2, c.d3][i] > 0| == DimmCount(c)
  {
    var ds := [c.d1, c.d2, c.d3];
    var a, b, d := if c.d1 > 0 then {0} else {}, if c.d2 > 0 then {1} else {}, if c.d3 > 0 then {2} else {};
    assert (set i | 0 <= i < 3 && ds[i] > 0) == a + b + d;
  }

  lemma PresentSlot(c: Choice, d: nat)
    requires InTable(c) && d in [c.d1, c.d2, c.d3] && d != 0
    requires forall x | x in DimmsOf(c) :: HasSlot(x)
    ensures HistogramOf(DimmsOf(c))[d - 1] >= 1
  {
    SizeOfStep(d);
    assert DIMM_SIZE[d] in DimmsOf(c);
    Counted(DimmsOf(c), DIMM_SIZE[d]);
  }

  lemma SizeOfStep(d: nat)
    requires 1 <= d < 6
    ensures HasSlot(DIMM_SIZE[d]) && DIMM_SIZE[d] != 0 && SizeIndex(DIMM_SIZE[d]) == d - 1
  {
    hide SizeIndex;
    SlotSizes();
    SlotRoundTrip(d - 1);
    assert d == 1 || d == 2 || d == 3 || d == 4 || d == 5;
  }

  lemma {:induction false} Counted(dimms: seq<int>, x: int)
    requires (forall d | d in dimms :: HasSlot(d)) && x in dimms && x != 0
    ensures CountSlot(dimms, SizeIndex(x)) >= 1
  {
    hide SizeIndex;
    if dimms[|dimms| - 1] != x {
      assert x in dimms[..|dimms| - 1];
      Counted(dimms[..|dimms| - 1], x);
    }
  }

  lemma {:induction false} CostAtLeast(t: Tables, kind: DimmKind, h: seq<nat>, n: nat, i: nat)
    requires n <= 5 <= |h|
    requires forall k, j | 0 <= j < 5 :: t.cost(k, j) >= 0.0
    ensures ChannelCost(t, kind, h, n) >= 0.0
    ensures i < n && h[i] >= 1 ==> ChannelCost(t, kind, h, n) >= t.cost(kind, i)
  {
    if n > 0 {
      CostAtLeast(t, kind, h, n - 1, i);
      var x, y := h[n - 1] as real, t.cost(kind, n - 1);
      assert x * y >= 0.0;
      if h[n - 1] >= 1 {
        assert (x - 1.0) * y >= 0.0;
      }
    }
  }
}
