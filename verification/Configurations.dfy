/** Channels, BoBs (buffers on board) and memories. Their figures are computed by the
    constructors and never change afterwards, so the fields are constants. */
module Configurations {
  import opened Combinatorics
  import opened Metrics

  /** Cost of a DIMM that is not on offer. */
  const INF: real := 9999999.0
  const MAX_NUM_CHANNELS_PER_BOB := 2
  const MAX_NUM_BOBS := 6
  const DIMM_PER_CHANNEL := 3
  const T_BURST: real := 4.0

  /** The I/O types the channel constructor admits. */
  datatype IoType = DDR3 | DDR4
  datatype DimmKind = UDIMM | RDIMM | LRDIMM
  datatype DimmModel = JUST_UDIMM | JUST_RDIMM | JUST_LRDIMM | ALL

  /** The static tables of one I/O type. A read outside a table's range yields some value. */
  datatype Tables = Tables(bandwidthLoad: int -> int,
                           cost: (DimmKind, int) -> real,
                           ioEnergyRead: (DimmKind, int, int) -> real,
                           ioEnergyWrite: (DimmKind, int, int) -> real)

  datatype Parameters = Parameters(ioType: IoType, tables: Tables,
                                   capacity: int, numBobs: int, numChannelsPerBob: int,
                                   capacityWise: bool, ranking: Ranking, dimmModel: DimmModel,
                                   lowPowerPermitted: bool, rdToWrRatio: real,
                                   sameBwInBob: bool, mirrorInBob: bool)
  {
    /** What the arithmetic of the constructors divides by. */
    ghost predicate Sound() {
      capacity > 0 && rdToWrRatio >= 0.0
    }
  }

  /** The bandwidths at which the tables of an I/O type step up. */
  function BwSteps(t: IoType): (s: seq<int>)
    ensures |s| == 3
  {
    match t
    case DDR3 => [400, 533, 667]
    case DDR4 => [800, 933, 1066]
  }

  /** The number of steps below a bandwidth. */
  function BwIndex(t: IoType, bandwidth: int): (i: int)
    ensures 0 <= i <= 3
    ensures forall k | 0 <= k < 3 :: k < i <==> bandwidth > BwSteps(t)[k]
  {
    match t
    case DDR3 => if bandwidth <= 400 then 0 else if bandwidth <= 533 then 1 else if bandwidth <= 667 then 2 else 3
    case DDR4 => if bandwidth <= 800 then 0 else if bandwidth <= 933 then 1 else if bandwidth <= 1066 then 2 else 3
  }

  // ---------------------------------------------------------------- DIMM sizes and histograms

  /** Sizes that have a slot in the histogram; 0 stands for an empty position. */
  predicate HasSlot(size: int) {
    size == 0 || 4 <= size < 128
  }

  /** The sizes DIMMs come in, in GB. */
  predicate Supported(size: int) {
    size == 0 || size == 4 || size == 8 || size == 16 || size == 32 || size == 64
  }

  function SizeIndex(size: int): (i: nat)
    requires HasSlot(size) && size != 0
    ensures i < 5
    ensures SizeAt(i) <= size < 2 * SizeAt(i)
  {
    assert Pow2(3) == 8 && Pow2(4) == 16 && Pow2(7) == 128;
    Pow2Order(FloorLog2(size) + 1, 2);
    Pow2Order(7, FloorLog2(size));
    FloorLog2(size) - 2
  }

  /** The size a histogram slot stands for. */
  function SizeAt(i: nat): nat {
    4 * Pow2(i)
  }

  function SumInts(s: seq<int>): int {
    if s == [] then 0 else SumInts(s[..|s| - 1]) + s[|s| - 1]
  }

  /** How many DIMMs fall into slot i. */
  function CountSlot(dimms: seq<int>, i: nat): nat
    requires forall d | d in dimms :: HasSlot(d)
  {
    if dimms == [] then 0
    else
      var d := dimms[|dimms| - 1];
      CountSlot(dimms[..|dimms| - 1], i) + if d != 0 && SizeIndex(d) == i then 1 else 0
  }

  function CountPresent(dimms: seq<int>): nat {
    if dimms == [] then 0
    else CountPresent(dimms[..|dimms| - 1]) + if dimms[|dimms| - 1] != 0 then 1 else 0
  }

  function HistogramOf(dimms: seq<int>): (h: seq<nat>)
    requires forall d | d in dimms :: HasSlot(d)
    ensures |h| == 5
  {
    seq(5, i requires 0 <= i < 5 => CountSlot(dimms, i))
  }

  /** The capacity a histogram accounts for. */
  function HistogramCapacity(h: seq<nat>): int
    requires |h| == 5
  {
    4 * h[0] + 8 * h[1] + 16 * h[2] + 32 * h[3] + 64 * h[4]
  }

  function HistogramCount(h: seq<nat>): nat
    requires |h| == 5
  {
    h[0] + h[1] + h[2] + h[3] + h[4]
  }

  lemma SlotSizes()
    ensures SizeAt(0) == 4 && SizeAt(1) == 8 && SizeAt(2) == 16 && SizeAt(3) == 32 && SizeAt(4) == 64
  {
    assert Pow2(2) == 4;
    assert Pow2(3) == 8;
    assert Pow2(4) == 16;
  }

  lemma SupportedIsExact(d: int)
    requires HasSlot(d) && d != 0
    ensures Supported(d) <==> d == SizeAt(SizeIndex(d))
  {
    SlotSizes();
    var i := SizeIndex(d);
    assert i == 0 || i == 1 || i == 2 || i == 3 || i == 4;
  }

  lemma OneMore(h: seq<nat>, i: nat)
    requires |h| == 5 && i < 5
    ensures HistogramCapacity(h[i := h[i] + 1]) == HistogramCapacity(h) + SizeAt(i)
    ensures HistogramCount(h[i := h[i] + 1]) == HistogramCount(h) + 1
  {
    SlotSizes();
  }

  /** One more DIMM raises its slot by one. */
  lemma HistogramSnoc(rest: seq<int>, d: int)
    requires HasSlot(d) && forall x | x in rest :: HasSlot(x)
    ensures forall x | x in rest + [d] :: HasSlot(x)
    ensures HistogramOf(rest + [d]) ==
            if d == 0 then HistogramOf(rest) else HistogramOf(rest)[SizeIndex(d) := HistogramOf(rest)[SizeIndex(d)] + 1]
    ensures CountPresent(rest + [d]) == CountPresent(rest) + if d == 0 then 0 else 1
    ensures SumInts(rest + [d]) == SumInts(rest) + d
  {
    var dimms := rest + [d];
    assert dimms[..|dimms| - 1] == rest;
    assert forall i: nat :: CountSlot(dimms, i) == CountSlot(rest, i) + if d != 0 && SizeIndex(d) == i then 1 else 0;
  }

  ghost predicate AllSupported(dimms: seq<int>) {
    forall d | d in dimms :: Supported(d)
  }

  lemma AllSupportedSnoc(rest: seq<int>, d: int)
    ensures AllSupported(rest + [d]) <==> AllSupported(rest) && Supported(d)
  {
    var dimms := rest + [d];
    assert d == dimms[|rest|];
    assert forall x | x in rest :: x in dimms;
  }

  lemma CapacitySnoc(rest: seq<int>, d: int)
    requires HasSlot(d) && forall x | x in rest :: HasSlot(x)
    ensures forall x | x in rest + [d] :: HasSlot(x)
    ensures HistogramCapacity(HistogramOf(rest + [d])) ==
            HistogramCapacity(HistogramOf(rest)) + if d == 0 then 0 else SizeAt(SizeIndex(d))
    ensures HistogramCount(HistogramOf(rest + [d])) == HistogramCount(HistogramOf(rest)) + if d == 0 then 0 else 1
  {
    hide HistogramOf, SizeIndex, SizeAt;
    HistogramSnoc(rest, d);
    if d != 0 {
      OneMore(HistogramOf(rest), SizeIndex(d));
    }
  }

  /** A histogram never overstates the capacity, and states it exactly when all sizes are supported. */
  lemma {:induction false} HistogramExactIffSupported(dimms: seq<int>)
    requires forall d | d in dimms :: HasSlot(d)
    ensures HistogramCount(HistogramOf(dimms)) == CountPresent(dimms)
    ensures HistogramCapacity(HistogramOf(dimms)) <= SumInts(dimms)
    ensures HistogramCapacity(HistogramOf(dimms)) == SumInts(dimms) <==> AllSupported(dimms)
  {
    if dimms != [] {
      var rest, d := dimms[..|dimms| - 1], dimms[|dimms| - 1];
      assert dimms == rest + [d];
      HistogramExactIffSupported(rest);
      CapacitySnoc(rest, d);
      AllSupportedSnoc(rest, d);
      if d != 0 {
        SupportedIsExact(d);
      }
    }
  }

  // ---------------------------------------------------------------- the figures of a channel

  function ChannelCost(t: Tables, kind: DimmKind, h: seq<nat>, n: nat): real
    requires n <= |h|
  {
    if n == 0 then 0.0 else ChannelCost(t, kind, h, n - 1) + h[n - 1] as real * t.cost(kind, n - 1)
  }

  /** The share of the traffic a channel carries. */
  function LoadShare(p: Parameters, capacity: int): real
    requires p.Sound()
  {
    if p.capacityWise then capacity as real / p.capacity as real else 1.0
  }

  /** Energy per access of one direction before the load share is applied. */
  function FullEnergy(table: (DimmKind, int, int) -> real, p: Parameters, kind: DimmKind, dimms: nat,
                      bandwidth: int): real
    requires bandwidth != 0
  {
    table(kind, dimms - 1, BwIndex(p.ioType, bandwidth)) / (bandwidth as real / T_BURST)
  }

  function EnergyPerRead(p: Parameters, kind: DimmKind, dimms: nat, capacity: int, bandwidth: int): real
    requires p.Sound() && bandwidth != 0
  {
    FullEnergy(p.tables.ioEnergyRead, p, kind, dimms, bandwidth) * LoadShare(p, capacity)
  }

  function EnergyPerWrite(p: Parameters, kind: DimmKind, dimms: nat, capacity: int, bandwidth: int): real
    requires p.Sound() && bandwidth != 0
  {
    FullEnergy(p.tables.ioEnergyWrite, p, kind, dimms, bandwidth) * LoadShare(p, capacity)
  }

  /** Reads and writes mixed in the configured ratio. */
  function Mixed(p: Parameters, read: real, write: real): real
    requires p.Sound()
  {
    p.rdToWrRatio / (1.0 + p.rdToWrRatio) * read + 1.0 / (1.0 + p.rdToWrRatio) * write
  }

  /** It is the mean of the two energies, weighted by the ratio of reads to writes. */
  lemma MixedIsMean(p: Parameters, read: real, write: real)
    requires p.Sound()
    ensures (p.rdToWrRatio + 1.0) * Mixed(p, read, write) == p.rdToWrRatio * read + write
  {
    var n := 1.0 + p.rdToWrRatio;
    var a, b := p.rdToWrRatio / n, 1.0 / n;
    assert a * n == p.rdToWrRatio && b * n == 1.0;
    assert n * (a * read + b * write) == a * n * read + b * n * write;
  }

  function EnergyPerAccess(p: Parameters, kind: DimmKind, dimms: nat, capacity: int, bandwidth: int): real
    requires p.Sound() && bandwidth != 0
  {
    Mixed(p, EnergyPerRead(p, kind, dimms, capacity, bandwidth), EnergyPerWrite(p, kind, dimms, capacity, bandwidth))
  }

  /** All figures of a channel as a function of what it is built from. */
  function ChannelTotals(p: Parameters, kind: DimmKind, h: seq<nat>, capacity: int, bandwidth: int): Totals
    requires p.Sound() && bandwidth != 0 && |h| == 5
  {
    Totals(capacity, bandwidth,
           EnergyPerRead(p, kind, HistogramCount(h), capacity, bandwidth),
           EnergyPerWrite(p, kind, HistogramCount(h), capacity, bandwidth),
           EnergyPerAccess(p, kind, HistogramCount(h), capacity, bandwidth),
           ChannelCost(p.tables, kind, h, 5))
  }

  /** A channel's energy per read is its table entry over the cycles of a burst, times its share of the capacity;
      the same for writes. The energy per access is their mean, weighted by the ratio of reads to writes. */
  lemma ChannelEnergies(p: Parameters, kind: DimmKind, h: seq<nat>, capacity: int, bandwidth: int)
    requires p.Sound() && p.capacityWise && bandwidth != 0 && |h| == 5
    ensures var t := ChannelTotals(p, kind, h, capacity, bandwidth);
            var (n: int, step) := (HistogramCount(h) - 1, BwIndex(p.ioType, bandwidth));
            && t.energyPerRead * bandwidth as real * p.capacity as real ==
               4.0 * p.tables.ioEnergyRead(kind, n, step) * capacity as real
            && t.energyPerWrite * bandwidth as real * p.capacity as real ==
               4.0 * p.tables.ioEnergyWrite(kind, n, step) * capacity as real
            && (p.rdToWrRatio + 1.0) * t.energyPerAccess == p.rdToWrRatio * t.energyPerRead + t.energyPerWrite
  {
    var t := ChannelTotals(p, kind, h, capacity, bandwidth);
    var n: int, step := HistogramCount(h) - 1, BwIndex(p.ioType, bandwidth);
    TableEnergy(p.tables.ioEnergyRead(kind, n, step), bandwidth, capacity, p.capacity);
    TableEnergy(p.tables.ioEnergyWrite(kind, n, step), bandwidth, capacity, p.capacity);
    MixedIsMean(p, t.energyPerRead, t.energyPerWrite);
    hide Mixed;
  }

  lemma TableEnergy(e: real, bandwidth: int, capacity: int, total: int)
    requires bandwidth != 0 && total > 0
    ensures var share := capacity as real / total as real;
            e / (bandwidth as real / T_BURST) * share * bandwidth as real * total as real == 4.0 * e * capacity as real
  {
    var b, share := bandwidth as real, capacity as real / total as real;
    var x := e / (b / 4.0);
    assert x * (b / 4.0) == e && share * total as real == capacity as real;
    assert x * share * b * total as real == 4.0 * (x * (b / 4.0)) * (share * total as real);
  }

  /** First loop of the channel constructor: count, capacity and histogram of the DIMMs present. */
  method Tally(dimmCap: seq<int>) returns (n: nat, capacity: int, h: seq<nat>)
    requires forall d | d in dimmCap :: HasSlot(d)
    ensures h == HistogramOf(dimmCap) && capacity == SumInts(dimmCap)
    ensures n == HistogramCount(h) <= |dimmCap|
  {
    n, capacity, h := 0, 0, [0, 0, 0, 0, 0];
    for i := 0 to |dimmCap|
      invariant n == CountPresent(dimmCap[..i]) <= i
      invariant capacity == SumInts(dimmCap[..i]) && h == HistogramOf(dimmCap[..i])
    {
      assert dimmCap[..i + 1] == dimmCap[..i] + [dimmCap[i]];
      HistogramSnoc(dimmCap[..i], dimmCap[i]);
      if dimmCap[i] != 0 {
        var index := SizeIndex(dimmCap[i]);
        h := h[index := h[index] + 1];
        n := n + 1;
        capacity := capacity + dimmCap[i];
      }
    }
    assert dimmCap[..|dimmCap|] == dimmCap;
    HistogramExactIffSupported(dimmCap);
  }

  /** Second loop of the channel constructor. */
  method TotalCost(t: Tables, kind: DimmKind, h: seq<nat>) returns (cost: real)
    requires |h| == 5
    ensures cost == ChannelCost(t, kind, h, 5)
  {
    cost := 0.0;
    for i := 0 to 5
      invariant cost == ChannelCost(t, kind, h, i)
    {
      cost := cost + h[i] as real * t.cost(kind, i);
    }
  }

  class ChannelConf {
    const params: Parameters
    const kind: DimmKind
    const numDimms: nat
    const histogram: seq<nat>
    const lowPower: bool
    const capacity: int
    const bandwidth: int
    const energyPerRead: real
    const energyPerWrite: real
    const energyPerAccess: real
    const cost: real

    function Figures(): Totals {
      Totals(capacity, bandwidth, energyPerRead, energyPerWrite, energyPerAccess, cost)
    }

    ghost predicate Valid() {
      && params.Sound() && bandwidth != 0 && |histogram| == 5
      && numDimms == HistogramCount(histogram) <= DIMM_PER_CHANNEL
      && Figures() == ChannelTotals(params, kind, histogram, capacity, bandwidth)
    }

    /** The bandwidth asked for is kept, whatever the capacity: the assignment that would clear it
        reaches only the parameter that hides the field. */
    constructor (p: Parameters, dimmCap: seq<int>, bandwidth: int, kind: DimmKind, lowPower: bool)
      requires p.Sound() && bandwidth != 0
      requires |dimmCap| <= DIMM_PER_CHANNEL && forall d | d in dimmCap :: HasSlot(d)
      ensures Valid()
      ensures this.params == p && this.kind == kind && this.lowPower == lowPower && this.bandwidth == bandwidth
      ensures histogram == HistogramOf(dimmCap) && capacity == SumInts(dimmCap)
    {
      var n, cap, h := Tally(dimmCap);
      var c := TotalCost(p.tables, kind, h);
      this.params, this.kind, this.lowPower, this.bandwidth := p, kind, lowPower, bandwidth;
      numDimms, histogram, capacity, cost := n, h, cap, c;
      energyPerRead := EnergyPerRead(p, kind, n, cap, bandwidth);
      energyPerWrite := EnergyPerWrite(p, kind, n, cap, bandwidth);
      energyPerAccess := EnergyPerAccess(p, kind, n, cap, bandwidth);
    }
  }

  function ChannelFigure(c: ChannelConf): Totals {
    c.Figures()
  }

  function ChannelFigures(cs: seq<ChannelConf>): (ts: seq<Totals>)
    ensures |ts| == |cs| && forall i | 0 <= i < |cs| :: ts[i] == cs[i].Figures()
  {
    seq(|cs|, i requires 0 <= i < |cs| => cs[i].Figures())
  }

  // ---------------------------------------------------------------- cloning a channel

  /** The DIMM sizes read back from a histogram: all of the slots below i and j of slot i. */
  function Unpacked(h: seq<nat>, i: nat, j: nat): seq<int>
    requires i <= |h|
    decreases i, j
  {
    if j > 0 then Unpacked(h, i, j - 1) + [SizeAt(i)]
    else if i > 0 then Unpacked(h, i - 1, h[i - 1])
    else []
  }

  lemma SlotRoundTrip(i: nat)
    requires i < 5
    ensures Supported(SizeAt(i)) && HasSlot(SizeAt(i)) && SizeIndex(SizeAt(i)) == i
  {
    SlotSizes();
    Pow2Order(SizeIndex(SizeAt(i)), i);
    Pow2Order(i, SizeIndex(SizeAt(i)));
  }

  /** The histogram h cut off after j DIMMs of slot i. */
  function CutOff(h: seq<nat>, i: nat, j: nat): (r: seq<nat>)
    requires |h| == 5
    ensures |r| == 5
  {
    seq(5, x requires 0 <= x < 5 => if x < i then h[x] else if x == i then j else 0)
  }

  lemma UnpackedOneMore(h: seq<nat>, i: nat, j: nat)
    requires |h| == 5 && i < 5 && 0 < j
    requires var rest := Unpacked(h, i, j - 1);
             && (forall d | d in rest :: HasSlot(d)) && AllSupported(rest)
             && HistogramOf(rest) == CutOff(h, i, j - 1) && |rest| == HistogramCount(CutOff(h, i, j - 1))
    ensures forall d | d in Unpacked(h, i, j) :: HasSlot(d)
    ensures AllSupported(Unpacked(h, i, j))
    ensures HistogramOf(Unpacked(h, i, j)) == CutOff(h, i, j)
    ensures |Unpacked(h, i, j)| == HistogramCount(CutOff(h, i, j))
  {
    hide HistogramOf, SizeIndex, SizeAt, Supported, AllSupported, HasSlot, HistogramCapacity, HistogramCount;
    var rest, d := Unpacked(h, i, j - 1), SizeAt(i);
    SlotRoundTrip(i);
    HistogramSnoc(rest, d);
    AllSupportedSnoc(rest, d);
    assert CutOff(h, i, j) == CutOff(h, i, j - 1)[i := CutOff(h, i, j - 1)[i] + 1];
    OneMore(CutOff(h, i, j - 1), i);
  }

  /** Reading a histogram back and tallying it again yields the same histogram. */
  lemma {:induction false} UnpackedHistogram(h: seq<nat>, i: nat, j: nat)
    requires |h| == 5 && i <= 5 && j <= if i < 5 then h[i] else 0
    ensures forall d | d in Unpacked(h, i, j) :: HasSlot(d)
    ensures AllSupported(Unpacked(h, i, j))
    ensures HistogramOf(Unpacked(h, i, j)) == CutOff(h, i, j)
    ensures |Unpacked(h, i, j)| == HistogramCount(CutOff(h, i, j))
    decreases i, j
  {
    if j > 0 {
      UnpackedHistogram(h, i, j - 1);
      UnpackedOneMore(h, i, j);
    } else if i > 0 {
      UnpackedHistogram(h, i - 1, h[i - 1]);
      assert CutOff(h, i, 0) == CutOff(h, i - 1, h[i - 1]);
    }
  }

  /** clone of a channel: what survives is the histogram, so the capacity is the one the histogram
      accounts for, and all figures survive exactly when the original's capacity is that one. */
  method CloneChannel(origin: ChannelConf) returns (c: ChannelConf)
    requires origin.Valid()
    ensures fresh(c) && c.Valid()
    ensures c.params == origin.params && c.kind == origin.kind && c.lowPower == origin.lowPower
    ensures c.bandwidth == origin.bandwidth && c.histogram == origin.histogram
    ensures c.capacity == HistogramCapacity(origin.histogram)
    ensures c.Figures() == origin.Figures() <==> origin.capacity == HistogramCapacity(origin.histogram)
  {
    var h := origin.histogram;
    var temp, size := [], 4;
    for i := 0 to 5
      invariant temp == Unpacked(h, i, 0) && size == SizeAt(i)
    {
      for j := 0 to h[i]
        invariant temp == Unpacked(h, i, j)
      {
        temp := temp + [size];
      }
      size := size * 2;
    }
    UnpackedHistogram(h, 5, 0);
    HistogramExactIffSupported(temp);
    assert CutOff(h, 5, 0) == h;
    c := new ChannelConf(origin.params, temp, origin.bandwidth, origin.kind, origin.lowPower);
  }

  /** A channel built from a DIMM list is cloned without loss exactly when every size is supported. */
  lemma CloneIsFaithfulIffSupported(p: Parameters, kind: DimmKind, dimms: seq<int>, bandwidth: int)
    requires p.Sound() && bandwidth != 0 && forall d | d in dimms :: HasSlot(d)
    ensures var h := HistogramOf(dimms);
            ChannelTotals(p, kind, h, HistogramCapacity(h), bandwidth) ==
            ChannelTotals(p, kind, h, SumInts(dimms), bandwidth)
            <==> AllSupported(dimms)
  {
    HistogramExactIffSupported(dimms);
  }

  // ---------------------------------------------------------------- BoBs and memories

  lemma {:induction false} SumSnoc(ts: seq<Totals>, t: Totals)
    ensures Sum(ts + [t]) == Sum(ts).Plus(t)
  {
    if ts == [] {
      assert [t][1..] == [];
    } else {
      SumSnoc(ts[1..], t);
      assert (ts + [t])[1..] == ts[1..] + [t];
    }
  }

  lemma {:induction false} SumConcat(ts: seq<Totals>, us: seq<Totals>)
    ensures Sum(ts + us) == Sum(ts).Plus(Sum(us))
    decreases us
  {
    if us == [] {
      assert ts + us == ts;
    } else {
      SumSnoc(ts, us[0]);
      SumConcat(ts + [us[0]], us[1..]);
      assert ts + [us[0]] + us[1..] == ts + us;
    }
  }

  class BobConf {
    const channels: seq<ChannelConf>
    const numChannels: nat
    const capacity: int
    const bandwidth: int
    const energyPerRead: real
    const energyPerWrite: real
    const energyPerAccess: real
    const cost: real

    function Figures(): Totals {
      Totals(capacity, bandwidth, energyPerRead, energyPerWrite, energyPerAccess, cost)
    }

    ghost predicate Valid() {
      && numChannels == |channels| <= MAX_NUM_CHANNELS_PER_BOB
      && Figures() == Sum(ChannelFigures(channels))
    }

    constructor (inChannels: seq<ChannelConf>)
      requires |inChannels| <= MAX_NUM_CHANNELS_PER_BOB
      ensures Valid() && channels == inChannels
    {
      var t := ZERO;
      for i := 0 to |inChannels|
        invariant t == Sum(ChannelFigures(inChannels[..i]))
      {
        t := t.Plus(inChannels[i].Figures());
        SumSnoc(ChannelFigures(inChannels[..i]), inChannels[i].Figures());
        assert ChannelFigures(inChannels[..i + 1]) == ChannelFigures(inChannels[..i]) + [inChannels[i].Figures()];
      }
      assert inChannels[..|inChannels|] == inChannels;
      channels, numChannels, capacity, bandwidth := inChannels, |inChannels|, t.capacity, t.bandwidth;
      energyPerRead, energyPerWrite, energyPerAccess := t.energyPerRead, t.energyPerWrite, t.energyPerAccess;
      cost := t.cost;
    }
  }

  function BobFigure(b: BobConf): Totals {
    b.Figures()
  }

  function BobFigures(bs: seq<BobConf>): (ts: seq<Totals>)
    ensures |ts| == |bs| && forall i | 0 <= i < |bs| :: ts[i] == bs[i].Figures()
  {
    seq(|bs|, i requires 0 <= i < |bs| => bs[i].Figures())
  }

  /** clone of a BoB shares the channels and preserves every total. */
  method CloneBob(origin: BobConf) returns (b: BobConf)
    requires origin.Valid()
    ensures fresh(b) && b.Valid() && b.channels == origin.channels && b.Figures() == origin.Figures()
  {
    b := new BobConf(origin.channels);
  }

  class MemoryConf {
    const bobs: seq<BobConf>
    const numBobs: nat
    const capacity: int
    const bandwidth: int
    const energyPerRead: real
    const energyPerWrite: real
    const energyPerAccess: real
    const cost: real

    function Figures(): Totals {
      Totals(capacity, bandwidth, energyPerRead, energyPerWrite, energyPerAccess, cost)
    }

    ghost predicate Valid() {
      && numBobs == |bobs| <= MAX_NUM_BOBS
      && Figures() == Sum(BobFigures(bobs))
    }

    constructor (inBobs: seq<BobConf>)
      requires |inBobs| <= MAX_NUM_BOBS
      ensures Valid() && bobs == inBobs
    {
      var t := ZERO;
      for i := 0 to |inBobs|
        invariant t == Sum(BobFigures(inBobs[..i]))
      {
        t := t.Plus(inBobs[i].Figures());
        SumSnoc(BobFigures(inBobs[..i]), inBobs[i].Figures());
        assert BobFigures(inBobs[..i + 1]) == BobFigures(inBobs[..i]) + [inBobs[i].Figures()];
      }
      assert inBobs[..|inBobs|] == inBobs;
      bobs, numBobs, capacity, bandwidth := inBobs, |inBobs|, t.capacity, t.bandwidth;
      energyPerRead, energyPerWrite, energyPerAccess := t.energyPerRead, t.energyPerWrite, t.energyPerAccess;
      cost := t.cost;
    }
  }

  function MemoryFigure(m: MemoryConf): Totals {
    m.Figures()
  }

  function MemoryFigures(ms: seq<MemoryConf>): (ts: seq<Totals>)
    ensures |ts| == |ms| && forall i | 0 <= i < |ms| :: ts[i] == ms[i].Figures()
  {
    seq(|ms|, i requires 0 <= i < |ms| => ms[i].Figures())
  }

  // ---------------------------------------------------------------- what the search builds

  /** A channel of the search p: its histogram accounts for its capacity, so it is cloned without loss. */
  ghost predicate BuiltChannel(p: Parameters, c: ChannelConf) {
    c.Valid() && c.params == p && c.capacity == HistogramCapacity(c.histogram)
  }

  /** Channels of one bandwidth, and in mirrored mode copies of one channel. */
  ghost predicate Matched(p: Parameters, cs: seq<ChannelConf>) {
    forall i, j | 0 <= i < |cs| && 0 <= j < |cs| ::
      cs[i].bandwidth == cs[j].bandwidth && (p.mirrorInBob ==> cs[i] == cs[j])
  }

  ghost predicate BuiltBob(p: Parameters, b: BobConf) {
    && b.Valid() && |b.channels| == p.numChannelsPerBob && Matched(p, b.channels)
    && forall c | c in b.channels :: BuiltChannel(p, c)
  }

  /** A memory of as many BoBs and of exactly the capacity asked for. */
  ghost predicate BuiltMemory(p: Parameters, m: MemoryConf) {
    m.Valid() && |m.bobs| == p.numBobs && m.capacity == p.capacity && forall b | b in m.bobs :: BuiltBob(p, b)
  }

  // ---------------------------------------------------------------- energy as an average

  /** The channels of a memory, BoB by BoB. */
  function ChannelsOf(bs: seq<BobConf>): seq<ChannelConf> {
    if bs == [] then [] else bs[0].channels + ChannelsOf(bs[1..])
  }

  lemma ChannelFiguresConcat(cs: seq<ChannelConf>, ds: seq<ChannelConf>)
    ensures Sum(ChannelFigures(cs + ds)) == Sum(ChannelFigures(cs)).Plus(Sum(ChannelFigures(ds)))
  {
    SumConcat(ChannelFigures(cs), ChannelFigures(ds));
    assert ChannelFigures(cs + ds) == ChannelFigures(cs) + ChannelFigures(ds);
  }

  lemma BobFiguresCons(bs: seq<BobConf>)
    requires bs != []
    ensures Sum(BobFigures(bs)) == bs[0].Figures().Plus(Sum(BobFigures(bs[1..])))
  {
    assert BobFigures(bs)[1..] == BobFigures(bs[1..]);
  }

  lemma BobTotals(bs: seq<BobConf>)
    requires bs != [] && bs[0].Valid()
    ensures bs[0].Figures() == Sum(ChannelFigures(bs[0].channels))
    ensures ChannelsOf(bs) == bs[0].channels + ChannelsOf(bs[1..])
  {
  }

  /** A memory's figures are those of its channels added up. */
  lemma {:induction false} FiguresOfChannels(bs: seq<BobConf>)
    requires forall b | b in bs :: b.Valid()
    ensures Sum(BobFigures(bs)) == Sum(ChannelFigures(ChannelsOf(bs)))
  {
    hide BobConf.Valid;
    if bs != [] {
      FiguresOfChannels(bs[1..]);
      BobTotals(bs);
      BobFiguresCons(bs);
      ChannelFiguresConcat(bs[0].channels, ChannelsOf(bs[1..]));
    }
  }

  /** Energy per access of a channel that carries all the traffic. */
  function UnscaledEnergy(c: ChannelConf): real
    requires c.params.Sound() && c.bandwidth != 0
  {
    EnergyPerAccess(c.params.(capacityWise := false), c.kind, c.numDimms, c.capacity, c.bandwidth)
  }

  lemma ScaledByShare(c: ChannelConf)
    requires c.Valid() && c.params.capacityWise
    ensures c.energyPerAccess == c.capacity as real / c.params.capacity as real * UnscaledEnergy(c)
  {
    var p, u := c.params, c.params.(capacityWise := false);
    var read := FullEnergy(p.tables.ioEnergyRead, p, c.kind, c.numDimms, c.bandwidth);
    var write := FullEnergy(p.tables.ioEnergyWrite, p, c.kind, c.numDimms, c.bandwidth);
    assert read == EnergyPerRead(u, c.kind, c.numDimms, c.capacity, c.bandwidth);
    assert write == EnergyPerWrite(u, c.kind, c.numDimms, c.capacity, c.bandwidth);
    MixedScales(p, u, read, write, c.capacity as real / p.capacity as real);
  }

  lemma MixedScales(p: Parameters, u: Parameters, read: real, write: real, share: real)
    requires p.Sound() && u.Sound() && u.rdToWrRatio == p.rdToWrRatio
    ensures Mixed(p, read * share, write * share) == share * Mixed(u, read, write)
  {
    var a, b := p.rdToWrRatio / (1.0 + p.rdToWrRatio), 1.0 / (1.0 + p.rdToWrRatio);
    assert a * (read * share) + b * (write * share) == share * (a * read + b * write);
  }

  /** The energy lies between lo and hi, each weighted by the share of the total capacity. */
  ghost predicate Averaged(t: Totals, total: int, lo: real, hi: real)
    requires total > 0
  {
    lo * (t.capacity as real / total as real) <= t.energyPerAccess <= hi * (t.capacity as real / total as real)
  }

  lemma AveragedPlus(t: Totals, u: Totals, total: int, lo: real, hi: real)
    requires total > 0 && Averaged(t, total, lo, hi) && Averaged(u, total, lo, hi)
    ensures Averaged(t.Plus(u), total, lo, hi)
  {
    var x, y := t.capacity as real / total as real, u.capacity as real / total as real;
    assert t.Plus(u).capacity as real / total as real == x + y;
    assert lo * (x + y) == lo * x + lo * y;
    assert hi * (x + y) == hi * x + hi * y;
  }

  lemma ChannelAveraged(c: ChannelConf, lo: real, hi: real)
    requires c.Valid() && c.params.capacityWise && c.capacity >= 0
    requires c.capacity > 0 ==> lo <= UnscaledEnergy(c) <= hi
    ensures Averaged(c.Figures(), c.params.capacity, lo, hi)
  {
    ScaledByShare(c);
    var share, u := c.capacity as real / c.params.capacity as real, UnscaledEnergy(c);
    if c.capacity == 0 {
      assert share == 0.0;
    } else {
      WeightBounds(share, u, lo, hi);
    }
  }

  lemma WeightBounds(share: real, u: real, lo: real, hi: real)
    requires share >= 0.0 && lo <= u <= hi
    ensures lo * share <= share * u <= hi * share
  {
  }

  /** The channels that hold anything have unscaled energies between lo and hi. */
  ghost predicate ChannelsBetween(cs: seq<ChannelConf>, p: Parameters, lo: real, hi: real) {
    forall c | c in cs :: BuiltChannel(p, c) && (c.capacity > 0 ==> lo <= UnscaledEnergy(c) <= hi)
  }

  lemma {:induction false} ChannelsAveraged(cs: seq<ChannelConf>, p: Parameters, lo: real, hi: real)
    requires p.Sound() && p.capacityWise && ChannelsBetween(cs, p, lo, hi)
    ensures Averaged(Sum(ChannelFigures(cs)), p.capacity, lo, hi)
  {
    if cs == [] {
      assert 0 as real / p.capacity as real == 0.0;
    } else {
      assert cs[0] in cs && forall c | c in cs[1..] :: c in cs;
      ChannelsAveraged(cs[1..], p, lo, hi);
      assert ChannelFigures(cs)[1..] == ChannelFigures(cs[1..]);
      ChannelAveraged(cs[0], lo, hi);
      AveragedPlus(cs[0].Figures(), Sum(ChannelFigures(cs[1..])), p.capacity, lo, hi);
    }
  }

  lemma {:induction false} BuiltChannelsOf(p: Parameters, bs: seq<BobConf>)
    requires forall b | b in bs :: BuiltBob(p, b)
    ensures forall c | c in ChannelsOf(bs) :: BuiltChannel(p, c)
  {
    if bs != [] {
      assert bs[0] in bs && forall b | b in bs[1..] :: b in bs;
      BuiltChannelsOf(p, bs[1..]);
    }
  }

  /** The capacity shares of a memory that the search builds sum to 1, so its energy per access is an
      average of its channels' unscaled energies: between the least and the greatest of them. */
  lemma MemoryEnergyIsAverage(m: MemoryConf, p: Parameters, lo: real, hi: real)
    requires p.Sound() && p.capacityWise && BuiltMemory(p, m)
    requires forall c | c in ChannelsOf(m.bobs) && c.params.Sound() && c.bandwidth != 0 && c.capacity > 0 ::
               lo <= UnscaledEnergy(c) <= hi
    ensures lo <= m.energyPerAccess <= hi
  {
    BuiltChannelsOf(p, m.bobs);
    FiguresOfChannels(m.bobs);
    ChannelsAveraged(ChannelsOf(m.bobs), p, lo, hi);
    WholeShare(m.Figures(), p.capacity, lo, hi);
  }

  lemma WholeShare(t: Totals, total: int, lo: real, hi: real)
    requires total > 0 && t.capacity == total && Averaged(t, total, lo, hi)
    ensures lo <= t.energyPerAccess <= hi
  {
    assert t.capacity as real / total as real == 1.0;
    assert lo * 1.0 == lo && hi * 1.0 == hi;
  }
}
