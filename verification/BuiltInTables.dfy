/** The built-in tables. Under them the tolerance never acts on the channels on offer, so the search meets its
    assumptions with the parameters it is shipped with. */
module BuiltInTables {
  import opened Arithmetic
  import opened Metrics
  import opened Pruning
  import opened Configurations
  import opened Offers
  import opened Designs

  function Nth(i: int, x0: int, x1: int, x2: int, x3: int): int {
    if i <= 0 then x0 else if i == 1 then x1 else if i == 2 then x2 else x3
  }

  /** Bandwidth steps. The empty channel reads past the row, which for DDR3 finds 800 again. */
  function BandwidthLoad(t: IoType, b: int): int {
    match t
    case DDR3 => Nth(b, 400, 533, 667, 800)
    case DDR4 => Nth(b, 800, 933, 1066, 1200)
  }

  /** Prices in hundredths, by kind and size. */
  function Price(t: IoType, k: DimmKind, i: int): int {
    match (t, k)
    case (DDR3, UDIMM) => Nth(i, 4038, 7613, 999999900, 999999900)
    case (DDR3, RDIMM) => if i < 4 then Nth(i, 4224, 6417, 12260, 30430) else 999999900
    case (DDR3, LRDIMM) => if i < 4 then Nth(i, 999999900, 999999900, 21130, 28750) else 107950
    case (DDR4, UDIMM) => Nth(i, 2599, 4599, 999999900, 999999900)
    case (DDR4, RDIMM) => if i < 4 then Nth(i, 3299, 6045, 12600, 29630) else 999999900
    case (DDR4, LRDIMM) => if i < 4 then Nth(i, 999999900, 999999900, 27899, 33300) else 147400
  }

  /** I/O energy of a read in thousandths, by kind, number of further DIMMs and bandwidth step. */
  function ReadEnergy(t: IoType, k: DimmKind, n: int, b: int): int {
    match (t, k)
    case (DDR3, UDIMM) =>
      if n <= 0 then Nth(b, 2592330, 2593330, 3288784, 4348612)
      else if n == 1 then Nth(b, 2638230, 2640230, 3941584, 5415492)
      else Nth(b, 2978659, 2981659, 4816644, 6964162)
    case (DDR3, RDIMM) =>
      if n <= 0 then Nth(b, 2592330, 3087071, 3865044, 4844982)
      else if n == 1 then Nth(b, 2932759, 3733318, 4237634, 5415492)
      else Nth(b, 3572509, 4603109, 5300004, 6964162)
    case (DDR3, LRDIMM) =>
      if n <= 0 then Nth(b, 4628966, 6357625, 7079348, 9680454)
      else if n == 1 then Nth(b, 5368260, 6418788, 7428058, 10057164)
      else Nth(b, 5708689, 7065038, 7808678, 10627674)
    case (DDR4, UDIMM) =>
      if n <= 0 then Nth(b, 2135906, 2633317, 2750919, 2869406)
      else if n == 1 then Nth(b, 2458714, 2695791, 2822298, 3211111)
      else Nth(b, 2622850, 3030048, 3160265, 3534448)
    case (DDR4, RDIMM) =>
      if n <= 0 then Nth(b, 2135906, 2633317, 2750919, 2869406)
      else if n == 1 then Nth(b, 2458714, 2695791, 3088886, 3211111)
      else Nth(b, 2622850, 3030048, 3312468, 3758445)
    case (DDR4, LRDIMM) =>
      if n <= 0 then Nth(b, 4226903, 5015342, 5490610, 5979864)
      else if n == 1 then Nth(b, 4280471, 5319132, 5668945, 6060216)
      else Nth(b, 4603279, 5381605, 5740325, 6401926)
  }

  /** I/O energy of a write in thousandths. */
  function WriteEnergy(t: IoType, k: DimmKind, n: int, b: int): int {
    match (t, k)
    case (DDR3, UDIMM) =>
      if n <= 0 then Nth(b, 2758951, 2984854, 3571804, 4838902)
      else if n == 1 then Nth(b, 2804851, 3768524, 4352214, 5580362)
      else Nth(b, 3213897, 3829684, 5425854, 6933512)
    case (DDR3, RDIMM) =>
      if n <= 0 then Nth(b, 2758951, 3346104, 3931154, 4838902)
      else if n == 1 then Nth(b, 3167997, 4114754, 4696724, 5580362)
      else Nth(b, 3561831, 3829684, 6039994, 8075542)
    case (DDR3, LRDIMM) =>
      if n <= 0 then Nth(b, 4872238, 5374314, 7013868, 9267574)
      else if n == 1 then Nth(b, 5701502, 6214348, 7449758, 10045004)
      else Nth(b, 5747402, 6998018, 8230168, 10786464)
    case (DDR4, UDIMM) =>
      if n <= 0 then Nth(b, 2525129, 2840853, 2979037, 3293608)
      else if n == 1 then Nth(b, 2933756, 3080126, 3226497, 3979698)
      else Nth(b, 3293964, 3753370, 3906137, 4312448)
    case (DDR4, RDIMM) =>
      if n <= 0 then Nth(b, 2525129, 2840853, 3155117, 3293608)
      else if n == 1 then Nth(b, 2933756, 3080126, 3834757, 3979698)
      else Nth(b, 3293964, 3753370, 4413037, 5358078)
    case (DDR4, LRDIMM) =>
      if n <= 0 then Nth(b, 4816453, 5692314, 5996134, 6652936)
      else if n == 1 then Nth(b, 4870021, 5754788, 6067514, 6908636)
      else Nth(b, 5298373, 5994070, 6491054, 7594726)
  }

  function BuiltIn(t: IoType): Tables {
    Tables((b: int) => BandwidthLoad(t, b),
           (k: DimmKind, i: int) => Price(t, k, i) as real / 100.0,
           (k: DimmKind, n: int, b: int) => ReadEnergy(t, k, n, b) as real / 1000.0,
           (k: DimmKind, n: int, b: int) => WriteEnergy(t, k, n, b) as real / 1000.0)
  }

  // ---------------------------------------------------------------- energy levels

  /** The bandwidths of an I/O type divide this number, the quotients being the periods. */
  function Cycle(t: IoType): int {
    match t
    case DDR3 => 284408800
    case DDR4 => 397831200
  }

  function Period(t: IoType, b: int): int {
    match t
    case DDR3 => Nth(b, 711022, 533600, 426400, 355511)
    case DDR4 => Nth(b, 497289, 426400, 373200, 331526)
  }

  /** Energy per access at two reads for each write, in units that make it an integer. */
  function Rate(t: IoType, k: DimmKind, n: int, b: int): int {
    (2 * ReadEnergy(t, k, n, b) + WriteEnergy(t, k, n, b)) * Period(t, b)
  }

  /** The rates that occur, in ascending order, and the place of each rate among them. */
  function LevelOf(t: IoType, k: DimmKind, n: int, b: int): int {
    match (t, k)
    case (DDR3, UDIMM) =>
      if n <= 0 then Nth(b, 10, 1, 0, 2)
      else if n == 1 then Nth(b, 11, 3, 7, 12)
      else Nth(b, 16, 8, 14, 19)
    case (DDR3, RDIMM) =>
      if n <= 0 then Nth(b, 10, 5, 4, 6)
      else if n == 1 then Nth(b, 15, 13, 9, 12)
      else Nth(b, 20, 17, 18, 21)
    case (DDR3, LRDIMM) =>
      if n <= 0 then Nth(b, 25, 24, 22, 28)
      else if n == 1 then Nth(b, 32, 26, 23, 29)
      else Nth(b, 33, 30, 27, 31)
    case (DDR4, UDIMM) =>
      if n <= 0 then Nth(b, 4, 6, 1, 0)
      else if n == 1 then Nth(b, 11, 7, 3, 5)
      else Nth(b, 14, 13, 10, 9)
    case (DDR4, RDIMM) =>
      if n <= 0 then Nth(b, 4, 6, 2, 0)
      else if n == 1 then Nth(b, 11, 7, 8, 5)
      else Nth(b, 14, 13, 12, 15)
    case (DDR4, LRDIMM) =>
      if n <= 0 then Nth(b, 20, 22, 18, 16)
      else if n == 1 then Nth(b, 21, 25, 19, 17)
      else Nth(b, 27, 26, 23, 24)
  }

  function Level(t: IoType, i: int): int {
    match t
    case DDR3 =>
      if i < 4 then Nth(i, 4327692220800, 4360319870400, 4812241690386, 4828537862400)
      else if i < 8 then Nth(i - 4, 4972353588800, 5080003265600, 5165171680526, 5217166884800)
      else if i < 12 then Nth(i - 8, 5225545867200, 5616537388800, 5648082180442, 5745989909842)
      else if i < 16 then Nth(i - 12, 5834414027806, 6179829704000, 6421218148800, 6423027902330)
      else if i < 20 then Nth(i - 16, 6520935631730, 6955957307200, 7095296852800, 7416612178196)
      else if i < 24 then Nth(i - 20, 7612805189678, 7822616405526, 9027981289600, 9511224673600)
      else if i < 28 then Nth(i - 24, 9652591350400, 10046861733740, 10166106646400, 10168584233600)
      else if i < 32 then Nth(i - 28, 10177740264302, 10721974278652, 11273950958400, 11391216625932)
      else Nth(i - 32, 11687795278484, 12204536205160, 12204536205160, 12204536205160)
    case DDR4 =>
      if i < 4 then Nth(i, 2994482072920, 3165062550000, 3230775606000, 3310691907600)
      else if i < 8 then Nth(i - 4, 3380043992949, 3448506929920, 3457032456800, 3612336291200)
      else if i < 12 then Nth(i - 8, 3736675822800, 3773211450944, 3816592124400, 3904307440176)
      else if i < 16 then Nth(i - 12, 4119371523600, 4184461902400, 4246680970896, 4268386641168)
      else if i < 20 then Nth(i - 16, 6170582045264, 6308630797768, 6335948512800, 6495696772800)
      else if i < 24 then Nth(i - 20, 6599153827851, 6679070159307, 6704286347200, 6707039932800)
      else Nth(i - 24, 6762658970028, 6989997372800, 7145304192000, 7213142632059)
  }

  const GAP := 1800000000

  lemma RateIsLevel(t: IoType, k: DimmKind, n: int, b: int)
    ensures Rate(t, k, n, b) == Level(t, LevelOf(t, k, n, b))
    ensures 0 <= LevelOf(t, k, n, b) < if t.DDR3? then 34 else 28
  {
  }

  lemma NextLevel(t: IoType, i: int)
    requires 0 <= i && i + 1 < if t.DDR3? then 34 else 28
    ensures Level(t, i + 1) >= Level(t, i) + GAP
  {
  }

  lemma {:induction false} LevelsApart(t: IoType, i: int, j: int)
    requires 0 <= i < j < if t.DDR3? then 34 else 28
    ensures Level(t, j) >= Level(t, i) + GAP
    decreases j
  {
    hide Level;
    NextLevel(t, j - 1);
    if i < j - 1 {
      LevelsApart(t, i, j - 1);
    }
  }

  /** Two rates are equal or far apart. */
  lemma RatesApart(t: IoType, k: DimmKind, n: int, b: int, l: DimmKind, m: int, c: int)
    ensures var x, y := Rate(t, k, n, b), Rate(t, l, m, c); x == y || x >= y + GAP || y >= x + GAP
  {
    hide Rate, Level, LevelOf;
    RateIsLevel(t, k, n, b);
    RateIsLevel(t, l, m, c);
    var i, j := LevelOf(t, k, n, b), LevelOf(t, l, m, c);
    if i < j {
      LevelsApart(t, i, j);
    } else if j < i {
      LevelsApart(t, j, i);
    }
  }

  // ---------------------------------------------------------------- the channels on offer are apart

  /** A run with the built-in tables. The source fixes the other two parameters to these values. */
  ghost predicate BuiltInRun(p: Parameters) {
    p.tables == BuiltIn(p.ioType) && p.capacityWise && p.rdToWrRatio == 2.0 && 0 < p.capacity <= 200000
  }

  function Unit(t: IoType): real {
    4.0 / (3000.0 * Cycle(t) as real)
  }

  lemma UnitFacts(t: IoType, b: int)
    ensures Unit(t) * Cycle(t) as real == 4.0 / 3000.0 && Unit(t) > 0.0
    ensures 0 <= b <= 3 ==> BandwidthLoad(t, b) as real * Period(t, b) as real == Cycle(t) as real
  {
  }

  /** One table entry at a bandwidth step, before the load share is applied. */
  lemma StepEnergy(t: IoType, x: int, b: int)
    requires 0 <= b <= 3
    ensures x as real / 1000.0 / (BandwidthLoad(t, b) as real / 4.0) == 3.0 * (Unit(t) * (x * Period(t, b)) as real)
  {
    UnitFacts(t, b);
    hide Unit, Cycle, Period;
    var e, p, l := x as real, Period(t, b) as real, BandwidthLoad(t, b) as real;
    var m := Unit(t) * (x * Period(t, b)) as real;
    assert (x * Period(t, b)) as real == e * p;
    SameProduct(Unit(t), (x * Period(t, b)) as real, e * p);
    Cancelled(e, Unit(t), l, p, Cycle(t) as real, m);
    SameFactor(e / 1000.0 / (l / 4.0), 3.0 * m, l / 4.0);
  }

  lemma Cancelled(e: real, u: real, l: real, p: real, c: real, m: real)
    requires l * p == c && u * c == 4.0 / 3000.0 && m == u * (e * p)
    ensures 3.0 * m * (l / 4.0) == e / 1000.0
  {
    SameProduct(u * e, l * p, c);
    SameProduct(e, u * c, 4.0 / 3000.0);
    assert u * (e * p) * l == u * e * (l * p) && u * e * c == e * (u * c);
    SameProduct(l, m, u * (e * p));
    assert 3.0 * m * (l / 4.0) == 0.75 * (l * m);
  }

  lemma SameProduct(f: real, x: real, y: real)
    requires x == y
    ensures f * x == f * y
  {
  }

  lemma FullEnergies(p: Parameters, k: DimmKind, n: nat, b: int)
    requires BuiltInRun(p) && n >= 1 && 0 <= b <= 3
    ensures BandwidthLoad(p.ioType, b) != 0
    ensures FullEnergy(p.tables.ioEnergyRead, p, k, n, BandwidthLoad(p.ioType, b)) ==
            3.0 * (Unit(p.ioType) * (ReadEnergy(p.ioType, k, n - 1, b) * Period(p.ioType, b)) as real)
    ensures FullEnergy(p.tables.ioEnergyWrite, p, k, n, BandwidthLoad(p.ioType, b)) ==
            3.0 * (Unit(p.ioType) * (WriteEnergy(p.ioType, k, n - 1, b) * Period(p.ioType, b)) as real)
  {
    assert BwIndex(p.ioType, BandwidthLoad(p.ioType, b)) == b && BandwidthLoad(p.ioType, b) != 0;
    hide BandwidthLoad, Period, Unit, ReadEnergy, WriteEnergy, BwIndex;
    StepEnergy(p.ioType, ReadEnergy(p.ioType, k, n - 1, b), b);
    StepEnergy(p.ioType, WriteEnergy(p.ioType, k, n - 1, b), b);
  }

  lemma AccessEnergy(p: Parameters, k: DimmKind, n: nat, capacity: int, bandwidth: int)
    requires p.Sound() && bandwidth != 0
    ensures EnergyPerAccess(p, k, n, capacity, bandwidth) ==
            Mixed(p, FullEnergy(p.tables.ioEnergyRead, p, k, n, bandwidth) * LoadShare(p, capacity),
                  FullEnergy(p.tables.ioEnergyWrite, p, k, n, bandwidth) * LoadShare(p, capacity))
  {
    var read, write := EnergyPerRead(p, k, n, capacity, bandwidth), EnergyPerWrite(p, k, n, capacity, bandwidth);
    assert read == FullEnergy(p.tables.ioEnergyRead, p, k, n, bandwidth) * LoadShare(p, capacity);
    assert write == FullEnergy(p.tables.ioEnergyWrite, p, k, n, bandwidth) * LoadShare(p, capacity);
    hide *;
  }

  /** The energy per access at a rate, for a channel of that capacity. */
  function AtRate(p: Parameters, capacity: int, rate: int): real
    requires p.Sound()
  {
    LoadShare(p, capacity) * (Unit(p.ioType) * rate as real)
  }

  /** The energy of a channel that is not empty is its share of the capacity times a rate. */
  lemma ChannelEnergy(p: Parameters, k: DimmKind, n: nat, capacity: int, b: int)
    requires BuiltInRun(p) && n >= 1 && 0 <= b <= 3
    ensures BandwidthLoad(p.ioType, b) != 0
    ensures EnergyPerAccess(p, k, n, capacity, BandwidthLoad(p.ioType, b)) ==
            AtRate(p, capacity, Rate(p.ioType, k, n - 1, b))
  {
    hide ReadEnergy, WriteEnergy, Period, Unit, LoadShare, BandwidthLoad, FullEnergy, BuiltIn, Rate;
    hide EnergyPerAccess, AtRate;
    var t := p.ioType;
    var x, y := ReadEnergy(t, k, n - 1, b) * Period(t, b), WriteEnergy(t, k, n - 1, b) * Period(t, b);
    FullEnergies(p, k, n, b);
    RateParts(t, k, n - 1, b);
    AccessTwoToOne(p, k, n, capacity, BandwidthLoad(t, b), x, y, Rate(t, k, n - 1, b));
  }

  lemma AccessTwoToOne(p: Parameters, k: DimmKind, n: nat, capacity: int, bandwidth: int, x: int, y: int, z: int)
    requires p.Sound() && bandwidth != 0 && p.rdToWrRatio == 2.0 && z == 2 * x + y
    requires FullEnergy(p.tables.ioEnergyRead, p, k, n, bandwidth) == 3.0 * (Unit(p.ioType) * x as real)
    requires FullEnergy(p.tables.ioEnergyWrite, p, k, n, bandwidth) == 3.0 * (Unit(p.ioType) * y as real)
    ensures EnergyPerAccess(p, k, n, capacity, bandwidth) == AtRate(p, capacity, z)
  {
    AccessEnergy(p, k, n, capacity, bandwidth);
    var read := FullEnergy(p.tables.ioEnergyRead, p, k, n, bandwidth);
    var write := FullEnergy(p.tables.ioEnergyWrite, p, k, n, bandwidth);
    MixedTwoToOne(p, LoadShare(p, capacity), Unit(p.ioType), x, y, z, read, write);
    assert AtRate(p, capacity, z) == LoadShare(p, capacity) * (Unit(p.ioType) * z as real);
    hide *;
  }

  lemma RateParts(t: IoType, k: DimmKind, n: int, b: int)
    ensures Rate(t, k, n, b) == 2 * (ReadEnergy(t, k, n, b) * Period(t, b)) + WriteEnergy(t, k, n, b) * Period(t, b)
  {
    hide ReadEnergy, WriteEnergy, Period;
  }

  lemma MixedTwoToOne(p: Parameters, share: real, u: real, x: int, y: int, z: int, read: real, write: real)
    requires z == 2 * x + y && p.Sound() && p.rdToWrRatio == 2.0
    requires read == 3.0 * (u * x as real) && write == 3.0 * (u * y as real)
    ensures Mixed(p, read * share, write * share) == share * (u * z as real)
  {
    var a, b := u * x as real, u * y as real;
    assert u * z as real == 2.0 * a + b;
    assert read * share == 3.0 * (a * share) && write * share == 3.0 * (b * share);
    assert share * (2.0 * a + b) == 2.0 * (a * share) + b * share;
  }

  lemma SharesApart(p: Parameters, capacity: int, x: int, y: int)
    requires BuiltInRun(p) && capacity >= 4 && (x == y || x >= y + GAP || y >= x + GAP)
    ensures AtRate(p, capacity, x) == AtRate(p, capacity, y) || !Near(AtRate(p, capacity, x), AtRate(p, capacity, y))
  {
    hide AtRate;
    if x >= y + GAP {
      FarApart(p, capacity, x, y);
    } else if y >= x + GAP {
      FarApart(p, capacity, y, x);
    }
  }

  lemma WideGap(t: IoType)
    ensures Unit(t) > 0.0 && Unit(t) * 1800000000.0 > 0.006
  {
  }

  lemma SmallestShare(c: int, total: int)
    requires c >= 4 && 0 < total <= 200000
    ensures c as real / total as real >= 0.00002
  {
    var q := c as real / total as real;
    assert q * total as real == c as real;
    if q < 0.00002 {
      SmallerProduct(q, 0.00002, total as real);
    }
  }

  lemma SmallerProduct(x: real, y: real, f: real)
    requires x < y && f > 0.0
    ensures x * f < y * f
  {
    assert (y - x) * f > 0.0;
  }

  lemma FarApart(p: Parameters, capacity: int, x: int, y: int)
    requires BuiltInRun(p) && capacity >= 4 && x >= y + GAP
    ensures AtRate(p, capacity, x) - AtRate(p, capacity, y) > EPS
  {
    SmallestShare(capacity, p.capacity);
    WideGap(p.ioType);
    FarProducts(LoadShare(p, capacity), Unit(p.ioType), x as real, y as real);
    assert AtRate(p, capacity, x) == LoadShare(p, capacity) * (Unit(p.ioType) * x as real);
    assert AtRate(p, capacity, y) == LoadShare(p, capacity) * (Unit(p.ioType) * y as real);
    hide *;
  }

  lemma FarProducts(s: real, u: real, x: real, y: real)
    requires s >= 0.00002 && u > 0.0 && u * 1800000000.0 > 0.006 && x >= y + 1800000000.0
    ensures s * (u * x) - s * (u * y) > EPS
  {
    assert u * (x - y) >= u * 1800000000.0;
    var d := u * (x - y);
    assert u * x - u * y == d && s * d >= 0.00002 * d;
    assert s * (u * x) - s * (u * y) == s * (u * x - u * y);
  }

  function OfferedRate(t: IoType, c: Choice): int {
    Rate(t, c.kind, DimmCount(c) - 1, c.bwId)
  }

  lemma OfferedEnergy(p: Parameters, c: Choice)
    requires Usable(p) && BuiltInRun(p) && InTable(c) && c.bwId <= 3
    ensures SizeOf(c) == 0 ==> ChoiceFigures(p, c).energyPerAccess == 0.0
    ensures SizeOf(c) != 0 ==> ChoiceFigures(p, c).energyPerAccess == AtRate(p, SizeOf(c), OfferedRate(p.ioType, c))
  {
    DimmsFacts(c);
    TableBandwidth(p, c.bwId);
    var n := DimmCount(c);
    hide AtRate, Rate, BandwidthLoad, BuiltIn, HistogramOf, DimmsOf, EnergyPerAccess, EnergyPerRead, EnergyPerWrite;
    if SizeOf(c) == 0 {
      NoEnergy(p, c.kind, n, p.tables.bandwidthLoad(c.bwId));
    } else {
      SomeDimm(c);
      ChannelEnergy(p, c.kind, n, SizeOf(c), c.bwId);
    }
  }

  lemma TableBandwidth(p: Parameters, b: int)
    requires BuiltInRun(p)
    ensures p.tables.bandwidthLoad(b) == BandwidthLoad(p.ioType, b) != 0
  {
  }

  lemma SomeDimm(c: Choice)
    requires InTable(c) && SizeOf(c) != 0
    ensures SizeOf(c) >= 4 && DimmCount(c) >= 1
  {
  }

  lemma NoEnergy(p: Parameters, k: DimmKind, n: nat, bandwidth: int)
    requires p.Sound() && p.capacityWise && bandwidth != 0
    ensures EnergyPerAccess(p, k, n, 0, bandwidth) == 0.0
  {
    assert LoadShare(p, 0) == 0.0;
    assert EnergyPerRead(p, k, n, 0, bandwidth) == 0.0 && EnergyPerWrite(p, k, n, 0, bandwidth) == 0.0;
  }

  /** With the built-in tables, for every ranking and up to 200 TB, the energies of any two channels on offer
      with the same capacity are equal or more than EPS apart. */
  lemma OfferIsApart(p: Parameters, all: seq<Totals>)
    requires Usable(p) && BuiltInRun(p) && AllFigures(p, all)
    ensures Apart(p.ranking, all)
  {
    forall x, y | x in all && y in all && x.capacity == y.capacity
      ensures x.energyPerAccess == y.energyPerAccess || !Near(x.energyPerAccess, y.energyPerAccess)
    {
      var c :| OnOffer(p, c) && ChoiceFigures(p, c) == x;
      var d :| OnOffer(p, d) && ChoiceFigures(p, d) == y;
      ChoicesApart(p, c, d);
    }
  }

  lemma ChoicesApart(p: Parameters, c: Choice, d: Choice)
    requires Usable(p) && BuiltInRun(p) && OnOffer(p, c) && OnOffer(p, d)
    requires ChoiceFigures(p, c).capacity == ChoiceFigures(p, d).capacity
    ensures var x, y := ChoiceFigures(p, c).energyPerAccess, ChoiceFigures(p, d).energyPerAccess; x == y || !Near(x, y)
  {
    OfferedSize(p, c);
    OfferedSize(p, d);
    OfferedEnergy(p, c);
    OfferedEnergy(p, d);
    hide OnOffer, ChoiceFigures, Rate, Near, AtRate, SizeOf, DimmCount;
    if SizeOf(c) != 0 {
      SomeDimm(c);
      var n, m := DimmCount(c) - 1, DimmCount(d) - 1;
      RatesApart(p.ioType, c.kind, n, c.bwId, d.kind, m, d.bwId);
      SharesApart(p, SizeOf(c), OfferedRate(p.ioType, c), OfferedRate(p.ioType, d));
    }
  }

  /** The parameters of the configuration file that is shipped. */
  const SHIPPED := Parameters(DDR3, BuiltIn(DDR3), 80, 1, 1, true, Ranking(Cost, Metrics.Bandwidth, Energy), ALL,
                              false, 2.0, true, false)

  /** The whole search meets its assumptions with the shipped parameters and tables. */
  lemma ShippedIsSolvable()
    ensures Solvable(SHIPPED) && EnergiesApart(SHIPPED)
  {
    var c := Choice(0, 0, 1, UDIMM, 0, false);
    SmallDimm(SHIPPED, c);
    assert OnOffer(SHIPPED, c);
    forall all | AllFigures(SHIPPED, all)
      ensures Apart(SHIPPED.ranking, all)
    {
      OfferIsApart(SHIPPED, all);
    }
    SingleSortsFit(SHIPPED, Exact);
  }

  lemma SmallDimm(p: Parameters, c: Choice)
    requires Usable(p) && InTable(c) && c.bwId <= 3 && SizeOf(c) == 4
    ensures ChoiceFigures(p, c).cost == p.tables.cost(c.kind, 0)
  {
    DimmsFacts(c);
    var price := i => p.tables.cost(c.kind, i);
    CostOf(p.tables, c.kind, ChoiceHistogram(c), [price(0), price(1), price(2), price(3), price(4)]);
  }

  lemma CostOf(t: Tables, k: DimmKind, h: seq<nat>, prices: seq<real>)
    requires |h| == 5 && |prices| == 5 && forall i | 0 <= i < 5 :: prices[i] == t.cost(k, i)
    ensures ChannelCost(t, k, h, 5) == h[0] as real * prices[0] + h[1] as real * prices[1] +
              h[2] as real * prices[2] + h[3] as real * prices[3] + h[4] as real * prices[4]
  {
    assert ChannelCost(t, k, h, 0) == 0.0;
    assert ChannelCost(t, k, h, 1) == h[0] as real * prices[0];
    assert ChannelCost(t, k, h, 2) == ChannelCost(t, k, h, 1) + h[1] as real * prices[1];
    assert ChannelCost(t, k, h, 3) == ChannelCost(t, k, h, 2) + h[2] as real * prices[2];
    assert ChannelCost(t, k, h, 4) == ChannelCost(t, k, h, 3) + h[3] as real * prices[3];
  }
}
