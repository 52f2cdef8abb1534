/** The grid exploration of the non-uniform cache model. */
module Nuca {
  import opened Arithmetic
  import opened Combinatorics
  import opened BasicCircuit

  /** Latency in cycles from the controller to the first bank. */
  const CONTR_2_BANK_LAT := 0

  // ---------------------------------------------------------------- average hops and latency

  /** Sums over all banks of an r by c grid, doubled so that they stay integers. */
  function VerticalHops2(r: int, c: int): int { r * c * (r + 1) }

  function HorizontalHops2(r: int, c: int): int { r * c * (c - 1) }

  function Latency2(r: int, c: int, ver: int, hor: int): int { r * c * (ver * (r - 1) + hor * (c - 1)) }

  /** The inner loop: one row of banks, added to the totals so far. */
  method AddRow(i: nat, c: nat, ver: nat, hor: nat, hhops0: int, vhops0: int, lat0: int)
    returns (hops: int, hhops: int, vhops: int, lat: int)
    ensures vhops == vhops0 + c * (i + 1) && 2 * (hhops - hhops0) == c * (c - 1) && hops == hhops + vhops
    ensures lat == lat0 + ver * (i * c) + hor * (hhops - hhops0)
  {
    hhops, vhops, lat, hops := hhops0, vhops0, lat0, hhops0 + vhops0;
    for j := 0 to c
      invariant vhops == vhops0 + j * (i + 1) && 2 * (hhops - hhops0) == j * (j - 1) && hops == hhops + vhops
      invariant lat == lat0 + ver * (i * j) + hor * (hhops - hhops0)
    {
      var currHop := i + 1;
      currHop := currHop + j;
      LatencyStep(ver, hor, i * j, i, hhops - hhops0, j);
      hhops := hhops + j;
      vhops := vhops + (i + 1);
      var currAcclat := i * ver + CONTR_2_BANK_LAT + j * hor;
      lat := lat + currAcclat;
      hops := hops + currHop;
    }
  }

  /** The loops over the banks of a grid: total, horizontal and vertical hops and total latency. */
  method SumOverBanks(r: nat, c: nat, ver: nat, hor: nat) returns (hops: int, hhops: int, vhops: int, lat: int)
    ensures 2 * vhops == VerticalHops2(r, c)
    ensures 2 * hhops == HorizontalHops2(r, c)
    ensures 2 * hops == r * c * (r + c)
    ensures 2 * lat == Latency2(r, c, ver, hor)
  {
    hops, hhops, vhops, lat := 0, 0, 0, 0;
    for i := 0 to r
      invariant 2 * vhops == c * i * (i + 1) && 2 * hhops == i * c * (c - 1) && hops == hhops + vhops
      invariant lat == ver * (vhops - i * c) + hor * hhops
    {
      ghost var v0, h0 := vhops, hhops;
      hops, hhops, vhops, lat := AddRow(i, c, ver, hor, hhops, vhops, lat);
      RowStep(i, c, ver, hor, v0, vhops, h0, hhops);
    }
    GridTotals(r, c, ver, hor, vhops, hhops, lat);
  }

  lemma LatencyStep(ver: int, hor: int, v: int, i: int, h: int, j: int)
    ensures ver * v + hor * h + (i * ver + j * hor) == ver * (v + i) + hor * (h + j)
  {
  }

  lemma RowStep(i: int, c: int, ver: int, hor: int, v0: int, v: int, h0: int, h: int)
    requires 2 * v0 == c * i * (i + 1) && 2 * h0 == i * c * (c - 1)
    requires v == v0 + c * (i + 1) && 2 * (h - h0) == c * (c - 1)
    ensures 2 * v == c * (i + 1) * (i + 2) && 2 * h == (i + 1) * c * (c - 1)
    ensures ver * (v0 - i * c) + hor * h0 + ver * (i * c) + hor * (h - h0) == ver * (v - (i + 1) * c) + hor * h
  {
    assert c * i * (i + 1) + 2 * (c * (i + 1)) == c * (i + 1) * (i + 2);
    assert i * c * (c - 1) + c * (c - 1) == (i + 1) * c * (c - 1);
    assert v - (i + 1) * c == v0;
    assert ver * (v0 - i * c) + ver * (i * c) == ver * v0;
    assert hor * h0 + hor * (h - h0) == hor * h;
  }

  lemma GridTotals(r: int, c: int, ver: int, hor: int, vhops: int, hhops: int, lat: int)
    requires 2 * vhops == c * r * (r + 1) && 2 * hhops == r * c * (c - 1)
    requires lat == ver * (vhops - r * c) + hor * hhops
    ensures 2 * vhops == VerticalHops2(r, c) && 2 * hhops == HorizontalHops2(r, c)
    ensures 2 * (hhops + vhops) == r * c * (r + c) && 2 * lat == Latency2(r, c, ver, hor)
  {
    var n := r * c;
    assert c * r == n;
    assert n * (r + 1) + n * (c - 1) == n * (r + c);
    assert 2 * (vhops - n) == n * (r - 1);
    assert ver * (2 * (vhops - n)) == 2 * (ver * (vhops - n));
    assert hor * (2 * hhops) == 2 * (hor * hhops);
    assert ver * (n * (r - 1)) == n * (ver * (r - 1));
    assert hor * (n * (c - 1)) == n * (hor * (c - 1));
    assert n * (ver * (r - 1)) + n * (hor * (c - 1)) == n * (ver * (r - 1) + hor * (c - 1));
  }

  // ---------------------------------------------------------------- the best grid

  /** Figures of the links of one wire and router type: latencies in cycles, delays and powers. */
  datatype Link = Link(ver: nat, hor: nat, routerDelay: real, routerDyn: real, routerLeak: real,
                       horDyn: real, horLeak: real, verDyn: real, verLeak: real, horDelay: real,
                       flitWidth: int, bits: int, bankCycles: int, bankDyn: real)

  datatype Grid = Grid(rows: nat, columns: nat, avgHop: real, acclat: real, dyn: real, leak: real)

  function Half(x: int): real {
    x as real / 2.0
  }

  /** What the averages over the banks of an r by c grid come to. */
  function GridOf(k: Link, r: nat, c: nat): Grid {
    Grid(r, c, Half(r + c),
         (k.ver * (r - 1) + k.hor * (c - 1)) as real + k.routerDelay * (r + c) as real + k.bankCycles as real,
         Half(r + c) * k.routerDyn + Half(c - 1) * k.horDyn * k.bits as real
         + Half(r + 1) * k.verDyn * k.bits as real + k.bankDyn,
         (r * c) as real * k.routerLeak + Half(c - 1) * (k.horLeak * k.horDelay) * k.flitWidth as real
         + Half(r + 1) * (k.verLeak * k.horDelay))
  }

  /** Averaging what the loops over the banks add up yields the closed forms. */
  method Evaluate(k: Link, bankCount: nat, r: nat, c: nat) returns (g: Grid)
    requires bankCount > 0 && r * c == bankCount
    ensures g == GridOf(k, r, c)
  {
    hide Half, VerticalHops2, HorizontalHops2, Latency2;
    var hops, hhops, vhops, lat := SumOverBanks(r, c, k.ver, k.hor);
    var n := bankCount as real;
    Averages(r, c, k.ver, k.hor, hops, hhops, vhops, lat);
    var avgLat, avgHop, avgHhop, avgVhop := lat as real / n, hops as real / n, hhops as real / n, vhops as real / n;
    FromAverages(k, bankCount, r, c, avgLat, avgHop, avgHhop, avgVhop);
    hide GridOf;
    var acclat := 2.0 * avgLat + 2.0 * (k.routerDelay * avgHop) + k.bankCycles as real;
    var dyn := avgHop * k.routerDyn + avgHhop * k.horDyn * k.bits as real + avgVhop * k.verDyn * k.bits as real
               + k.bankDyn;
    var leak := bankCount as real * k.routerLeak + avgHhop * (k.horLeak * k.horDelay) * k.flitWidth as real
                + avgVhop * (k.verLeak * k.horDelay);
    g := Grid(r, c, avgHop, acclat, dyn, leak);
  }

  lemma FromAverages(k: Link, bankCount: nat, r: nat, c: nat, avgLat: real, avgHop: real, avgHhop: real, avgVhop: real)
    requires r * c == bankCount && avgLat == Half(k.ver * (r - 1) + k.hor * (c - 1))
    requires avgHop == Half(r + c) && avgHhop == Half(c - 1) && avgVhop == Half(r + 1)
    ensures GridOf(k, r, c) ==
            Grid(r, c, avgHop, 2.0 * avgLat + 2.0 * (k.routerDelay * avgHop) + k.bankCycles as real,
                 avgHop * k.routerDyn + avgHhop * k.horDyn * k.bits as real + avgVhop * k.verDyn * k.bits as real
                 + k.bankDyn,
                 bankCount as real * k.routerLeak + avgHhop * (k.horLeak * k.horDelay) * k.flitWidth as real
                 + avgVhop * (k.verLeak * k.horDelay))
  {
    hide Half;
    TwiceHalf(k.ver * (r - 1) + k.hor * (c - 1), 1.0);
    TwiceHalf(r + c, k.routerDelay);
  }

  lemma Averages(r: nat, c: nat, ver: nat, hor: nat, hops: int, hhops: int, vhops: int, lat: int)
    requires r * c > 0 && 2 * vhops == VerticalHops2(r, c) && 2 * hhops == HorizontalHops2(r, c)
    requires 2 * hops == r * c * (r + c) && 2 * lat == Latency2(r, c, ver, hor)
    ensures var n := (r * c) as real;
            && lat as real / n == Half(ver * (r - 1) + hor * (c - 1)) && hops as real / n == Half(r + c)
            && hhops as real / n == Half(c - 1) && vhops as real / n == Half(r + 1)
  {
    hide Half;
    var n := r * c;
    Average(lat, n, ver * (r - 1) + hor * (c - 1));
    Average(hops, n, r + c);
    Average(hhops, n, c - 1);
    Average(vhops, n, r + 1);
  }

  lemma Average(x: int, n: nat, y: int)
    requires n > 0 && 2 * x == n * y
    ensures x as real / n as real == Half(y)
  {
    var a := x as real / n as real;
    assert a * n as real == x as real;
    assert 2.0 * x as real == (n * y) as real == n as real * y as real;
    assert (2.0 * a - y as real) * n as real == 0.0;
  }

  lemma TwiceHalf(x: int, d: real)
    ensures 2.0 * (d * Half(x)) == d * x as real
  {
  }

  predicate Divides(c: nat, n: nat) {
    c > 0 && n % c == 0
  }

  /** opt is the first grid of least latency among those with fewer than c columns, if that is below
      the latency to beat, and otherwise unchanged. */
  ghost predicate FirstLeast(k: Link, n: nat, c: nat, opt0: Grid, opt: Grid) {
    || (opt == opt0 && forall d: nat | d < c && Divides(d, n) :: GridOf(k, n / d, d).acclat >= opt0.acclat)
    || (var b := opt.columns;
        && b < c && Divides(b, n) && opt == GridOf(k, n / b, b) && opt.acclat < opt0.acclat
        && (forall d: nat | d < c && Divides(d, n) :: opt.acclat <= GridOf(k, n / d, d).acclat)
        && (forall d: nat | d < b && Divides(d, n) :: opt.acclat < GridOf(k, n / d, d).acclat))
  }

  /** The loop over column counts: every factorisation of the bank count is tried exactly once, fewest
      columns first, and the first grid of least access latency is kept. */
  method ExploreGrids(k: Link, bankCount: nat, opt0: Grid) returns (opt: Grid, ghost tried: seq<nat>)
    requires bankCount > 0
    ensures forall i, j | 0 <= i < j < |tried| :: tried[i] < tried[j]
    ensures forall c: nat :: c in tried <==> c <= bankCount && Divides(c, bankCount)
    ensures FirstLeast(k, bankCount, bankCount + 1, opt0, opt)
  {
    hide GridOf, FirstLeast, Tried;
    opt, tried := opt0, [];
    var c := 1;
    NothingTried(k, bankCount, opt0);
    while c <= bankCount
      invariant 1 <= c <= bankCount + 1
      invariant Tried(bankCount, c, tried) && FirstLeast(k, bankCount, c, opt0, opt)
    {
      while bankCount % c != 0
        invariant 1 <= c <= bankCount
        invariant Tried(bankCount, c, tried) && FirstLeast(k, bankCount, c, opt0, opt)
        decreases bankCount - c
      {
        Skipped(k, bankCount, c, opt0, opt, tried);
        c := c + 1;
      }
      var r := bankCount / c;
      CofactorDivides(bankCount, c);
      var g := Evaluate(k, bankCount, r, c);
      Kept(k, bankCount, c, opt0, opt, g, tried);
      if g.acclat < opt.acclat {
        opt := g;
      }
      tried := tried + [c];
      c := c + 1;
    }
    AllTried(bankCount, tried);
  }

  /** The divisors below c, in ascending order. */
  ghost predicate Tried(n: nat, c: nat, tried: seq<nat>) {
    && (forall i, j | 0 <= i < j < |tried| :: tried[i] < tried[j])
    && (forall d: nat :: d in tried <==> d < c && Divides(d, n))
  }

  lemma NothingTried(k: Link, n: nat, opt0: Grid)
    ensures Tried(n, 1, []) && FirstLeast(k, n, 1, opt0, opt0)
  {
  }

  lemma AllTried(n: nat, tried: seq<nat>)
    requires Tried(n, n + 1, tried)
    ensures forall i, j | 0 <= i < j < |tried| :: tried[i] < tried[j]
    ensures forall c: nat :: c in tried <==> c <= n && Divides(c, n)
  {
  }

  lemma Skipped(k: Link, n: nat, c: nat, opt0: Grid, opt: Grid, tried: seq<nat>)
    requires n > 0 && 0 < c <= n && n % c != 0 && Tried(n, c, tried) && FirstLeast(k, n, c, opt0, opt)
    ensures c < n && Tried(n, c + 1, tried) && FirstLeast(k, n, c + 1, opt0, opt)
  {
    hide GridOf;
    assert n % n == 0;
    assert forall d: nat | Divides(d, n) :: d < c + 1 <==> d < c;
  }

  lemma Kept(k: Link, n: nat, c: nat, opt0: Grid, opt: Grid, g: Grid, tried: seq<nat>)
    requires Divides(c, n) && g == GridOf(k, n / c, c)
    requires Tried(n, c, tried) && FirstLeast(k, n, c, opt0, opt)
    ensures FirstLeast(k, n, c + 1, opt0, if g.acclat < opt.acclat then g else opt)
    ensures Tried(n, c + 1, tried + [c])
  {
    assert g.columns == c;
    hide GridOf;
    forall i | 0 <= i < |tried|
      ensures tried[i] < c
    {
      assert tried[i] in tried;
    }
  }

  // ---------------------------------------------------------------- the shape of the best grid

  /** c columns give the first grid of least latency among all factorisations of n. */
  ghost predicate Best(k: Link, n: nat, c: nat) {
    && Divides(c, n) && c <= n
    && (forall d: nat | d <= n && Divides(d, n) :: GridOf(k, n / c, c).acclat <= GridOf(k, n / d, d).acclat)
    && (forall d: nat | d < c && Divides(d, n) :: GridOf(k, n / c, c).acclat < GridOf(k, n / d, d).acclat)
  }

  /** If any grid beats the latency to beat, the loop ends with the best grid. */
  lemma ExplorationFindsBest(k: Link, n: nat, opt0: Grid, opt: Grid)
    requires n > 0 && FirstLeast(k, n, n + 1, opt0, opt)
    ensures (exists d: nat :: d <= n && Divides(d, n) && GridOf(k, n / d, d).acclat < opt0.acclat) ==>
              Best(k, n, opt.columns) && opt == GridOf(k, n / opt.columns, opt.columns)
    ensures (forall d: nat | d <= n && Divides(d, n) :: GridOf(k, n / d, d).acclat >= opt0.acclat) ==> opt == opt0
  {
    hide GridOf;
  }

  /** Hops cost the same in both directions, and something. */
  ghost predicate EvenHops(k: Link) {
    k.ver == k.hor && k.ver as real + k.routerDelay > 0.0
  }

  /** With equal hop costs in both directions the chosen grid is the squarest one: at least as many
      rows as columns, and no other factorisation lies between. */
  lemma SquarestGrid(k: Link, n: nat, c: nat)
    requires n > 0 && EvenHops(k) && Best(k, n, c)
    ensures c * c <= n
    ensures forall d: nat | Divides(d, n) && d * d <= n :: d <= c
  {
    NotTooManyColumns(k, n, c);
    forall d: nat | Divides(d, n) && d * d <= n
      ensures d <= c
    {
      if d > c {
        SquarerIsBetter(k, n, c, d);
      }
    }
  }

  lemma NotTooManyColumns(k: Link, n: nat, c: nat)
    requires n > 0 && EvenHops(k) && Best(k, n, c)
    ensures c * c <= n
  {
    var r := n / c;
    CofactorDivides(n, c);
    if c * c > n {
      Smaller(r, c, c);
      SameSum(k, r, c);
    }
  }

  lemma SquarerIsBetter(k: Link, n: nat, c: nat, d: nat)
    requires n > 0 && EvenHops(k) && Divides(c, n) && Divides(d, n) && c < d && d * d <= n
    ensures d <= n && GridOf(k, n / d, d).acclat < GridOf(k, n / c, c).acclat
  {
    hide GridOf;
    CofactorDivides(n, c);
    CofactorDivides(n, d);
    var r, s := n / c, n / d;
    Smaller(d, s, d);
    Closer(c, r, d, s);
    MulAtLeast(d, s);
    SumOrder(k, s, d, r, c);
  }

  lemma CofactorDivides(n: nat, c: nat)
    requires n > 0 && Divides(c, n)
    ensures n / c * c == n && n / c > 0 && Divides(n / c, n) && n / (n / c) == c && n / c <= n
  {
    var r := n / c;
    assert r * c == n;
    if r == 0 {
      assert false;
    }
    Quotient(n, r, c, 0);
    MulAtLeast(r, c);
  }

  lemma Smaller(x: nat, y: nat, z: nat)
    ensures x * z < y * z ==> x < y
    ensures x * z <= y * z && z > 0 ==> x <= y
  {
    if x >= y {
      assert (x - y) * z >= 0;
    }
    if x > y && z > 0 {
      StrictlyMore(y, x, z);
    }
  }

  /** Of two factorisations the one with closer factors has the smaller sum. */
  lemma Closer(c: nat, r: nat, d: nat, s: nat)
    requires 0 < c < d && d <= s && r * c == s * d
    ensures s + d < r + c
  {
    // c * (r + c - s - d) == (s - c) * (d - c) > 0
    assert c * (r + c - (s + d)) == s * d + c * c - c * s - c * d;
    assert (s - c) * (d - c) == s * d - s * c - c * d + c * c;
    assert (s - c) * (d - c) > 0;
    PositiveFactor(c, r + c - (s + d));
  }

  lemma PositiveFactor(c: int, x: int)
    requires c > 0 && c * x > 0
    ensures x > 0
  {
  }

  lemma SameSum(k: Link, r: nat, c: nat)
    requires k.ver == k.hor
    ensures GridOf(k, r, c).acclat == GridOf(k, c, r).acclat
  {
  }

  /** The part of the latency that depends on the shape of the grid: it grows with rows + columns. */
  function HopLatency(k: Link, hops: int): real {
    (k.ver as real + k.routerDelay) * hops as real
  }

  lemma LatencyOfSum(k: Link, r: nat, c: nat)
    requires k.ver == k.hor
    ensures GridOf(k, r, c).acclat == HopLatency(k, r + c) - 2.0 * k.ver as real + k.bankCycles as real
  {
    var w, y := k.ver, r + c;
    assert w * (r - 1) + w * (c - 1) == w * y - 2 * w;
    assert (w * y) as real == w as real * y as real;
    assert (w as real + k.routerDelay) * y as real == w as real * y as real + k.routerDelay * y as real;
  }

  lemma SumOrder(k: Link, s: nat, d: nat, r: nat, c: nat)
    requires EvenHops(k) && s + d < r + c
    ensures GridOf(k, s, d).acclat < GridOf(k, r, c).acclat
  {
    hide GridOf, HopLatency;
    LatencyOfSum(k, s, d);
    LatencyOfSum(k, r, c);
    MoreHops(k, s + d, r + c);
  }

  lemma MoreHops(k: Link, x: int, y: int)
    requires EvenHops(k) && x < y
    ensures HopLatency(k, x) < HopLatency(k, y)
  {
    var w := k.ver as real + k.routerDelay;
    assert w * (y - x) as real > 0.0;
    assert w * (y - x) as real == w * y as real - w * x as real;
  }

  /** The divisors of a power of two are the smaller powers of two. */
  lemma {:induction false} DivisorsOfPowers(m: nat, d: nat) returns (j: nat)
    requires Divides(d, Pow2(m))
    ensures d == Pow2(j) && j <= m
  {
    var e := Pow2(m) / d;
    assert d * e == Pow2(m);
    if m == 0 {
      MulAtLeast(d, e);
      j := 0;
    } else if d % 2 == 0 {
      var h := d / 2;
      assert 2 * h * e == 2 * Pow2(m - 1);
      Quotient(Pow2(m - 1), h, e, 0);
      j := DivisorsOfPowers(m - 1, h);
      j := j + 1;
    } else {
      OddFactor(d, e, Pow2(m - 1));
      var h := e / 2;
      assert d * h == Pow2(m - 1);
      Quotient(Pow2(m - 1), d, h, 0);
      j := DivisorsOfPowers(m - 1, d);
    }
  }

  lemma OddFactor(d: nat, e: nat, p: nat)
    requires d % 2 == 1 && d * e == 2 * p
    ensures e % 2 == 0 && d * (e / 2) == p
  {
    var x, y := d / 2, e / 2;
    assert d == 2 * x + 1 && e == 2 * y + e % 2;
    assert d * e == 2 * (d * y) + d * (e % 2);
  }

  /** For 2^m banks and equal hop costs the grid has 2^ceil(m/2) rows and 2^floor(m/2) columns. */
  lemma PowerOfTwoGrid(k: Link, m: nat, c: nat)
    requires EvenHops(k) && Best(k, Pow2(m), c)
    ensures c == Pow2(m / 2) && Pow2(m) / c == Pow2((m + 1) / 2)
  {
    hide Best;
    SquarestGrid(k, Pow2(m), c);
    var j := Divisor(k, m, c);
    HalfPower(m);
    SquareBound(m, j);
    Pow2Order(j, m / 2);
  }

  lemma Divisor(k: Link, m: nat, c: nat) returns (j: nat)
    requires Best(k, Pow2(m), c)
    ensures c == Pow2(j)
  {
    j := DivisorsOfPowers(m, c);
  }

  /** 2^floor(m/2) divides 2^m with a cofactor at least as large. */
  lemma HalfPower(m: nat)
    ensures var h := Pow2(m / 2); Divides(h, Pow2(m)) && h * h <= Pow2(m) && Pow2(m) / h == Pow2((m + 1) / 2)
  {
    hide Pow2;
    var h := m / 2;
    PowSum(h, m - h);
    Pow2Order(h, m - h);
    Quotient(Pow2(m), Pow2(h), Pow2(m - h), 0);
    MulMonotone(Pow2(h), Pow2(h), Pow2(m - h));
  }

  lemma SquareBound(m: nat, j: nat)
    requires Pow2(j) * Pow2(j) <= Pow2(m)
    ensures j <= m / 2
  {
    PowSum(j, j);
    Pow2Order(m, j + j);
  }

  // ---------------------------------------------------------------- the smallest bank size

  /** The counter of the doubling loop and the lower bound on bank sizes. */
  datatype Doubling = Doubling(i: nat, size: nat)

  /** What rounds of the loop make of them. */
  function After(d: Doubling, rounds: nat): Doubling {
    if rounds == 0 then d
    else
      var e := After(d, rounds - 1);
      Doubling(e.i * 2, e.size * 2)
  }

  lemma {:induction false} AfterRounds(size: nat, rounds: nat)
    ensures After(Doubling(2, size), rounds) == Doubling(Pow2(rounds + 1), size * Pow2(rounds))
  {
    if rounds == 0 {
      assert Pow2(0) == 1 && Pow2(1) == 2;
    } else {
      AfterRounds(size, rounds - 1);
      DoubledSize(size, Pow2(rounds - 1));
    }
  }

  lemma DoubledSize(s: nat, p: nat)
    ensures s * p * 2 == s * (2 * p)
  {
  }

  /** Above 2, some round ends the loop exactly when the associativity is a power of two; for any other the
      counter never meets it. */
  lemma LoopEndsIffPower(assoc: nat, size: nat)
    requires assoc > 2
    ensures (exists rounds :: After(Doubling(2, size), rounds).i == assoc) <==> IsPowerOfTwo(assoc)
  {
    if rounds :| After(Doubling(2, size), rounds).i == assoc {
      AfterRounds(size, rounds);
    }
    if IsPowerOfTwo(assoc) {
      var m: nat :| assoc == Pow2(m);
      AfterRounds(size, m - 1);
    }
  }

  /** The global lower bound on bank sizes. */
  class BankSize {
    var minBanksize: nat

    constructor (size: nat)
      ensures minBanksize == size
    {
      minBanksize := size;
    }

    /** Raises the bound with the associativity; the input check admits only powers of two above 1. */
    method RaiseFor(assoc: nat)
      requires assoc > 2 ==> IsPowerOfTwo(assoc)
      modifies this
      ensures minBanksize == if assoc > 2 then old(minBanksize) * (assoc / 2) else old(minBanksize)
    {
      if assoc > 2 {
        ghost var m: nat :| assoc == Pow2(m);
        ghost var rounds := 0;
        var i: nat := 2;
        while i != assoc
          invariant rounds + 1 <= m && Doubling(i, minBanksize) == After(Doubling(2, old(minBanksize)), rounds)
          decreases m - rounds
        {
          AfterRounds(old(minBanksize), rounds);
          minBanksize := minBanksize * 2;
          i := i * 2;
          rounds := rounds + 1;
        }
        AfterRounds(old(minBanksize), rounds);
      }
    }
  }
}
