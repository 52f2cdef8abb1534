/** The walk down an H-tree: horizontal and vertical links of halving length. */
module Htree {
  import opened Combinatorics
  import opened Enumeration

  /** Delay and switching energy of a wire as a function of its length. */
  datatype WireModel = WireModel(delay: real -> real, dynamic: real -> real)

  /** What is left to walk: h horizontal and v vertical nodes, the lengths of the next links, and the
      width of the bus at this point. */
  datatype State = State(h: nat, v: nat, len: real, ht: real, bw: real)

  /** The tree between the banks of a uniform cache or the one inside a bank; either may be the tree
      of a search port. */
  datatype Mode = Mode(ucaTree: bool, searchTree: bool)

  /** Which branch an iteration takes: one horizontal link, one of each, or one vertical link. */
  function Turn(s: State): int {
    if s.h > s.v then 0 else if s.v > 0 && s.h > 0 then 1 else 2
  }

  /** The width of the bus after the first link of an iteration. */
  function Branch(m: Mode, s: State): real {
    if (!m.ucaTree && Turn(s) == 2) || m.searchTree then s.bw * 2.0 else s.bw
  }

  function Next(m: Mode, s: State): State
    requires s.h > 0 || s.v > 0
  {
    if Turn(s) == 0 then State(s.h - 1, s.v, s.len / 2.0, s.ht, Branch(m, s))
    else if Turn(s) == 1 then
      State(s.h - 1, s.v - 1, s.len / 2.0, s.ht / 2.0, if m.ucaTree then Branch(m, s) else Branch(m, s) * 2.0)
    else State(s.h, s.v - 1, s.len, s.ht / 2.0, Branch(m, s))
  }

  /** The states at the head of the loop, from s on. */
  function Walk(m: Mode, s: State): seq<State>
    decreases s.h + s.v
  {
    if s.h == 0 && s.v == 0 then [] else [s] + Walk(m, Next(m, s))
  }

  /** f summed over n links, the first of length x and each half as long as the one before. */
  function LinkSum(f: real -> real, x: real, n: nat): real
    decreases n
  {
    if n == 0 then 0.0 else f(x) + LinkSum(f, x / 2.0, n - 1)
  }

  /** f summed over all links still to walk. */
  function Rest(f: real -> real, s: State): real {
    LinkSum(f, s.len, s.h) + LinkSum(f, s.ht, s.v)
  }

  /** The links of one iteration. */
  function Links(f: real -> real, s: State): real {
    if Turn(s) == 0 then f(s.len) else if Turn(s) == 1 then f(s.len) + f(s.ht) else f(s.ht)
  }

  /** The energy of a link on all wires of a bus. */
  function OnBus(energy: real, bw: real): real {
    energy * bw
  }

  /** f summed over the links of one iteration, each counted once for every wire of the bus. */
  function BusLinks(m: Mode, f: real -> real, s: State): real {
    if Turn(s) == 0 then OnBus(f(s.len), s.bw)
    else if Turn(s) == 1 then OnBus(f(s.len), s.bw) + OnBus(f(s.ht), Branch(m, s))
    else OnBus(f(s.ht), s.bw)
  }

  /** The same with every link counted for as many wires as leave the root. */
  function RootLinks(f: real -> real, s: State, bw: real): real {
    if Turn(s) == 0 then OnBus(f(s.len), bw)
    else if Turn(s) == 1 then OnBus(f(s.len), bw) + OnBus(f(s.ht), bw)
    else OnBus(f(s.ht), bw)
  }

  function BusRest(m: Mode, f: real -> real, s: State): real
    decreases s.h + s.v
  {
    if s.h == 0 && s.v == 0 then 0.0 else BusLinks(m, f, s) + BusRest(m, f, Next(m, s))
  }

  /** How many times the bus doubles on the way down. */
  function Doublings(m: Mode, h: nat, v: nat): nat {
    if m.ucaTree then (if m.searchTree then (if h > v then h else v) else 0)
    else if m.searchTree then h + v else v
  }

  /** The width of the bus at the leaves. */
  function LeafBw(m: Mode, s: State): real {
    s.bw * Pow2(Doublings(m, s.h, s.v)) as real
  }

  /** One iteration walks the links that the remaining sums lose. */
  lemma OneIteration(m: Mode, s: State, f: real -> real)
    requires s.h > 0 || s.v > 0
    ensures Turn(s) == 2 ==> s.h == 0
    ensures Rest(f, s) == Links(f, s) + Rest(f, Next(m, s))
  {
  }

  /** How many times as wide as at the root the bus gets in a tree of x by y nodes: between banks it
      keeps its width, or in a search tree widens as often as the longer side has nodes; inside a bank
      it widens with the rows, or in a search tree with all nodes. */
  function Widening(m: Mode, x: nat, y: nat): nat {
    if m.ucaTree then (if m.searchTree then (if x > y then x else y) else 1)
    else if m.searchTree then x * y else y
  }

  lemma DoublingsWiden(m: Mode, h: nat, v: nat)
    ensures Pow2(Doublings(m, h, v)) == Widening(m, Pow2(h), Pow2(v))
  {
    PowSum(h, v);
    Pow2Order(h, v);
    Pow2Order(v, h);
    assert Pow2(0) == 1;
  }

  /** The walk starts from the logarithms of the two sides; if both are powers of two, the bus at the
      leaves is exactly as wide as the number of nodes it serves demands. */
  lemma LeafWidth(m: Mode, s: State, x: nat, y: nat)
    requires x > 0 && y > 0 && IsPowerOfTwo(x) && IsPowerOfTwo(y)
    requires s.h == FloorLog2(x) && s.v == FloorLog2(y)
    ensures LeafBw(m, s) == s.bw * Widening(m, x, y) as real
  {
    hide Doublings, Pow2, FloorLog2, Widening;
    ExactLog(x);
    ExactLog(y);
    DoublingsWiden(m, s.h, s.v);
  }

  lemma BusIteration(m: Mode, s: State, f: real -> real)
    requires s.h > 0 || s.v > 0
    ensures BusRest(m, f, s) == BusLinks(m, f, s) + BusRest(m, f, Next(m, s))
  {
  }

  lemma RootIteration(m: Mode, s: State, f: real -> real, bw: real)
    requires s.h > 0 || s.v > 0
    ensures OnBus(Rest(f, s), bw) == RootLinks(f, s, bw) + OnBus(Rest(f, Next(m, s)), bw)
  {
    OneIteration(m, s, f);
    Both(bw, f(s.len), f(s.ht));
    Both(bw, Links(f, s), Rest(f, Next(m, s)));
  }

  /** One iteration widens the bus by the doublings that the remaining count loses. */
  lemma BusWidens(m: Mode, s: State)
    requires s.h > 0 || s.v > 0
    ensures LeafBw(m, Next(m, s)) == LeafBw(m, s)
  {
    var t := Next(m, s);
    var d := Doublings(m, t.h, t.v);
    var e := Doublings(m, s.h, s.v);
    assert e == d || e == d + 1 || e == d + 2;
    assert Pow2(d + 1) == 2 * Pow2(d) && Pow2(d + 2) == 4 * Pow2(d);
    var p := Pow2(d) as real;
    if e == d {
      assert t.bw == s.bw;
    } else if e == d + 1 {
      assert t.bw == s.bw * 2.0;
      assert s.bw * 2.0 * p == s.bw * (2.0 * p);
    } else {
      assert t.bw == s.bw * 4.0;
      assert s.bw * 4.0 * p == s.bw * (4.0 * p);
    }
  }

  /** Counted wire by wire, the links cost at least what they cost on a bus as narrow as at the root,
      and at most what they cost on one as wide as at the leaves. In a tree that never widens both
      are the same. */
  lemma {:induction false} BusBetweenRootAndLeaf(m: Mode, s: State, f: real -> real)
    requires s.bw >= 0.0 && forall x :: f(x) >= 0.0
    ensures OnBus(Rest(f, s), s.bw) <= BusRest(m, f, s) <= OnBus(Rest(f, s), LeafBw(m, s))
    decreases s.h + s.v
  {
    hide LeafBw, OnBus, Rest, Links, BusLinks, BusRest;
    if s.h == 0 && s.v == 0 {
      Walked(f, s, s);
      BusWalked(m, f, s, s);
      Both(s.bw, 0.0, 0.0);
    } else {
      var t := Next(m, s);
      BusBetweenRootAndLeaf(m, t, f);
      BusWidens(m, s);
      OneIteration(m, s, f);
      BusIteration(m, s, f);
      RestIsPositive(f, t);
      Wider(m, t);
      IterationBetween(m, s, f);
      Both(s.bw, Links(f, s), Rest(f, t));
      Both(LeafBw(m, s), Links(f, s), Rest(f, t));
      Scale(s.bw, t.bw, LeafBw(m, s), Rest(f, t));
    }
  }

  lemma {:induction false} Wider(m: Mode, s: State)
    requires s.bw >= 0.0
    ensures s.bw <= LeafBw(m, s)
  {
    var p := Pow2(Doublings(m, s.h, s.v)) as real;
    assert s.bw * p - s.bw == s.bw * (p - 1.0);
  }

  lemma IterationBetween(m: Mode, s: State, f: real -> real)
    requires s.h > 0 || s.v > 0
    requires s.bw >= 0.0 && forall x :: f(x) >= 0.0
    ensures OnBus(Links(f, s), s.bw) <= BusLinks(m, f, s) <= OnBus(Links(f, s), LeafBw(m, s))
  {
    hide LeafBw, OnBus;
    BusWidens(m, s);
    Wider(m, Next(m, s));
    var leaf := LeafBw(m, s);
    Scale(s.bw, s.bw, leaf, f(s.len));
    Scale(s.bw, s.bw, leaf, f(s.ht));
    Scale(s.bw, Branch(m, s), leaf, f(s.ht));
    Both(s.bw, f(s.len), f(s.ht));
    Both(leaf, f(s.len), f(s.ht));
  }

  lemma Scale(a: real, b: real, c: real, x: real)
    requires a <= b <= c && x >= 0.0
    ensures OnBus(x, a) <= OnBus(x, b) <= OnBus(x, c)
  {
    assert b * x - a * x == (b - a) * x;
    assert c * x - b * x == (c - b) * x;
  }

  lemma Both(bw: real, x: real, y: real)
    ensures OnBus(x + y, bw) == OnBus(x, bw) + OnBus(y, bw)
  {
  }

  lemma RestIsPositive(f: real -> real, s: State)
    requires forall x :: f(x) >= 0.0
    ensures Rest(f, s) >= 0.0
  {
    LinkSumIsPositive(f, s.len, s.h);
    LinkSumIsPositive(f, s.ht, s.v);
  }

  lemma {:induction false} LinkSumIsPositive(f: real -> real, x: real, n: nat)
    requires forall x :: f(x) >= 0.0
    ensures LinkSum(f, x, n) >= 0.0
    decreases n
  {
    if n > 0 {
      LinkSumIsPositive(f, x / 2.0, n - 1);
    }
  }

  // ---------------------------------------------------------------- the search energy link by link

  /** f summed over n links of halving length from x on, link k on a bus that has doubled e(k) times. */
  function WideSum(f: real -> real, x: real, bw: real, e: nat -> nat, n: nat): real
    decreases n
  {
    if n == 0 then 0.0
    else OnBus(f(x), Doubled(bw, e(0))) + WideSum(f, x / 2.0, bw, Tail(e), n - 1)
  }

  function Doubled(bw: real, n: nat): real {
    bw * Pow2(n) as real
  }

  function Tail(e: nat -> nat): nat -> nat {
    k => e(k + 1)
  }

  /** How many single horizontal links the walk starts with. */
  function Lead(h: nat, v: nat): nat {
    if h > v then h - v else 0
  }

  /** How many vertical links come before horizontal link j; it is the first link of turn j. */
  function VerticalsBefore(h: nat, v: nat, j: nat): nat {
    if j <= Lead(h, v) then 0 else j - Lead(h, v)
  }

  /** How many horizontal links come before vertical link i, which is in turn Lead(h, v) + i. */
  function HorizontalsBefore(h: nat, v: nat, i: nat): nat {
    if Lead(h, v) + i < h then Lead(h, v) + i + 1 else h
  }

  /** How often the bus has doubled at horizontal link j. Between banks: in a search tree once for each turn before,
      else never. Inside a bank: in a search tree once for each link before, else once for each vertical one. */
  function DoubledAtHorizontal(m: Mode, h: nat, v: nat, j: nat): nat {
    if m.ucaTree then (if m.searchTree then j else 0)
    else if m.searchTree then j + VerticalsBefore(h, v, j) else VerticalsBefore(h, v, j)
  }

  /** At vertical link i; as the second link of its turn it finds the bus of a search tree doubled by the first. */
  function DoubledAtVertical(m: Mode, h: nat, v: nat, i: nat): nat {
    if m.ucaTree then
      if !m.searchTree then 0
      else if Lead(h, v) + i < h then Lead(h, v) + i + 1 else Lead(h, v) + i
    else if m.searchTree then i + HorizontalsBefore(h, v, i) else i
  }

  /** The search energy: each link on a bus as wide as it is there. */
  function SearchEnergy(m: Mode, f: real -> real, s: State): real {
    WideSum(f, s.len, s.bw, (j: nat) => DoubledAtHorizontal(m, s.h, s.v, j), s.h)
    + WideSum(f, s.ht, s.bw, (i: nat) => DoubledAtVertical(m, s.h, s.v, i), s.v)
  }

  /** Doublings that all links share can be moved into the width of the bus. */
  lemma {:induction false} SharedDoublings(f: real -> real, x: real, bw: real, e: nat -> nat, e': nat -> nat, c: nat,
                                           n: nat)
    requires forall k: nat | k < n :: e(k) == c + e'(k)
    ensures WideSum(f, x, bw, e, n) == WideSum(f, x, Doubled(bw, c), e', n)
    decreases n
  {
    hide Doubled, OnBus;
    if n > 0 {
      SharedDoublings(f, x / 2.0, bw, Tail(e), Tail(e'), c, n - 1);
      DoubledTwice(bw, c, e'(0));
    }
  }

  lemma DoubledTwice(bw: real, a: nat, b: nat)
    ensures Doubled(Doubled(bw, a), b) == Doubled(bw, a + b)
  {
    PowSum(a, b);
    Regroup(bw, Pow2(a), Pow2(b), Pow2(a + b));
  }

  lemma Regroup(bw: real, a: nat, b: nat, c: nat)
    requires a * b == c
    ensures bw * a as real * b as real == bw * c as real
  {
    assert c as real == a as real * b as real;
  }

  lemma FirstLink(f: real -> real, x: real, bw: real, e: nat -> nat, e': nat -> nat, c: nat, n: nat)
    requires n > 0 && forall k: nat | k < n - 1 :: e(k + 1) == c + e'(k)
    ensures WideSum(f, x, bw, e, n) ==
            OnBus(f(x), Doubled(bw, e(0))) + WideSum(f, x / 2.0, Doubled(bw, c), e', n - 1)
  {
    hide Doubled, OnBus;
    SharedDoublings(f, x / 2.0, bw, Tail(e), e', c, n - 1);
  }

  /** How often one iteration doubles the bus. */
  function TurnDoublings(m: Mode, s: State): nat {
    (if (!m.ucaTree && Turn(s) == 2) || m.searchTree then 1 else 0) + if !m.ucaTree && Turn(s) == 1 then 1 else 0
  }

  lemma NextWidth(m: Mode, s: State)
    requires s.h > 0 || s.v > 0
    ensures Next(m, s).bw == Doubled(s.bw, TurnDoublings(m, s))
    ensures Branch(m, s) == Doubled(s.bw, if (!m.ucaTree && Turn(s) == 2) || m.searchTree then 1 else 0)
    ensures Doubled(s.bw, 0) == s.bw
  {
    assert Pow2(0) == 1 && Pow2(1) == 2 && Pow2(2) == 4;
  }

  /** The doublings counted from the next state on are those counted from here less those of this iteration. */
  lemma DoublingsShift(m: Mode, s: State)
    requires s.h > 0 || s.v > 0
    ensures var t, c := Next(m, s), TurnDoublings(m, s);
            && (Turn(s) != 2 ==> forall j: nat | j < t.h ::
                  DoubledAtHorizontal(m, s.h, s.v, j + 1) == c + DoubledAtHorizontal(m, t.h, t.v, j))
            && (Turn(s) == 0 ==> forall i: nat | i < t.v ::
                  DoubledAtVertical(m, s.h, s.v, i) == c + DoubledAtVertical(m, t.h, t.v, i))
            && (Turn(s) != 0 ==> forall i: nat | i < t.v ::
                  DoubledAtVertical(m, s.h, s.v, i + 1) == c + DoubledAtVertical(m, t.h, t.v, i))
    ensures Turn(s) != 2 ==> DoubledAtHorizontal(m, s.h, s.v, 0) == 0
    ensures Turn(s) == 1 ==> DoubledAtVertical(m, s.h, s.v, 0) == if m.searchTree then 1 else 0
    ensures Turn(s) == 2 ==> DoubledAtVertical(m, s.h, s.v, 0) == 0
  {
  }

  lemma TurnEnergy(m: Mode, f: real -> real, s: State)
    requires s.h > 0 || s.v > 0
    ensures SearchEnergy(m, f, s) == BusLinks(m, f, s) + SearchEnergy(m, f, Next(m, s))
  {
    hide DoubledAtHorizontal, DoubledAtVertical, WideSum, TurnDoublings;
    var t, c := Next(m, s), TurnDoublings(m, s);
    DoublingsShift(m, s);
    NextWidth(m, s);
    var e, e' := (j: nat) => DoubledAtHorizontal(m, s.h, s.v, j), (j: nat) => DoubledAtHorizontal(m, t.h, t.v, j);
    var d, d' := (i: nat) => DoubledAtVertical(m, s.h, s.v, i), (i: nat) => DoubledAtVertical(m, t.h, t.v, i);
    if Turn(s) == 0 {
      FirstLink(f, s.len, s.bw, e, e', c, s.h);
      SharedDoublings(f, s.ht, s.bw, d, d', c, s.v);
    } else if Turn(s) == 1 {
      FirstLink(f, s.len, s.bw, e, e', c, s.h);
      FirstLink(f, s.ht, s.bw, d, d', c, s.v);
    } else {
      NoLinks(f, s.len, s.bw, e);
      NoLinks(f, s.len, t.bw, e');
      FirstLink(f, s.ht, s.bw, d, d', c, s.v);
    }
  }

  lemma NoLinks(f: real -> real, x: real, bw: real, e: nat -> nat)
    ensures WideSum(f, x, bw, e, 0) == 0.0
  {
  }

  /** The sum over the iterations is the sum over the links, each on a bus as wide as the links before it make it. */
  lemma {:induction false} SearchEnergyOfWalk(m: Mode, f: real -> real, s: State)
    ensures BusRest(m, f, s) == SearchEnergy(m, f, s)
    decreases s.h + s.v
  {
    hide BusLinks;
    if s.h > 0 || s.v > 0 {
      TurnEnergy(m, f, s);
      SearchEnergyOfWalk(m, f, Next(m, s));
    }
  }

  /** In a tree that never widens every link is as wide as the root. */
  lemma {:induction false} PlainTree(f: real -> real, s: State)
    ensures SearchEnergy(Mode(true, false), f, s) == OnBus(Rest(f, s), s.bw)
    decreases s.h + s.v
  {
    hide OnBus, Rest, SearchEnergy;
    var m := Mode(true, false);
    if s.h == 0 && s.v == 0 {
      Walked(f, s, s);
      Both(s.bw, 0.0, 0.0);
      SearchEnergyOfWalk(m, f, s);
    } else {
      PlainTree(f, Next(m, s));
      TurnEnergy(m, f, s);
      RootIteration(m, s, f, s.bw);
    }
  }

  /** In the search tree inside a bank the k-th link on the way down is 2^k times as wide as the root: with one unit of
      energy for each wire of a link, all links together take the width times 2^(h + v) - 1. */
  lemma {:induction false} UnitLinks(s: State)
    ensures SearchEnergy(Mode(false, true), x => 1.0, s) == s.bw * (Pow2(s.h + s.v) - 1) as real
    decreases s.h + s.v
  {
    hide SearchEnergy;
    var m := Mode(false, true);
    if s.h == 0 && s.v == 0 {
      SearchEnergyOfWalk(m, x => 1.0, s);
    } else {
      var t := Next(m, s);
      UnitLinks(t);
      TurnEnergy(m, x => 1.0, s);
      UnitTurn(s, Pow2(t.h + t.v));
    }
  }

  lemma UnitTurn(s: State, p: nat)
    requires (s.h > 0 || s.v > 0) && p == Pow2(Next(Mode(false, true), s).h + Next(Mode(false, true), s).v)
    ensures BusLinks(Mode(false, true), x => 1.0, s) + Next(Mode(false, true), s).bw * (p - 1) as real ==
            s.bw * (Pow2(s.h + s.v) - 1) as real
  {
    var q := p as real;
    assert (p - 1) as real == q - 1.0;
    if Turn(s) == 1 {
      assert Pow2(s.h + s.v) == 2 * Pow2(s.h + s.v - 1) == 4 * p;
      assert s.bw + s.bw * 2.0 + s.bw * 4.0 * (q - 1.0) == s.bw * (4.0 * q - 1.0);
    } else {
      assert Pow2(s.h + s.v) == 2 * p;
      assert s.bw + s.bw * 2.0 * (q - 1.0) == s.bw * (2.0 * q - 1.0);
    }
  }

  lemma WalkStep(m: Mode, s: State, before: seq<State>, after: seq<State>, goal: seq<State>)
    requires s.h > 0 || s.v > 0
    requires Then(before, Walk(m, s)) == goal && after == before + [s]
    ensures Then(after, Walk(m, Next(m, s))) == goal
  {
    ThenIsConcat(before, [s]);
    Advance(before, after, [s], Walk(m, Next(m, s)), goal);
  }

  lemma WalkDone(m: Mode, s: State, trace: seq<State>, goal: seq<State>)
    requires s.h == 0 && s.v == 0 && Then(trace, Walk(m, s)) == goal
    ensures trace == goal
  {
  }

  /** Lengths that halve from x on add up to 2x less what is left. */
  lemma {:induction false} TotalLength(x: real, n: nat)
    ensures LinkSum(y => y, x, n) == 2.0 * x * (1.0 - 1.0 / Pow2(n) as real)
    decreases n
  {
    if n > 0 {
      TotalLength(x / 2.0, n - 1);
      var p := Pow2(n - 1) as real;
      assert Pow2(n) as real == 2.0 * p;
      HalfInverse(p);
      var q := 1.0 / Pow2(n) as real;
      assert 2.0 * (x / 2.0) * (1.0 - 2.0 * q) == x - 2.0 * x * q;
      assert LinkSum(y => y, x, n) == x + LinkSum(y => y, x / 2.0, n - 1);
    }
  }

  lemma HalfInverse(p: real)
    requires p > 0.0
    ensures 1.0 / p == 2.0 * (1.0 / (2.0 * p))
  {
  }

  lemma WalkStart(m: Mode, s: State)
    ensures Then([], Walk(m, s)) == Walk(m, s)
  {
    ThenIsConcat([], Walk(m, s));
    assert [] + Walk(m, s) == Walk(m, s);
  }

  lemma Walked(f: real -> real, s: State, s0: State)
    requires s.h == 0 && s.v == 0
    ensures Rest(f, s) == 0.0
    ensures Rest(f, s0) == LinkSum(f, s0.len, s0.h) + LinkSum(f, s0.ht, s0.v)
  {
  }

  lemma BusWalked(m: Mode, f: real -> real, s: State, s0: State)
    requires s.h == 0 && s.v == 0
    ensures BusRest(m, f, s) == 0.0 && LeafBw(m, s) == s.bw
    ensures LeafBw(m, s0) == s0.bw * Pow2(Doublings(m, s0.h, s0.v)) as real
  {
  }

  class Tree {
    const mode: Mode
    /** Width of the bus at the root. */
    const initWireBw: real
    var wireBw: real
    /** The share of the wires in the delay and in the energy per read and per search. */
    var delay: real
    var dynamic: real
    var search: real

    constructor (mode: Mode, initWireBw: real)
      ensures this.mode == mode && this.initWireBw == initWireBw && wireBw == initWireBw && search == 0.0
    {
      this.mode, this.initWireBw, wireBw := mode, initWireBw, initWireBw;
      delay, dynamic, search := 0.0, 0.0, 0.0;
    }

    /** The input tree: a search drives every wire of the bus, as wide as it is at that link. */
    method InHtree(h0: nat, v0: nat, len0: real, ht0: real, wire: WireModel) returns (ghost trace: seq<State>)
      modifies this`wireBw, this`delay, this`dynamic, this`search
      ensures trace == Walk(mode, State(h0, v0, len0, ht0, old(wireBw)))
      ensures delay == LinkSum(wire.delay, len0, h0) + LinkSum(wire.delay, ht0, v0)
      ensures dynamic == LinkSum(wire.dynamic, len0, h0) + LinkSum(wire.dynamic, ht0, v0)
      ensures wireBw == old(wireBw) * Pow2(Doublings(mode, h0, v0)) as real
      ensures search == SearchEnergy(mode, wire.dynamic, State(h0, v0, len0, ht0, old(wireBw)))
    {
      hide Then, Walk, LinkSum, Rest, BusRest, LeafBw, OnBus, SearchEnergy;
      var h, v, len, ht := h0, v0, len0, ht0;
      delay, dynamic, search := 0.0, 0.0, 0.0;
      trace := [];
      ghost var s0 := State(h0, v0, len0, ht0, wireBw);
      WalkStart(mode, s0);
      while v > 0 || h > 0
        invariant Then(trace, Walk(mode, State(h, v, len, ht, wireBw))) == Walk(mode, s0)
        invariant delay + Rest(wire.delay, State(h, v, len, ht, wireBw)) == Rest(wire.delay, s0)
        invariant dynamic + Rest(wire.dynamic, State(h, v, len, ht, wireBw)) == Rest(wire.dynamic, s0)
        invariant LeafBw(mode, State(h, v, len, ht, wireBw)) == LeafBw(mode, s0)
        invariant search + BusRest(mode, wire.dynamic, State(h, v, len, ht, wireBw)) == BusRest(mode, wire.dynamic, s0)
        decreases h + v
      {
        ghost var s, before := State(h, v, len, ht, wireBw), trace;
        OneIteration(mode, s, wire.delay);
        OneIteration(mode, s, wire.dynamic);
        BusWidens(mode, s);
        BusIteration(mode, s, wire.dynamic);
        var link, second := 0.0, 0.0;
        var turn: int;
        if h > v {
          link, len, h, turn := len, len / 2.0, h - 1, 0;
        } else if v > 0 && h > 0 {
          link, second, len, ht := len, ht, len / 2.0, ht / 2.0;
          v, h, turn := v - 1, h - 1, 1;
        } else {
          assert h == 0;
          link, ht, v, turn := ht, ht / 2.0, v - 1, 2;
        }
        delay := delay + wire.delay(link);
        dynamic := dynamic + wire.dynamic(link);
        search := search + OnBus(wire.dynamic(link), wireBw);
        if (!mode.ucaTree && turn == 2) || mode.searchTree {
          wireBw := wireBw * 2.0;
        }
        if turn == 1 {
          delay := delay + wire.delay(second);
          dynamic := dynamic + wire.dynamic(second);
          search := search + OnBus(wire.dynamic(second), wireBw);
          if !mode.ucaTree {
            wireBw := wireBw * 2.0;
          }
        }
        trace := trace + [s];
        WalkStep(mode, s, before, trace, Walk(mode, s0));
        assert State(h, v, len, ht, wireBw) == Next(mode, s);
      }
      ghost var s := State(h, v, len, ht, wireBw);
      WalkDone(mode, s, trace, Walk(mode, s0));
      Walked(wire.delay, s, s0);
      Walked(wire.dynamic, s, s0);
      BusWalked(mode, wire.dynamic, s, s0);
      SearchEnergyOfWalk(mode, wire.dynamic, s0);
    }

    /** The output tree: the same walk, but a search drives the bus as wide as at the root all the way. */
    method OutHtree(h0: nat, v0: nat, len0: real, ht0: real, wire: WireModel) returns (ghost trace: seq<State>)
      modifies this`wireBw, this`delay, this`dynamic, this`search
      ensures trace == Walk(mode, State(h0, v0, len0, ht0, old(wireBw)))
      ensures delay == LinkSum(wire.delay, len0, h0) + LinkSum(wire.delay, ht0, v0)
      ensures dynamic == LinkSum(wire.dynamic, len0, h0) + LinkSum(wire.dynamic, ht0, v0)
      ensures wireBw == old(wireBw) * Pow2(Doublings(mode, h0, v0)) as real
      ensures search == old(search) + OnBus(dynamic, initWireBw)
    {
      hide Then, Walk, LinkSum, Rest, BusRest, LeafBw, OnBus;
      var h, v, len, ht := h0, v0, len0, ht0;
      delay, dynamic := 0.0, 0.0;
      trace := [];
      ghost var s0 := State(h0, v0, len0, ht0, wireBw);
      WalkStart(mode, s0);
      while v > 0 || h > 0
        invariant Then(trace, Walk(mode, State(h, v, len, ht, wireBw))) == Walk(mode, s0)
        invariant delay + Rest(wire.delay, State(h, v, len, ht, wireBw)) == Rest(wire.delay, s0)
        invariant dynamic + Rest(wire.dynamic, State(h, v, len, ht, wireBw)) == Rest(wire.dynamic, s0)
        invariant LeafBw(mode, State(h, v, len, ht, wireBw)) == LeafBw(mode, s0)
        invariant search + OnBus(Rest(wire.dynamic, State(h, v, len, ht, wireBw)), initWireBw) ==
                  old(search) + OnBus(Rest(wire.dynamic, s0), initWireBw)
        decreases h + v
      {
        ghost var s, before := State(h, v, len, ht, wireBw), trace;
        OneIteration(mode, s, wire.delay);
        OneIteration(mode, s, wire.dynamic);
        BusWidens(mode, s);
        RootIteration(mode, s, wire.dynamic, initWireBw);
        var link, second := 0.0, 0.0;
        var turn: int;
        if h > v {
          link, len, h, turn := len, len / 2.0, h - 1, 0;
        } else if v > 0 && h > 0 {
          link, second, len, ht := len, ht, len / 2.0, ht / 2.0;
          v, h, turn := v - 1, h - 1, 1;
        } else {
          assert h == 0;
          link, ht, v, turn := ht, ht / 2.0, v - 1, 2;
        }
        delay := delay + wire.delay(link);
        dynamic := dynamic + wire.dynamic(link);
        search := search + OnBus(wire.dynamic(link), initWireBw);
        if (!mode.ucaTree && turn == 2) || mode.searchTree {
          wireBw := wireBw * 2.0;
        }
        if turn == 1 {
          delay := delay + wire.delay(second);
          dynamic := dynamic + wire.dynamic(second);
          search := search + OnBus(wire.dynamic(second), initWireBw);
          if !mode.ucaTree {
            wireBw := wireBw * 2.0;
          }
        }
        trace := trace + [s];
        WalkStep(mode, s, before, trace, Walk(mode, s0));
        assert State(h, v, len, ht, wireBw) == Next(mode, s);
      }
      ghost var s := State(h, v, len, ht, wireBw);
      WalkDone(mode, s, trace, Walk(mode, s0));
      Walked(wire.delay, s, s0);
      Walked(wire.dynamic, s, s0);
      BusWalked(mode, wire.dynamic, s, s0);
      Both(initWireBw, 0.0, 0.0);
    }
  }
}
