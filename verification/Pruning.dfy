/** Why keeping one configuration per capacity is enough: whatever can be assembled from the
    full list is matched or beaten by something assembled from the pruned one. */
module Pruning {
  import opened Metrics
  import opened Enumeration

  function Capacities(ts: seq<Totals>): (caps: seq<int>)
    ensures |caps| == |ts|
    ensures forall i | 0 <= i < |ts| :: caps[i] == ts[i].capacity
  {
    seq(|ts|, i requires 0 <= i < |ts| => ts[i].capacity)
  }

  function Pick<T>(ts: seq<T>, s: seq<nat>): (r: seq<T>)
    requires Within(s, 0, |ts|)
    ensures |r| == |s|
    ensures forall i | 0 <= i < |s| :: r[i] == ts[s[i]]
  {
    seq(|s|, i requires 0 <= i < |s| => ts[s[i]])
  }

  // ---------------------------------------------------------------- one entry per capacity

  ghost predicate Ranked(r: Ranking, ts: seq<Totals>) {
    forall i, j | 0 <= i < j < |ts| :: NotWorse(r, ts[i], ts[j])
  }

  /** y can stand in for x: same capacity and no worse, up to the slack. */
  predicate Beats(r: Ranking, s: Slack, y: Totals, x: Totals) {
    y.capacity == x.capacity && Leads(r, s, y, x)
  }

  ghost predicate BeatenBySome(r: Ranking, s: Slack, kept: seq<Totals>, x: Totals) {
    exists y | y in kept :: Beats(r, s, y, x)
  }

  ghost predicate Covers(r: Ranking, s: Slack, kept: seq<Totals>, all: seq<Totals>) {
    forall x | x in all :: BeatenBySome(r, s, kept, x)
  }

  /** The comparator is transitive on the list, so it can be sorted by it. */
  ghost predicate Ordered(r: Ranking, ts: seq<Totals>) {
    forall x, y, z | x in ts && y in ts && z in ts && NotWorse(r, x, y) && NotWorse(r, y, z) :: NotWorse(r, x, z)
  }

  /** The tolerance does not act on the list. */
  ghost predicate Apart(r: Ranking, ts: seq<Totals>) {
    forall x, y | x in ts && y in ts :: Discernible(r, x, y)
  }

  /** Sorting the list puts it in order up to the slack. */
  ghost predicate Fit(r: Ranking, s: Slack, ts: seq<Totals>) {
    match s
    case Exact => Apart(r, ts)
    case UpTo(eps) => eps >= EPS && Ordered(r, ts)
  }

  lemma FitOrdered(r: Ranking, s: Slack, ts: seq<Totals>)
    requires Fit(r, s, ts)
    ensures s.Fair() && Ordered(r, ts)
  {
    hide NotWorse, Discernible;
    if s.Exact? {
      forall x, y, z | x in ts && y in ts && z in ts && NotWorse(r, x, y) && NotWorse(r, y, z)
        ensures NotWorse(r, x, z)
      {
        TotalPreorder(r, x, y, z);
      }
    }
  }

  lemma FitLeads(r: Ranking, s: Slack, ts: seq<Totals>, x: Totals, y: Totals)
    requires Fit(r, s, ts) && x in ts && y in ts && NotWorse(r, x, y)
    ensures s.Fair() && Leads(r, s, x, y)
  {
    CodedLeads(r, x, y);
    if s.UpTo? {
      LeadsWeakens(r, UpTo(EPS), s, x, y);
    }
  }

  ghost predicate NonNegative(ts: seq<Totals>) {
    forall t | t in ts :: t.capacity >= 0
  }

  ghost predicate DistinctCapacities(ts: seq<Totals>) {
    forall i, j | 0 <= i < j < |ts| :: ts[i].capacity < ts[j].capacity
  }

  ghost predicate DrawnFrom(all: seq<Totals>, ts: seq<Totals>) {
    forall t | t in ts :: t in all
  }

  ghost predicate RankedBySome(r: Ranking, kept: seq<Totals>, x: Totals) {
    exists y | y in kept :: y.capacity == x.capacity && NotWorse(r, y, x)
  }

  /** For each entry there is one of its capacity that the comparator ranks no worse. */
  ghost predicate RankedCover(r: Ranking, kept: seq<Totals>, all: seq<Totals>) {
    forall x | x in all :: RankedBySome(r, kept, x)
  }

  /** What pruning may leave of a list: one best entry for each capacity present. */
  ghost predicate BestPerCapacity(r: Ranking, all: seq<Totals>, kept: seq<Totals>) {
    DrawnFrom(all, kept) && RankedCover(r, kept, all) && DistinctCapacities(kept)
  }

  lemma BestCovers(r: Ranking, s: Slack, all: seq<Totals>, kept: seq<Totals>)
    requires Fit(r, s, all) && BestPerCapacity(r, all, kept)
    ensures s.Fair() && Covers(r, s, kept, all)
  {
    hide NotWorse, Leads, Fit, DistinctCapacities, Ordered;
    FitOrdered(r, s, all);
    forall x | x in all
      ensures BeatenBySome(r, s, kept, x)
    {
      assert RankedBySome(r, kept, x);
      var y :| y in kept && y.capacity == x.capacity && NotWorse(r, y, x);
      FitLeads(r, s, all, y, x);
      assert Beats(r, s, y, x);
    }
  }

  /** The positions the pruning pass keeps among the first n: those whose capacity differs from
      the one before; the pass starts from -1. */
  function Kept(caps: seq<int>, n: nat): seq<nat>
    requires n <= |caps|
  {
    if n == 0 then []
    else Kept(caps, n - 1) + if (if n == 1 then -1 else caps[n - 2]) != caps[n - 1] then [n - 1] else []
  }

  lemma {:induction false} KeptAscends(caps: seq<int>, n: nat)
    requires n <= |caps|
    requires forall i, j | 0 <= i < j < |caps| :: caps[i] <= caps[j]
    ensures Within(Kept(caps, n), 0, n)
    ensures forall i, j | 0 <= i < j < |Kept(caps, n)| :: caps[Kept(caps, n)[i]] < caps[Kept(caps, n)[j]]
  {
    if n > 0 {
      KeptAscends(caps, n - 1);
      var before, now := Kept(caps, n - 1), Kept(caps, n);
      if now == before + [n - 1] && n > 1 {
        forall i | 0 <= i < |before|
          ensures caps[before[i]] < caps[n - 1]
        {
          assert before[i] == n - 2 || before[i] < n - 2;
        }
      }
    }
  }

  /** Each of the first n positions has a kept one at or before it with the same capacity. */
  lemma {:induction false} KeptFor(caps: seq<int>, n: nat, x: nat) returns (k: nat)
    requires x < n <= |caps| && caps[0] >= 0
    ensures k < |Kept(caps, n)| && Kept(caps, n)[k] <= x && caps[Kept(caps, n)[k]] == caps[x]
  {
    if x < n - 1 {
      k := KeptFor(caps, n - 1, x);
    } else if (if n == 1 then -1 else caps[n - 2]) != caps[n - 1] {
      k := |Kept(caps, n - 1)|;
    } else {
      k := KeptFor(caps, n - 1, n - 2);
    }
  }

  lemma KeptNone(caps: seq<int>)
    ensures Kept(caps, 0) == []
  {
  }

  lemma KeptStep(caps: seq<int>, i: nat, last: int)
    requires i < |caps| && last == (if i == 0 then -1 else caps[i - 1]) && Within(Kept(caps, i), 0, i)
    ensures Kept(caps, i + 1) == if last != caps[i] then Kept(caps, i) + [i] else Kept(caps, i)
    ensures Within(Kept(caps, i + 1), 0, i + 1)
  {
  }

  lemma RankedCapacities(r: Ranking, ts: seq<Totals>)
    requires Ranked(r, ts)
    ensures forall i, j | 0 <= i < j < |ts| :: ts[i].capacity <= ts[j].capacity
  {
    forall i, j | 0 <= i < j < |ts|
      ensures ts[i].capacity <= ts[j].capacity
    {
      assert NotWorse(r, ts[i], ts[j]);
    }
  }

  lemma RankedBeats(r: Ranking, ts: seq<Totals>, k: nat, i: nat)
    requires Ranked(r, ts) && k <= i < |ts|
    ensures NotWorse(r, ts[k], ts[i])
  {
  }

  /** After sorting, pruning keeps one entry for each capacity present, in strictly increasing
      order of capacity, and each kept entry is ranked no worse than all others of its capacity. */
  lemma PruneIsCovering(r: Ranking, ts: seq<Totals>, kept: seq<nat>)
    requires Ranked(r, ts) && NonNegative(ts)
    requires kept == Kept(Capacities(ts), |ts|)
    ensures Within(kept, 0, |ts|)
    ensures BestPerCapacity(r, ts, Pick(ts, kept))
  {
    hide Ranked, NotWorse, Kept;
    var caps := Capacities(ts);
    RankedCapacities(r, ts);
    KeptAscends(caps, |ts|);
    var survivors := Pick(ts, kept);
    forall x | x in ts
      ensures RankedBySome(r, survivors, x)
    {
      var i :| 0 <= i < |ts| && ts[i] == x;
      assert ts[0] in ts;
      var k := KeptFor(caps, |ts|, i);
      RankedBeats(r, ts, kept[k], i);
      assert survivors[k] in survivors;
    }
  }

  // ---------------------------------------------------------------- exchanging parts

  /** Replacing every part by one that beats it yields a whole that beats the original; the slacks add up. */
  lemma {:induction false} ExchangeParts(r: Ranking, s: Slack, ys: seq<Totals>, xs: seq<Totals>)
    requires s.Fair() && |ys| == |xs| && forall i | 0 <= i < |xs| :: Beats(r, s, ys[i], xs[i])
    ensures Times(|xs|, s).Fair() && Beats(r, Times(|xs|, s), Sum(ys), Sum(xs))
  {
    hide Leads;
    TimesAmount(|xs|, s);
    if xs == [] {
      LeadsSelf(r, Exact, ZERO);
    } else {
      ExchangeParts(r, s, ys[1..], xs[1..]);
      assert Beats(r, s, ys[0], xs[0]);
      LeadsAdds(r, s, Times(|xs| - 1, s), ys[0], xs[0], Sum(ys[1..]), Sum(xs[1..]));
    }
  }

  /** n copies of a better configuration beat n copies of the other. */
  lemma CopiesCover(r: Ranking, s: Slack, n: nat, y: Totals, x: Totals)
    requires s.Fair() && Beats(r, s, y, x)
    ensures Beats(r, Times(n, s), Copies(n, y), Copies(n, x))
  {
    CopiesLead(r, s, n, y, x);
    CopiesCapacity(n, y, x);
  }

  lemma {:induction false} CopiesCapacity(n: nat, y: Totals, x: Totals)
    requires y.capacity == x.capacity
    ensures Copies(n, y).capacity == Copies(n, x).capacity
  {
    if n > 0 {
      CopiesCapacity(n - 1, y, x);
    }
  }

  // ---------------------------------------------------------------- the order of the parts does not matter

  function InsertIndex(x: nat, s: seq<nat>): seq<nat> {
    if s == [] || x <= s[0] then [x] + s else [s[0]] + InsertIndex(x, s[1..])
  }

  lemma {:induction false} InsertIndexSelects(x: nat, s: seq<nat>, lo: nat, hi: nat)
    requires Selection(s, lo, hi) && lo <= x < hi
    ensures Selection(InsertIndex(x, s), lo, hi) && |InsertIndex(x, s)| == |s| + 1
  {
    if s == [] || x <= s[0] {
      assert ([x] + s)[1..] == s;
    } else {
      InsertIndexSelects(x, s[1..], s[0], hi);
      assert ([s[0]] + InsertIndex(x, s[1..]))[1..] == InsertIndex(x, s[1..]);
    }
  }

  lemma {:induction false} InsertIndexMembers(x: nat, s: seq<nat>)
    ensures forall i | i in InsertIndex(x, s) :: i == x || i in s
  {
    if s != [] && x > s[0] {
      InsertIndexMembers(x, s[1..]);
    }
  }

  lemma PickCons<T>(ts: seq<T>, x: nat, s: seq<nat>)
    requires x < |ts| && Within(s, 0, |ts|)
    ensures Within([x] + s, 0, |ts|)
    ensures Pick(ts, [x] + s) == [ts[x]] + Pick(ts, s)
  {
  }

  lemma PickSnoc<T>(ts: seq<T>, s: seq<nat>, x: nat)
    requires x < |ts| && Within(s, 0, |ts|)
    ensures Within(s + [x], 0, |ts|)
    ensures Pick(ts, s + [x]) == Pick(ts, s) + [ts[x]]
  {
  }

  lemma {:induction false} InsertIndexSum(x: nat, s: seq<nat>, ts: seq<Totals>)
    requires x < |ts| && Within(s, 0, |ts|)
    ensures Within(InsertIndex(x, s), 0, |ts|)
    ensures Sum(Pick(ts, InsertIndex(x, s))) == ts[x].Plus(Sum(Pick(ts, s)))
  {
    if s == [] || x <= s[0] {
      PickCons(ts, x, s);
      assert Pick(ts, [x] + s)[1..] == Pick(ts, s);
    } else {
      InsertIndexSum(x, s[1..], ts);
      PickCons(ts, s[0], s[1..]);
      PickCons(ts, s[0], InsertIndex(x, s[1..]));
      assert s == [s[0]] + s[1..];
      assert Pick(ts, s)[1..] == Pick(ts, s[1..]);
      assert Pick(ts, InsertIndex(x, s))[1..] == Pick(ts, InsertIndex(x, s[1..]));
    }
  }

  lemma {:induction false} LoadIsCapacity(ts: seq<Totals>, s: seq<nat>)
    requires Within(s, 0, |ts|)
    ensures Load(Capacities(ts), s) == Sum(Pick(ts, s)).capacity
  {
    if s != [] {
      LoadIsCapacity(ts, s[1..]);
      assert Pick(ts, s)[1..] == Pick(ts, s[1..]);
    }
  }

  /** Any list of entries has an arrangement that the enumeration walks through, with equal totals. */
  lemma {:induction false} Arranged(kept: seq<Totals>, ys: seq<Totals>) returns (s: seq<nat>)
    requires forall y | y in ys :: y in kept
    ensures |s| == |ys| && Selection(s, 0, |kept|) && Within(s, 0, |kept|)
    ensures Sum(Pick(kept, s)) == Sum(ys)
    ensures forall i | i in s :: i < |kept| && kept[i] in ys
  {
    s := [];
    if ys != [] {
      var t := Arranged(kept, ys[1..]);
      assert ys[0] in kept;
      var x :| 0 <= x < |kept| && kept[x] == ys[0];
      InsertIndexSelects(x, t, 0, |kept|);
      InsertIndexSum(x, t, kept);
      InsertIndexMembers(x, t);
      s := InsertIndex(x, t);
    }
  }

  // ---------------------------------------------------------------- the optimum survives

  lemma {:induction false} StandIns(r: Ranking, s: Slack, kept: seq<Totals>, all: seq<Totals>, design: seq<Totals>)
    returns (ys: seq<Totals>)
    requires Covers(r, s, kept, all) && DrawnFrom(all, design)
    ensures |ys| == |design| && forall y | y in ys :: y in kept
    ensures forall i | 0 <= i < |design| :: Beats(r, s, ys[i], design[i])
  {
    hide Beats;
    ys := [];
    if design != [] {
      var rest := StandIns(r, s, kept, all, design[1..]);
      assert design[0] in all && BeatenBySome(r, s, kept, design[0]);
      var y :| y in kept && Beats(r, s, y, design[0]);
      ys := [y] + rest;
    }
  }

  /** Every design assembled from the full list is matched or beaten by one that the exact-capacity
      search over the pruned list enumerates. */
  lemma PrunedSearchFindsBetter(r: Ranking, s: Slack, kept: seq<Totals>, all: seq<Totals>, design: seq<Totals>)
    returns (mix: seq<nat>)
    requires s.Fair() && NonNegative(kept) && Covers(r, s, kept, all) && DrawnFrom(all, design)
    ensures mix in Fillings(Capacities(kept), 0, Sum(design).capacity, |design|)
    ensures Within(mix, 0, |kept|) && Beats(r, Times(|design|, s), Sum(Pick(kept, mix)), Sum(design))
  {
    hide Leads, Covers;
    var ys := StandIns(r, s, kept, all, design);
    ExchangeParts(r, s, ys, design);
    mix := Arranged(kept, ys);
    LoadIsCapacity(kept, mix);
    FillingsMember(Capacities(kept), 0, Sum(design).capacity, |design|, mix);
  }
}
