/** The order MemCAD ranks configurations by: capacity first, then three metrics the user
    chooses, energies being compared only up to EPS. */
module Metrics {

  /** Energies closer than this are treated as equal. */
  const EPS: real := 0.0000001

  datatype Metric = Bandwidth | Energy | Cost

  /** The user's choice of metrics; the same metric may be named more than once. */
  datatype Ranking = Ranking(first: Metric, second: Metric, third: Metric)
  {
    predicate UsesEnergy() {
      first.Energy? || second.Energy? || third.Energy?
    }
  }

  /** The figures that channels, BoBs and memories have in common; all of them add up. */
  datatype Totals = Totals(capacity: int, bandwidth: int,
                           energyPerRead: real, energyPerWrite: real, energyPerAccess: real,
                           cost: real)
  {
    function Plus(t: Totals): Totals {
      Totals(capacity + t.capacity, bandwidth + t.bandwidth,
             energyPerRead + t.energyPerRead, energyPerWrite + t.energyPerWrite,
             energyPerAccess + t.energyPerAccess, cost + t.cost)
    }
  }

  const ZERO := Totals(0, 0, 0.0, 0.0, 0.0, 0.0)

  function Sum(ts: seq<Totals>): Totals {
    if ts == [] then ZERO else ts[0].Plus(Sum(ts[1..]))
  }

  /** n copies of one configuration side by side. */
  function Copies(n: nat, t: Totals): Totals {
    if n == 0 then ZERO else t.Plus(Copies(n - 1, t))
  }

  /** n times each figure. */
  function Multiplied(n: int, t: Totals): Totals {
    Totals(n * t.capacity, n * t.bandwidth, n as real * t.energyPerRead, n as real * t.energyPerWrite,
           n as real * t.energyPerAccess, n as real * t.cost)
  }

  lemma {:induction false} CopiesMultiply(n: nat, t: Totals)
    ensures Copies(n, t) == Multiplied(n, t)
  {
    hide Multiplied;
    if n > 0 {
      CopiesMultiply(n - 1, t);
      OneMore(n - 1, t);
    } else {
      NoneAtAll(t);
    }
  }

  lemma NoneAtAll(t: Totals)
    ensures Multiplied(0, t) == ZERO
  {
  }

  lemma OneMore(n: int, t: Totals)
    ensures Multiplied(n + 1, t) == t.Plus(Multiplied(n, t))
  {
    Distributes(n, t.energyPerRead);
    Distributes(n, t.energyPerWrite);
    Distributes(n, t.energyPerAccess);
    Distributes(n, t.cost);
  }

  lemma Distributes(n: int, x: real)
    ensures (n + 1) as real * x == x + n as real * x
  {
    assert (n + 1) as real == n as real + 1.0;
  }

  // ---------------------------------------------------------------- the comparator

  predicate Near(x: real, y: real) {
    -EPS <= x - y <= EPS
  }

  datatype Verdict = Better | Worse | Tie

  /** One `switch` of the comparator. */
  function Judge(m: Metric, a: Totals, b: Totals): Verdict {
    match m
    case Cost => if a.cost < b.cost then Better else if a.cost > b.cost then Worse else Tie
    case Bandwidth => if a.bandwidth > b.bandwidth then Better else if a.bandwidth < b.bandwidth then Worse else Tie
    case Energy =>
      if Near(a.energyPerAccess, b.energyPerAccess) then Tie
      else if a.energyPerAccess < b.energyPerAccess then Better else Worse
  }

  /** The comparator shared by channels, BoBs and memories. It answers true on ties. */
  predicate NotWorse(r: Ranking, a: Totals, b: Totals) {
    if a.capacity != b.capacity then a.capacity < b.capacity
    else if !Judge(r.first, a, b).Tie? then Judge(r.first, a, b).Better?
    else if !Judge(r.second, a, b).Tie? then Judge(r.second, a, b).Better?
    else !Judge(r.third, a, b).Worse?
  }

  // ---------------------------------------------------------------- when it is an order

  ghost predicate TransitiveOver(r: Ranking, energies: iset<real>) {
    forall a: Totals, b: Totals, c: Totals |
      && a.energyPerAccess in energies && b.energyPerAccess in energies && c.energyPerAccess in energies
      && NotWorse(r, a, b) && NotWorse(r, b, c)
      :: NotWorse(r, a, c)
  }

  /** No chain of near energies leads to energies that are not near. */
  ghost predicate Separate(energies: iset<real>) {
    forall x, y, z :: x in energies && y in energies && z in energies && Near(x, y) && Near(y, z) ==> Near(x, z)
  }

  /** The tolerance breaks transitivity: each energy is near the next, the first not near the last. */
  lemma ToleranceIsNotTransitive()
    ensures var c := ZERO.(capacity := 4);
            var a, b := c.(energyPerAccess := 0.00000012), c.(energyPerAccess := 0.00000006);
            var r := Ranking(Cost, Bandwidth, Energy);
            NotWorse(r, a, b) && NotWorse(r, b, c) && !NotWorse(r, a, c)
  {
  }

  lemma JudgeComposes(m: Metric, a: Totals, b: Totals, c: Totals)
    requires m.Energy? ==>
               var (x, y, z) := (a.energyPerAccess, b.energyPerAccess, c.energyPerAccess);
               && (Near(x, y) && Near(y, z) ==> Near(x, z))
               && (Near(y, x) && Near(x, z) ==> Near(y, z))
               && (Near(x, z) && Near(z, y) ==> Near(x, y))
    ensures !Judge(m, a, b).Worse? && !Judge(m, b, c).Worse? ==>
              Judge(m, a, c) == if Judge(m, a, b).Tie? then Judge(m, b, c) else Better
  {
  }

  /** The comparator is transitive on all configurations with energies drawn from a set exactly
      when energy is not ranked or the set separates. */
  lemma TransitiveIffSeparate(r: Ranking, energies: iset<real>)
    ensures TransitiveOver(r, energies) <==> !r.UsesEnergy() || Separate(energies)
  {
    if !r.UsesEnergy() || Separate(energies) {
      forall a: Totals, b: Totals, c: Totals |
        && a.energyPerAccess in energies && b.energyPerAccess in energies && c.energyPerAccess in energies
        && NotWorse(r, a, b) && NotWorse(r, b, c)
        ensures NotWorse(r, a, c)
      {
        JudgeComposes(r.first, a, b, c);
        JudgeComposes(r.second, a, b, c);
        JudgeComposes(r.third, a, b, c);
      }
    }
    if r.UsesEnergy() && !Separate(energies) {
      var x, y, z :| x in energies && y in energies && z in energies && Near(x, y) && Near(y, z) && !Near(x, z);
      var a, b, c := ZERO.(energyPerAccess := x), ZERO.(energyPerAccess := y), ZERO.(energyPerAccess := z);
      if x > z {
        assert NotWorse(r, a, b) && NotWorse(r, b, c) && !NotWorse(r, a, c);
      } else {
        assert NotWorse(r, c, b) && NotWorse(r, b, a) && !NotWorse(r, c, a);
      }
    }
  }

  // ---------------------------------------------------------------- the exact order

  /** The quantity a metric minimises. */
  function Weight(m: Metric, t: Totals): real {
    match m
    case Cost => t.cost
    case Bandwidth => -(t.bandwidth as real)
    case Energy => t.energyPerAccess
  }

  /** Lexicographic order on capacity and the three weights, without any tolerance. */
  predicate Precedes(r: Ranking, a: Totals, b: Totals) {
    if a.capacity != b.capacity then a.capacity < b.capacity
    else if Weight(r.first, a) != Weight(r.first, b) then Weight(r.first, a) < Weight(r.first, b)
    else if Weight(r.second, a) != Weight(r.second, b) then Weight(r.second, a) < Weight(r.second, b)
    else Weight(r.third, a) <= Weight(r.third, b)
  }

  /** In the default ranking less capacity comes first, then lower cost, then higher bandwidth, then less energy. */
  lemma DefaultOrder(a: Totals, b: Totals)
    ensures Precedes(Ranking(Cost, Bandwidth, Energy), a, b) <==>
              || a.capacity < b.capacity
              || (a.capacity == b.capacity && a.cost < b.cost)
              || (a.capacity == b.capacity && a.cost == b.cost && a.bandwidth > b.bandwidth)
              || (a.capacity == b.capacity && a.cost == b.cost && a.bandwidth == b.bandwidth
                  && a.energyPerAccess <= b.energyPerAccess)
  {
  }

  /** In any ranking the first metric on which two configurations of one capacity differ decides. */
  lemma FirstMetricDecides(r: Ranking, a: Totals, b: Totals)
    ensures a.capacity == b.capacity && r.first == Cost && a.cost < b.cost ==> Precedes(r, a, b) && !Precedes(r, b, a)
    ensures a.capacity == b.capacity && r.first == Bandwidth && a.bandwidth > b.bandwidth ==>
              Precedes(r, a, b) && !Precedes(r, b, a)
    ensures a.capacity == b.capacity && r.first == Energy && a.energyPerAccess < b.energyPerAccess ==>
              Precedes(r, a, b) && !Precedes(r, b, a)
    ensures var rest := r.(first := r.second, second := r.third);
            Weight(r.first, a) == Weight(r.first, b) ==> (Precedes(r, a, b) <==> Precedes(rest, a, b))
  {
  }

  /** The comparator gets as far as comparing the energies of a and b. */
  predicate EnergyDecides(r: Ranking, a: Totals, b: Totals) {
    && a.capacity == b.capacity
    && (r.first.Energy? || (Weight(r.first, a) == Weight(r.first, b) &&
         (r.second.Energy? || (Weight(r.second, a) == Weight(r.second, b) && r.third.Energy?))))
  }

  /** The tolerance does not act: if it comes to energies, they are equal or more than EPS apart. */
  predicate Discernible(r: Ranking, a: Totals, b: Totals) {
    EnergyDecides(r, a, b) ==> a.energyPerAccess == b.energyPerAccess || !Near(a.energyPerAccess, b.energyPerAccess)
  }

  /** Then the comparator is the exact lexicographic order. */
  lemma CodedOrderIsExact(r: Ranking, a: Totals, b: Totals)
    requires Discernible(r, a, b)
    ensures NotWorse(r, a, b) <==> Precedes(r, a, b)
  {
  }

  /** With energy ranked last, the exact order implies the coded one whatever the energies. */
  lemma ExactImpliesCoded(r: Ranking, a: Totals, b: Totals)
    requires Precedes(r, a, b) && !r.first.Energy? && !r.second.Energy?
    ensures NotWorse(r, a, b)
  {
  }

  /** The exact order is a total preorder. */
  lemma PrecedesPreorder(r: Ranking, a: Totals, b: Totals, c: Totals)
    ensures Precedes(r, a, a)
    ensures Precedes(r, a, b) || Precedes(r, b, a)
    ensures Precedes(r, a, b) && Precedes(r, b, c) ==> Precedes(r, a, c)
  {
  }

  /** The coded order is reflexive, total and transitive wherever the tolerance does not act. */
  lemma TotalPreorder(r: Ranking, a: Totals, b: Totals, c: Totals)
    requires Discernible(r, a, b) && Discernible(r, b, c) && Discernible(r, a, c)
    ensures NotWorse(r, a, a)
    ensures NotWorse(r, a, b) || NotWorse(r, b, a)
    ensures NotWorse(r, a, b) && NotWorse(r, b, c) ==> NotWorse(r, a, c)
  {
    hide NotWorse, Precedes;
    assert Discernible(r, a, a) && Discernible(r, b, a);
    CodedOrderIsExact(r, a, a);
    CodedOrderIsExact(r, a, b);
    CodedOrderIsExact(r, b, a);
    CodedOrderIsExact(r, b, c);
    CodedOrderIsExact(r, a, c);
    PrecedesPreorder(r, a, b, c);
  }

  /** Adding one configuration to both sides changes neither order. */
  lemma TranslationInvariant(r: Ranking, a: Totals, b: Totals, c: Totals)
    ensures NotWorse(r, a.Plus(c), b.Plus(c)) <==> NotWorse(r, a, b)
    ensures Precedes(r, a.Plus(c), b.Plus(c)) <==> Precedes(r, a, b)
  {
    hide Judge, Weight;
    JudgeTranslates(r.first, a, b, c);
    JudgeTranslates(r.second, a, b, c);
    JudgeTranslates(r.third, a, b, c);
  }

  lemma JudgeTranslates(m: Metric, a: Totals, b: Totals, c: Totals)
    ensures Judge(m, a.Plus(c), b.Plus(c)) == Judge(m, a, b)
    ensures Weight(m, a.Plus(c)) == Weight(m, a) + Weight(m, c)
    ensures Weight(m, b.Plus(c)) == Weight(m, b) + Weight(m, c)
  {
  }

  /** Two exact orders add up. */
  lemma Monotone(r: Ranking, a: Totals, b: Totals, c: Totals, d: Totals)
    requires Precedes(r, a, b) && Precedes(r, c, d)
    ensures Precedes(r, a.Plus(c), b.Plus(d))
  {
    hide Precedes;
    TranslationInvariant(r, a, b, c);
    TranslationInvariant(r, c, d, b);
    assert c.Plus(b) == b.Plus(c) && d.Plus(b) == b.Plus(d);
    PrecedesPreorder(r, a.Plus(c), b.Plus(c), b.Plus(d));
  }

  /** Copying both sides n times keeps the exact order, and for n >= 1 it also reflects it. */
  lemma {:induction false} CopiesKeepOrder(r: Ranking, n: nat, a: Totals, b: Totals)
    ensures Precedes(r, a, b) ==> Precedes(r, Copies(n, a), Copies(n, b))
    ensures n >= 1 && Precedes(r, Copies(n, a), Copies(n, b)) ==> Precedes(r, a, b)
  {
    hide Precedes;
    var a', b' := Copies(n, a), Copies(n, b);
    PrecedesPreorder(r, a', a', a');
    if n > 0 {
      a', b' := Copies(n - 1, a), Copies(n - 1, b);
      CopiesKeepOrder(r, n - 1, a, b);
      CopiesKeepOrder(r, n - 1, b, a);
      PrecedesPreorder(r, a, b, a);
      if Precedes(r, a, b) {
        Monotone(r, a, b, a', b');
      } else if Precedes(r, a.Plus(a'), b.Plus(b')) {
        // b comes before a, so b' does not come after a'; adding a on both sides closes the circle
        TranslationInvariant(r, b', a', a);
        assert b'.Plus(a) == a.Plus(b') && a'.Plus(a) == a.Plus(a');
        PrecedesPreorder(r, a.Plus(b'), a.Plus(a'), b.Plus(b'));
        TranslationInvariant(r, a, b, b');
      }
    }
  }

  // ---------------------------------------------------------------- orders with a slack in energy

  /** Either the exact order, or the order up to an amount of energy: exact in the metrics ranked before energy,
      then within that amount, and blind to the metrics ranked after it. */
  datatype Slack = Exact | UpTo(eps: real)
  {
    function Amount(): real {
      if Exact? then 0.0 else eps
    }

    function Plus(s: Slack): Slack {
      if Exact? && s.Exact? then Exact else UpTo(Amount() + s.Amount())
    }

    predicate Fair() {
      Amount() >= 0.0
    }
  }

  function Times(n: nat, s: Slack): Slack {
    if n == 0 then Exact else s.Plus(Times(n - 1, s))
  }

  lemma {:induction false} TimesAmount(n: nat, s: Slack)
    ensures Times(n, s) == if s.Exact? || n == 0 then Exact else UpTo(n as real * s.eps)
    ensures s.Fair() ==> Times(n, s).Fair()
  {
    if n > 0 {
      TimesAmount(n - 1, s);
    }
  }

  predicate Leads(r: Ranking, s: Slack, a: Totals, b: Totals) {
    match s
    case Exact => Precedes(r, a, b)
    case UpTo(eps) =>
      if a.capacity != b.capacity then a.capacity < b.capacity
      else if r.first.Energy? then a.energyPerAccess <= b.energyPerAccess + eps
      else if Weight(r.first, a) != Weight(r.first, b) then Weight(r.first, a) < Weight(r.first, b)
      else if r.second.Energy? then a.energyPerAccess <= b.energyPerAccess + eps
      else if Weight(r.second, a) != Weight(r.second, b) then Weight(r.second, a) < Weight(r.second, b)
      else if r.third.Energy? then a.energyPerAccess <= b.energyPerAccess + eps
      else Weight(r.third, a) <= Weight(r.third, b)
  }

  /** Whatever the comparator accepts is in order up to EPS, and where the tolerance does not act in exact order. */
  lemma CodedLeads(r: Ranking, a: Totals, b: Totals)
    requires NotWorse(r, a, b)
    ensures Leads(r, UpTo(EPS), a, b)
    ensures Discernible(r, a, b) ==> Leads(r, Exact, a, b)
  {
  }

  /** The order with a slack is the exact one, except that where energy decides it tolerates up to the slack. */
  lemma LeadsIff(r: Ranking, eps: real, a: Totals, b: Totals)
    requires eps >= 0.0
    ensures Leads(r, UpTo(eps), a, b) <==>
              Precedes(r, a, b) || (EnergyDecides(r, a, b) && a.energyPerAccess <= b.energyPerAccess + eps)
  {
  }

  lemma LeadsWeakens(r: Ranking, s: Slack, t: Slack, a: Totals, b: Totals)
    requires Leads(r, s, a, b) && t.UpTo? && s.Amount() <= t.Amount()
    ensures Leads(r, t, a, b)
  {
  }

  lemma LeadsSelf(r: Ranking, s: Slack, a: Totals)
    requires s.Fair()
    ensures Leads(r, s, a, a)
  {
  }

  /** Slacks add up along a chain. */
  lemma LeadsChain(r: Ranking, s: Slack, t: Slack, a: Totals, b: Totals, c: Totals)
    requires s.Fair() && t.Fair() && Leads(r, s, a, b) && Leads(r, t, b, c)
    ensures Leads(r, s.Plus(t), a, c)
  {
    if s.Exact? && t.Exact? {
      PrecedesPreorder(r, a, b, c);
    } else {
      LeadsWeakens(r, s, UpTo(s.Amount()), a, b);
      LeadsWeakens(r, t, UpTo(t.Amount()), b, c);
    }
  }

  /** And so they do when configurations are put side by side. */
  lemma LeadsAdds(r: Ranking, s: Slack, t: Slack, a: Totals, b: Totals, c: Totals, d: Totals)
    requires s.Fair() && t.Fair() && Leads(r, s, a, b) && Leads(r, t, c, d)
    ensures Leads(r, s.Plus(t), a.Plus(c), b.Plus(d))
  {
    if s.Exact? && t.Exact? {
      Monotone(r, a, b, c, d);
    } else {
      LeadsWeakens(r, s, UpTo(s.Amount()), a, b);
      LeadsWeakens(r, t, UpTo(t.Amount()), c, d);
    }
  }

  lemma {:induction false} CopiesLead(r: Ranking, s: Slack, n: nat, a: Totals, b: Totals)
    requires s.Fair() && Leads(r, s, a, b)
    ensures Leads(r, Times(n, s), Copies(n, a), Copies(n, b))
  {
    if n == 0 {
      LeadsSelf(r, Exact, ZERO);
    } else {
      CopiesLead(r, s, n - 1, a, b);
      TimesAmount(n - 1, s);
      LeadsAdds(r, s, Times(n - 1, s), a, b, Copies(n - 1, a), Copies(n - 1, b));
    }
  }

  // ---------------------------------------------------------------- energies on a grid

  function Multiple(q: real, k: int): real {
    k as real * q
  }

  ghost predicate OnGrid(q: real, e: real) {
    exists k :: e == Multiple(q, k)
  }

  /** If energy is ranked, the energy is a multiple of a quantum above EPS. */
  ghost predicate Comparable(r: Ranking, q: real, t: Totals) {
    r.UsesEnergy() ==> q > EPS && OnGrid(q, t.energyPerAccess)
  }

  /** On a grid coarser than EPS the tolerance never acts. */
  lemma GridDiscernible(r: Ranking, q: real, a: Totals, b: Totals)
    requires Comparable(r, q, a) && Comparable(r, q, b)
    ensures Discernible(r, a, b)
  {
    if r.UsesEnergy() {
      GridTies(q, a.energyPerAccess, b.energyPerAccess);
    }
  }

  lemma GridTies(q: real, x: real, y: real)
    requires q > EPS && OnGrid(q, x) && OnGrid(q, y)
    ensures Near(x, y) <==> x == y
  {
    var j :| x == Multiple(q, j);
    var k :| y == Multiple(q, k);
    assert x - y == (j - k) as real * q;
    if j > k {
      assert (j - k) as real * q >= q;
    } else if j < k {
      assert (k - j) as real * q >= q;
      assert y - x == (k - j) as real * q;
    }
  }

  lemma ComparablePlus(r: Ranking, q: real, a: Totals, b: Totals)
    requires Comparable(r, q, a) && Comparable(r, q, b)
    ensures Comparable(r, q, a.Plus(b))
  {
    if r.UsesEnergy() {
      var j :| a.energyPerAccess == Multiple(q, j);
      var k :| b.energyPerAccess == Multiple(q, k);
      assert a.Plus(b).energyPerAccess == Multiple(q, j + k);
    }
  }

  lemma ComparableZero(r: Ranking, q: real)
    requires r.UsesEnergy() ==> q > EPS
    ensures Comparable(r, q, ZERO)
  {
    assert 0.0 == Multiple(q, 0);
  }

  lemma {:induction false} ComparableSum(r: Ranking, q: real, ts: seq<Totals>)
    requires r.UsesEnergy() ==> q > EPS
    requires forall t | t in ts :: Comparable(r, q, t)
    ensures Comparable(r, q, Sum(ts))
  {
    ComparableZero(r, q);
    if ts != [] {
      ComparableSum(r, q, ts[1..]);
      ComparablePlus(r, q, ts[0], Sum(ts[1..]));
    }
  }

  lemma {:induction false} ComparableCopies(r: Ranking, q: real, n: nat, t: Totals)
    requires r.UsesEnergy() ==> q > EPS
    requires Comparable(r, q, t)
    ensures Comparable(r, q, Copies(n, t))
  {
    ComparableZero(r, q);
    if n > 0 {
      ComparableCopies(r, q, n - 1, t);
      ComparablePlus(r, q, t, Copies(n - 1, t));
    }
  }
}
