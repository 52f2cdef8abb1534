/** Sorting configurations of any kind by their figures. */
module Ordering {
  import opened Metrics
  import opened Sorting
  import opened Pruning

  /** The comparator handed to the library sort. */
  function CompareBy<T>(r: Ranking, figure: T -> Totals): (T, T) -> bool {
    (a: T, b: T) => NotWorse(r, figure(a), figure(b))
  }

  ghost predicate FiguresOf<T>(xs: seq<T>, figure: T -> Totals, ts: seq<Totals>) {
    |ts| == |xs| && forall i | 0 <= i < |xs| :: ts[i] == figure(xs[i])
  }

  /** The comparator is total, so wherever it is transitive the sort has an order to sort by. */
  lemma ComparePreorder<T>(r: Ranking, xs: seq<T>, figure: T -> Totals, ts: seq<Totals>)
    requires FiguresOf(xs, figure, ts) && Ordered(r, ts)
    ensures PreorderOn(xs, CompareBy(r, figure))
  {
    forall x | x in xs
      ensures figure(x) in ts
    {
      var i :| 0 <= i < |xs| && xs[i] == x;
      assert ts[i] in ts;
    }
    forall x, y | x in xs && y in xs
      ensures CompareBy(r, figure)(x, y) || CompareBy(r, figure)(y, x)
    {
      AlwaysTotal(r, figure(x), figure(y));
    }
    hide NotWorse;
  }

  lemma AlwaysTotal(r: Ranking, a: Totals, b: Totals)
    ensures NotWorse(r, a, b) || NotWorse(r, b, a)
  {
  }

  /** A sorted list is ranked, and lists the same figures as before. */
  lemma SortedFigures<T>(r: Ranking, figure: T -> Totals, sorted: seq<T>, ts: seq<Totals>, found: seq<T>,
                         us: seq<Totals>)
    requires FiguresOf(sorted, figure, ts) && FiguresOf(found, figure, us)
    requires SortedBy(sorted, CompareBy(r, figure)) && forall x :: x in sorted <==> x in found
    ensures Ranked(r, ts)
    ensures forall t :: t in ts <==> t in us
  {
    SameFigures(figure, sorted, ts, found, us);
    SameFigures(figure, found, us, sorted, ts);
    forall i, j | 0 <= i < j < |ts|
      ensures NotWorse(r, ts[i], ts[j])
    {
      assert CompareBy(r, figure)(sorted[i], sorted[j]);
    }
  }

  lemma SameFigures<T>(figure: T -> Totals, a: seq<T>, ts: seq<Totals>, b: seq<T>, us: seq<Totals>)
    requires FiguresOf(a, figure, ts) && FiguresOf(b, figure, us) && forall x | x in a :: x in b
    ensures forall t | t in ts :: t in us
  {
    forall t | t in ts
      ensures t in us
    {
      var i :| 0 <= i < |ts| && ts[i] == t;
      assert a[i] in b;
      var j :| 0 <= j < |b| && b[j] == a[i];
      assert us[j] == t;
    }
  }
}
