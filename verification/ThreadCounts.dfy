/** What the number of threads changes and what it does not: the searched list is the same one where
    tied organisations come from one iteration, and the tag array kept is the same one as soon as,
    among tied organisations, the wire type decides. */
module ThreadCounts {
  import opened Options
  import opened OrgSelection
  import opened Sorting
  import opened TagSearch
  import opened Ucache

  // ---------------------------------------------------------------- conditions on the circuit model

  ghost predicate Ties(a: MemArray, b: MemArray) {
    !Lt(a, b) && !Lt(b, a)
  }

  /** The two visits yield organisations with the same six keys. */
  ghost predicate SameKeys(circuit: Circuit, x: Space, v: Visit, w: Visit)
    requires x.radix.Positive()
  {
    var m, k := Outcome(circuit, x, v), Outcome(circuit, x, w);
    m.Some? && k.Some? && Ties(m.value, k.value)
  }

  /** In the design space, organisations with the same keys come from the same iteration. */
  ghost predicate KeysIdentify(circuit: Circuit, x: Space)
    requires x.Valid()
  {
    forall v, w | InSpace(x, v) && InSpace(x, w) && SameKeys(circuit, x, v, w) :: v.iter == w.iter
  }

  /** In the design space, a visit yields what any other with the same keys and its wire type yields. */
  ghost predicate WireDecides(circuit: Circuit, x: Space)
    requires x.Valid()
  {
    forall v, w | InSpace(x, v) && InSpace(x, w) && SameKeys(circuit, x, v, w) ::
      v.nspd == w.nspd && Outcome(circuit, x, v.(wr := w.wr)) == Outcome(circuit, x, w)
  }

  /** The keys reported are the arguments given; those but the bit-line multiplexing. */
  ghost predicate ReportsArguments(circuit: Circuit) {
    forall nspd, d: Split, s1, s2, wt ::
      var m := circuit(nspd, d.ndwl, d.ndbl, d.ndcm, s1, s2, wt);
      m.Some? ==>
        (m.value.nspd, m.value.ndwl, m.value.ndbl, m.value.ndsam1, m.value.ndsam2) == (nspd, d.ndwl, d.ndbl, s1, s2)
  }

  /** As its bit-line multiplexing an organisation reports Ndcm, as in SRAM. */
  ghost predicate MuxesByNdcm(circuit: Circuit) {
    forall nspd, d: Split, s1, s2, wt ::
      var m := circuit(nspd, d.ndwl, d.ndbl, d.ndcm, s1, s2, wt);
      m.Some? ==> m.value.degBlMuxing == d.ndcm
  }

  /** Nothing depends on Ndcm, as for a tag array in DRAM. */
  ghost predicate BlindToNdcm(circuit: Circuit) {
    forall nspd, d: Split, e: Split, s1, s2, wt | d.ndwl == e.ndwl && d.ndbl == e.ndbl ::
      circuit(nspd, d.ndwl, d.ndbl, d.ndcm, s1, s2, wt) == circuit(nspd, e.ndwl, e.ndbl, e.ndcm, s1, s2, wt)
  }

  lemma SramMeetsBoth(circuit: Circuit, x: Space)
    requires x.Valid() && ReportsArguments(circuit) && MuxesByNdcm(circuit)
    ensures KeysIdentify(circuit, x) && WireDecides(circuit, x)
  {
    forall v, w | InSpace(x, v) && InSpace(x, w) && SameKeys(circuit, x, v, w)
      ensures v.iter == w.iter && v.(wr := w.wr) == w
    {
      SameArguments(circuit, x, v, w);
      var d, e := Decode(v.iter, x.radix), Decode(w.iter, x.radix);
      assert Outcome(circuit, x, v).value.degBlMuxing == d.ndcm;
      assert Outcome(circuit, x, w).value.degBlMuxing == e.ndcm;
      DecodeInjective(x.radix, v.iter, w.iter);
    }
  }

  lemma DramTagsMeetOne(circuit: Circuit, x: Space)
    requires x.Valid() && ReportsArguments(circuit) && BlindToNdcm(circuit)
    ensures WireDecides(circuit, x)
  {
    forall v, w | InSpace(x, v) && InSpace(x, w) && SameKeys(circuit, x, v, w)
      ensures v.nspd == w.nspd && Outcome(circuit, x, v.(wr := w.wr)) == Outcome(circuit, x, w)
    {
      SameArguments(circuit, x, v, w);
      var d, e := Decode(v.iter, x.radix), Decode(w.iter, x.radix);
      assert circuit(w.nspd, d.ndwl, d.ndbl, d.ndcm, w.ndsam1, w.ndsam2, w.wr)
          == circuit(w.nspd, d.ndwl, d.ndbl, e.ndcm, w.ndsam1, w.ndsam2, w.wr);
    }
  }

  lemma SameArguments(circuit: Circuit, x: Space, v: Visit, w: Visit)
    requires x.Valid() && ReportsArguments(circuit) && SameKeys(circuit, x, v, w)
    ensures v.nspd == w.nspd && v.ndsam1 == w.ndsam1 && v.ndsam2 == w.ndsam2
    ensures Decode(v.iter, x.radix).ndwl == Decode(w.iter, x.radix).ndwl
    ensures Decode(v.iter, x.radix).ndbl == Decode(w.iter, x.radix).ndbl
    ensures Outcome(circuit, x, v).value.degBlMuxing == Outcome(circuit, x, w).value.degBlMuxing
  {
    hide Lt;
    var m, k := Outcome(circuit, x, v).value, Outcome(circuit, x, w).value;
    LtIsStrictWeakOrder(m, k, m);
    var d, e := Decode(v.iter, x.radix), Decode(w.iter, x.radix);
    assert (m.nspd, m.ndwl, m.ndbl, m.ndsam1, m.ndsam2) == (v.nspd, d.ndwl, d.ndbl, v.ndsam1, v.ndsam2);
    assert (k.nspd, k.ndwl, k.ndbl, k.ndsam1, k.ndsam2) == (w.nspd, e.ndwl, e.ndbl, w.ndsam1, w.ndsam2);
  }

  // ---------------------------------------------------------------- ties of what is collected

  /** What the visits yield that ties with y, in order. */
  ghost function TiesOf(circuit: Circuit, x: Space, vs: seq<Visit>, y: MemArray): seq<MemArray>
    requires x.radix.Positive()
  {
    Tied(Results(circuit, x, vs), y, NotAfter())
  }

  ghost predicate Yields(circuit: Circuit, x: Space, v: Visit, y: MemArray)
    requires x.radix.Positive()
  {
    Outcome(circuit, x, v).Some? && Ties(Outcome(circuit, x, v).value, y)
  }

  /** A further visit adds its outcome to the ties if it has one that ties. */
  lemma TiesSnoc(circuit: Circuit, x: Space, vs: seq<Visit>, v: Visit, y: MemArray)
    requires x.radix.Positive()
    ensures TiesOf(circuit, x, vs + [v], y) ==
            TiesOf(circuit, x, vs, y) + if Yields(circuit, x, v, y) then [Outcome(circuit, x, v).value] else []
  {
    hide Results, Outcome, Lt;
    ResultsSnoc(circuit, x, vs, v);
    if Outcome(circuit, x, v).Some? {
      var m := Outcome(circuit, x, v).value;
      TiedConcat(Results(circuit, x, vs), [m], y, NotAfter());
      assert [m][..0] == [];
    }
  }

  lemma TiesConcat(circuit: Circuit, x: Space, vs: seq<Visit>, ws: seq<Visit>, y: MemArray)
    requires x.radix.Positive()
    ensures TiesOf(circuit, x, vs + ws, y) == TiesOf(circuit, x, vs, y) + TiesOf(circuit, x, ws, y)
  {
    hide Results, Tied;
    ResultsConcat(circuit, x, vs, ws);
    TiedConcat(Results(circuit, x, vs), Results(circuit, x, ws), y, NotAfter());
  }

  lemma NoTies(circuit: Circuit, x: Space, y: MemArray)
    requires x.radix.Positive()
    ensures TiesOf(circuit, x, [], y) == []
  {
  }

  lemma {:induction false} TiesMember(circuit: Circuit, x: Space, vs: seq<Visit>, v: Visit, y: MemArray)
    requires x.radix.Positive() && v in vs && Yields(circuit, x, v, y)
    ensures Outcome(circuit, x, v).value in TiesOf(circuit, x, vs, y)
  {
    hide TiesOf, Outcome, Ties;
    var rest, last := vs[..|vs| - 1], vs[|vs| - 1];
    assert vs == rest + [last];
    TiesSnoc(circuit, x, rest, last, y);
    if v != last {
      TiesMember(circuit, x, rest, v, y);
    }
  }

  /** Each tied element stems from a visit, which splits the visits as the element splits the ties. */
  lemma {:induction false} SplitTies(circuit: Circuit, x: Space, vs: seq<Visit>, y: MemArray,
                                     before: seq<MemArray>, m: MemArray, after: seq<MemArray>)
    returns (earlier: seq<Visit>, v: Visit, later: seq<Visit>)
    requires x.radix.Positive() && TiesOf(circuit, x, vs, y) == before + [m] + after
    ensures vs == earlier + [v] + later
    ensures Outcome(circuit, x, v) == Some(m) && TiesOf(circuit, x, later, y) == after
  {
    hide TiesOf, Outcome, Ties;
    NoTies(circuit, x, y);
    var all := before + [m] + after;
    assert all[|before|] == m;
    var rest, last := vs[..|vs| - 1], vs[|vs| - 1];
    assert vs == rest + [last];
    TiesSnoc(circuit, x, rest, last, y);
    if !Yields(circuit, x, last, y) {
      earlier, v, later := SplitTies(circuit, x, rest, y, before, m, after);
      TiesSnoc(circuit, x, later, last, y);
      later := later + [last];
    } else if after == [] {
      assert all[|all| - 1] == m;
      earlier, v, later := rest, last, [];
    } else {
      var after' := after[..|after| - 1];
      assert TiesOf(circuit, x, rest, y) == all[..|all| - 1] == before + [m] + after';
      assert all[|all| - 1] == after[|after| - 1];
      earlier, v, later := SplitTies(circuit, x, rest, y, before, m, after');
      TiesSnoc(circuit, x, later, last, y);
      later := later + [last];
    }
  }

  // ---------------------------------------------------------------- the list

  /** Whatever of vs ties with y belongs to thread o. */
  ghost predicate TiesOwned(circuit: Circuit, x: Space, vs: seq<Visit>, n: nat, y: MemArray, o: nat)
    requires x.radix.Positive() && n >= 1
  {
    forall v | v in vs && Yields(circuit, x, v, y) :: Owner(v, n) == o
  }

  lemma {:induction false} TiesOfShare(circuit: Circuit, x: Space, vs: seq<Visit>, n: nat, t: nat, y: MemArray, o: nat)
    requires x.radix.Positive() && t < n && TiesOwned(circuit, x, vs, n, y, o)
    ensures TiesOf(circuit, x, Share(vs, t, n), y) == if t == o then TiesOf(circuit, x, vs, y) else []
  {
    hide TiesOf, Yields, Outcome;
    NoTies(circuit, x, y);
    if vs != [] {
      var rest, v := vs[..|vs| - 1], vs[|vs| - 1];
      assert vs == rest + [v];
      TiesOfShare(circuit, x, rest, n, t, y, o);
      TiesSnoc(circuit, x, rest, v, y);
      TiesSnoc(circuit, x, Share(rest, t, n), v, y);
      assert Share(rest, t, n) + [] == Share(rest, t, n);
    }
  }

  lemma {:induction false} TiesOfDealt(circuit: Circuit, x: Space, vs: seq<Visit>, n: nat, t: nat, y: MemArray, o: nat)
    requires x.radix.Positive() && t <= n && n >= 1 && TiesOwned(circuit, x, vs, n, y, o)
    ensures TiesOf(circuit, x, Dealt(vs, n, t), y) == if o < t then TiesOf(circuit, x, vs, y) else []
  {
    hide TiesOf, Share, TiesOwned;
    NoTies(circuit, x, y);
    if t > 0 {
      TiesOfDealt(circuit, x, vs, n, t - 1, y, o);
      TiesOfShare(circuit, x, vs, n, t - 1, y, o);
      TiesConcat(circuit, x, Dealt(vs, n, t - 1), Share(vs, t - 1, n), y);
    }
  }

  lemma VisitsInSpace(x: Space, v: Visit)
    requires x.Valid()
    ensures v in Visits(x, 0, 1) <==> InSpace(x, v)
  {
    hide Visits, InSpace;
    VisitedExactlyOnce(x, v);
    assert v in Visits(x, 0, 1) <==> v in multiset(Visits(x, 0, 1));
  }

  /** Where the keys identify the iteration, all that ties belongs to one thread. */
  lemma OneOwner(circuit: Circuit, x: Space, n: nat, y: MemArray) returns (o: nat)
    requires x.Valid() && n >= 1 && KeysIdentify(circuit, x)
    ensures o < n && TiesOwned(circuit, x, Visits(x, 0, 1), n, y, o)
  {
    hide Visits, InSpace, Outcome, Lt;
    var vs := Visits(x, 0, 1);
    o := 0;
    if v :| v in vs && Yields(circuit, x, v, y) {
      o := Owner(v, n);
      forall w | w in vs && Yields(circuit, x, w, y)
        ensures Owner(w, n) == o
      {
        VisitsInSpace(x, v);
        VisitsInSpace(x, w);
        LtIsStrictWeakOrder(Outcome(circuit, x, v).value, y, Outcome(circuit, x, w).value);
        LtIsStrictWeakOrder(Outcome(circuit, x, w).value, y, Outcome(circuit, x, v).value);
        assert SameKeys(circuit, x, v, w);
      }
    }
  }

  /** Where the keys identify the iteration, the list is the stable sort of what the single-threaded
      search collects, for every number of threads. */
  lemma SearchedAsOne(circuit: Circuit, x: Space, n: nat, arr: seq<MemArray>)
    requires x.Valid() && n >= 1 && KeysIdentify(circuit, x) && SearchedBy(circuit, x, n, arr)
    ensures StableSortOf(arr, Results(circuit, x, Visits(x, 0, 1)), NotAfter())
  {
    hide SortedBy, Visits, Results, Tied, KeysIdentify, TiesOwned;
    var vs := Visits(x, 0, 1);
    forall y
      ensures Tied(arr, y, NotAfter()) == Tied(Results(circuit, x, vs), y, NotAfter())
    {
      var o := OneOwner(circuit, x, n, y);
      TiesOfDealt(circuit, x, vs, n, n, y, o);
    }
  }

  /** It is then the same list for every number of threads. */
  lemma SameListForAllThreads(circuit: Circuit, x: Space, n: nat, arr: seq<MemArray>, n': nat, arr': seq<MemArray>)
    requires x.Valid() && n >= 1 && n' >= 1 && KeysIdentify(circuit, x)
    requires SearchedBy(circuit, x, n, arr) && SearchedBy(circuit, x, n', arr')
    ensures arr == arr'
  {
    hide SortedBy, Visits, Results, Tied, KeysIdentify;
    SearchedAsOne(circuit, x, n, arr);
    SearchedAsOne(circuit, x, n', arr');
    NotAfterIsPreorder();
    StableSortIsUnique(arr, arr', NotAfter());
  }

  // ---------------------------------------------------------------- the order of the visits

  /** Threads take their turns; each goes through the splits upwards and, for each, the wire types. */
  predicate NotLater(v: Visit, w: Visit, n: nat)
    requires n >= 1
  {
    || Owner(v, n) < Owner(w, n)
    || (Owner(v, n) == Owner(w, n) && (v.nspd < w.nspd || (v.nspd == w.nspd && v.wr <= w.wr)))
  }

  ghost predicate InOrder(vs: seq<Visit>, n: nat)
    requires n >= 1
  {
    forall i, j | 0 <= i < j < |vs| :: NotLater(vs[i], vs[j], n)
  }

  lemma InOrderConcat(vs: seq<Visit>, ws: seq<Visit>, n: nat)
    requires n >= 1 && InOrder(vs, n) && InOrder(ws, n)
    requires forall v, w | v in vs && w in ws :: NotLater(v, w, n)
    ensures InOrder(vs + ws, n)
  {
    hide NotLater;
    var all := vs + ws;
    forall i, j | 0 <= i < j < |all|
      ensures NotLater(all[i], all[j], n)
    {
      assert i < |vs| ==> all[i] == vs[i] && vs[i] in vs;
      assert j >= |vs| ==> all[j] == ws[j - |vs|] && ws[j - |vs|] in ws;
      assert i >= |vs| ==> all[i] == ws[i - |vs|];
    }
  }

  ghost predicate SameRound(vs: seq<Visit>, v: Visit) {
    forall u | u in vs :: u.nspd == v.nspd && u.wr == v.wr
  }

  lemma {:induction false} Mux2Round(x: Space, v: Visit)
    requires v.ndsam2 >= 1
    ensures SameRound(OverMux2(x, v), v)
    decreases x.maxMux - v.ndsam2
  {
    if v.ndsam2 <= x.maxMux {
      Mux2Round(x, v.(ndsam2 := 2 * v.ndsam2));
    }
  }

  lemma {:induction false} Mux1Round(x: Space, v: Visit)
    requires v.ndsam1 >= 1
    ensures SameRound(OverMux1(x, v), v)
    decreases x.maxMux - v.ndsam1
  {
    if v.ndsam1 <= x.maxMux {
      Mux2Round(x, v.(ndsam2 := 1));
      Mux1Round(x, v.(ndsam1 := 2 * v.ndsam1));
    }
  }

  lemma {:induction false} IterRound(x: Space, v: Visit)
    ensures SameRound(OverIter(x, v, 0, 1), v)
    decreases x.radix.Count() - v.iter
  {
    if v.iter < x.radix.Count() {
      Mux1Round(x, v.(ndsam1 := 1));
      IterRound(x, v.(iter := v.iter + 1));
    }
  }

  /** All of vs has the split of v and a wire type of v's or a later one. */
  ghost predicate FromWire(vs: seq<Visit>, v: Visit) {
    forall u | u in vs :: u.nspd == v.nspd && u.wr >= v.wr
  }

  lemma {:induction false} WiresInOrder(x: Space, v: Visit)
    ensures FromWire(OverWires(x, v, 0, 1), v) && InOrder(OverWires(x, v, 0, 1), 1)
    decreases x.wtMax - v.wr
  {
    hide OverIter;
    if v.wr <= x.wtMax {
      var next := v.(wr := v.wr + 1);
      IterRound(x, v.(iter := 0));
      WiresInOrder(x, next);
      InOrderConcat(OverIter(x, v.(iter := 0), 0, 1), OverWires(x, next, 0, 1), 1);
    }
  }

  ghost predicate FromSplit(vs: seq<Visit>, v: Visit) {
    forall u | u in vs :: u.nspd >= v.nspd
  }

  lemma {:induction false} SpdInOrder(x: Space, v: Visit)
    requires v.nspd > 0.0
    ensures FromSplit(OverSpd(x, v, 0, 1), v) && InOrder(OverSpd(x, v, 0, 1), 1)
    decreases (x.maxSpd / v.nspd).Floor
  {
    hide OverWires;
    if v.nspd <= x.maxSpd {
      Halving(x.maxSpd, v.nspd);
      var next := v.(nspd := 2.0 * v.nspd);
      WiresInOrder(x, v.(wr := x.wtMin));
      SpdInOrder(x, next);
      InOrderConcat(OverWires(x, v.(wr := x.wtMin), 0, 1), OverSpd(x, next, 0, 1), 1);
    }
  }

  lemma {:induction false} ShareInOrder(vs: seq<Visit>, t: nat, n: nat)
    requires t < n && InOrder(vs, 1)
    ensures forall u | u in Share(vs, t, n) :: u in vs && Owner(u, n) == t
    ensures InOrder(Share(vs, t, n), n)
  {
    if vs != [] {
      var rest, v := vs[..|vs| - 1], vs[|vs| - 1];
      assert vs == rest + [v];
      ShareInOrder(rest, t, n);
      var mine := if Owner(v, n) == t then [v] else [];
      forall u | u in Share(rest, t, n) && Owner(v, n) == t
        ensures NotLater(u, v, n)
      {
        var i :| 0 <= i < |rest| && rest[i] == u;
        assert NotLater(vs[i], vs[|vs| - 1], 1);
      }
      InOrderConcat(Share(rest, t, n), mine, n);
    }
  }

  lemma {:induction false} ShareMember(vs: seq<Visit>, v: Visit, n: nat)
    requires n >= 1 && v in vs
    ensures v in Share(vs, Owner(v, n), n)
  {
    var rest, last := vs[..|vs| - 1], vs[|vs| - 1];
    assert vs == rest + [last];
    if v != last {
      ShareMember(rest, v, n);
    }
  }

  lemma EarlierTurn(u: Visit, v: Visit, n: nat)
    requires n >= 1 && Owner(u, n) < Owner(v, n)
    ensures NotLater(u, v, n)
  {
  }

  lemma NothingInOrder(n: nat)
    requires n >= 1
    ensures InOrder([], n)
  {
  }

  lemma {:induction false} DealtInOrder(vs: seq<Visit>, n: nat, t: nat)
    requires n >= 1 && t <= n && InOrder(vs, 1)
    ensures forall u :: u in Dealt(vs, n, t) <==> u in vs && Owner(u, n) < t
    ensures InOrder(Dealt(vs, n, t), n)
  {
    hide NotLater, InOrder, Share, Owner;
    if t > 0 {
      DealtInOrder(vs, n, t - 1);
      ShareInOrder(vs, t - 1, n);
      forall u | u in vs && Owner(u, n) == t - 1
        ensures u in Share(vs, t - 1, n)
      {
        ShareMember(vs, u, n);
      }
      forall u, v | u in Dealt(vs, n, t - 1) && v in Share(vs, t - 1, n)
        ensures NotLater(u, v, n)
      {
        EarlierTurn(u, v, n);
      }
      InOrderConcat(Dealt(vs, n, t - 1), Share(vs, t - 1, n), n);
    } else {
      NothingInOrder(n);
    }
  }

  /** All threads' visits, thread after thread: exactly the design space, in the order of NotLater. */
  lemma AllDealt(x: Space, n: nat)
    requires x.Valid() && n >= 1
    ensures forall u :: u in Dealt(Visits(x, 0, 1), n, n) <==> InSpace(x, u)
    ensures InOrder(Dealt(Visits(x, 0, 1), n, n), n)
  {
    hide InSpace;
    var vs := Visits(x, 0, 1);
    SpdInOrder(x, START.(nspd := x.nspdMin));
    DealtInOrder(vs, n, n);
    forall u
      ensures u in vs <==> InSpace(x, u)
    {
      VisitsInSpace(x, u);
    }
  }

  // ---------------------------------------------------------------- the tag array kept

  /** The score by which the tag array is chosen. */
  function ScoreAt(m: MemArray, min: Org, w: Weights, dev: Deviations): real
    requires Positive(min)
  {
    Score(m.org, min, w, dev)
  }

  /** Position b has the least score below BIGNUM, the last one if several have. */
  ghost predicate LastLeastAt(arr: seq<MemArray>, min: Org, w: Weights, dev: Deviations, b: nat)
    requires Positive(min)
  {
    && b < |arr| && ScoreAt(arr[b], min, w, dev) < BIGNUM
    && (forall i | 0 <= i < |arr| :: ScoreAt(arr[b], min, w, dev) <= ScoreAt(arr[i], min, w, dev))
    && forall i | b < i < |arr| :: ScoreAt(arr[b], min, w, dev) < ScoreAt(arr[i], min, w, dev)
  }

  lemma ChosenAt(arr: seq<MemArray>, min: Org, w: Weights, dev: Deviations, best: Option<nat>, items: seq<Org>)
    requires Positive(min) && Chosen(Orgs(arr), min, w, dev, best, items)
    ensures best.None? ==> items == [] && forall m | m in arr :: ScoreAt(m, min, w, dev) >= BIGNUM
    ensures best.Some? ==> LastLeastAt(arr, min, w, dev, best.value) && items == [arr[best.value].org]
  {
    hide Positive, Score;
    var scores := Scores(Weighted, Orgs(arr), min, w, dev);
    assert forall i | 0 <= i < |arr| :: scores[i] == ScoreAt(arr[i], min, w, dev);
  }

  /** With the same members, the last least element of one list is not above that of the other. */
  lemma LastNotAbove(arr: seq<MemArray>, arr': seq<MemArray>, min: Org, w: Weights, dev: Deviations, b: nat, c: nat)
    requires Positive(min) && LastLeastAt(arr, min, w, dev, b) && LastLeastAt(arr', min, w, dev, c)
    requires SortedBy(arr', NotAfter()) && forall m :: m in arr <==> m in arr'
    ensures !Lt(arr'[c], arr[b])
    ensures ScoreAt(arr[b], min, w, dev) <= ScoreAt(arr'[c], min, w, dev)
  {
    hide Positive, ScoreAt;
    assert arr'[c] in arr && arr[b] in arr';
    var j :| 0 <= j < |arr'| && arr'[j] == arr[b];
    LtIsStrictWeakOrder(arr[b], arr[b], arr[b]);
    assert j < c ==> NotAfter()(arr'[j], arr'[c]);
  }

  /** The last least element of the searched list stems from a visit with the greatest wire type among
      those of the same score and keys. */
  lemma LastHasGreatestWire(circuit: Circuit, x: Space, n: nat, arr: seq<MemArray>, min: Org, w: Weights,
                            dev: Deviations, b: nat)
    returns (v: Visit)
    requires x.Valid() && n >= 1 && WireDecides(circuit, x) && SearchedBy(circuit, x, n, arr) && Positive(min)
    requires LastLeastAt(arr, min, w, dev, b)
    ensures InSpace(x, v) && Outcome(circuit, x, v) == Some(arr[b])
    ensures forall u | InSpace(x, u) && Yields(circuit, x, u, arr[b])
                       && ScoreAt(Outcome(circuit, x, u).value, min, w, dev) <= ScoreAt(arr[b], min, w, dev) ::
              u.wr <= v.wr
  {
    hide Visits, InSpace, Outcome, ScoreAt, Lt, Positive, Tied, Results, SortedBy;
    var m, vs := arr[b], Dealt(Visits(x, 0, 1), n, n);
    var before, after := arr[..b], arr[b + 1..];
    assert arr == before + [m] + after;
    TiedConcat(before + [m], after, m, NotAfter());
    TiedConcat(before, [m], m, NotAfter());
    OnlyTied(m);
    var earlier, later;
    earlier, v, later := SplitTies(circuit, x, vs, m, Tied(before, m, NotAfter()), m, Tied(after, m, NotAfter()));
    AllDealt(x, n);
    assert v in vs;
    forall u | InSpace(x, u) && Yields(circuit, x, u, m)
               && ScoreAt(Outcome(circuit, x, u).value, min, w, dev) <= ScoreAt(m, min, w, dev)
      ensures u.wr <= v.wr
    {
      if u.wr > v.wr {
        WireMoved(circuit, x, v, u);
        LaterInOrder(earlier, v, later, v.(wr := u.wr), n);
        TiesMember(circuit, x, later, v.(wr := u.wr), m);
        TiedMember(after, Outcome(circuit, x, u).value, m, NotAfter());
        assert false;
      }
    }
  }

  lemma OnlyTied(m: MemArray)
    ensures Tied([m], m, NotAfter()) == [m]
  {
    LtIsStrictWeakOrder(m, m, m);
  }

  lemma WireMoved(circuit: Circuit, x: Space, v: Visit, u: Visit)
    requires x.Valid() && WireDecides(circuit, x) && InSpace(x, v) && InSpace(x, u)
    requires Outcome(circuit, x, v).Some? && Yields(circuit, x, u, Outcome(circuit, x, v).value)
    ensures v.nspd == u.nspd && InSpace(x, v.(wr := u.wr))
    ensures Outcome(circuit, x, v.(wr := u.wr)) == Outcome(circuit, x, u)
  {
    hide Outcome, Lt;
    assert SameKeys(circuit, x, v, u);
  }

  /** What the order puts strictly behind v is among what comes later. */
  lemma LaterInOrder(earlier: seq<Visit>, v: Visit, later: seq<Visit>, u: Visit, n: nat)
    requires n >= 1 && InOrder(earlier + [v] + later, n) && u in earlier + [v] + later
    requires u.iter == v.iter && u.nspd == v.nspd && u.wr > v.wr
    ensures u in later
  {
    var all := earlier + [v] + later;
    forall w | w in earlier
      ensures NotLater(w, v, n)
    {
      var i :| 0 <= i < |earlier| && earlier[i] == w;
      assert all[i] == w && all[|earlier|] == v;
    }
  }

  /** Where the wire type decides among tied organisations, the tag array kept is the same one for every
      number of threads. */
  lemma SameTagForAllThreads(circuit: Circuit, x: Space, w: Weights, dev: Deviations, n: nat, one: seq<Org>,
                             n': nat, other: seq<Org>)
    requires x.Valid() && Positive(SpaceMinima(circuit, x)) && n >= 1 && n' >= 1 && WireDecides(circuit, x)
    requires KeptBy(circuit, x, n, w, dev, one) && KeptBy(circuit, x, n', w, dev, other)
    ensures one == other
  {
    hide SearchedBy, Chosen, WireDecides, SpaceMinima, Positive, ScoreAt, InSpace, Outcome, Lt;
    var min := SpaceMinima(circuit, x);
    var arr, b :| SearchedBy(circuit, x, n, arr) && Chosen(Orgs(arr), min, w, dev, b, one);
    var arr', c :| SearchedBy(circuit, x, n', arr') && Chosen(Orgs(arr'), min, w, dev, c, other);
    ChosenAt(arr, min, w, dev, b, one);
    ChosenAt(arr', min, w, dev, c, other);
    SearchedMembers(circuit, x, n, arr);
    SearchedMembers(circuit, x, n', arr');
    assert forall m :: m in arr <==> m in arr';
    assert b.Some? ==> arr[b.value] in arr;
    assert c.Some? ==> arr'[c.value] in arr';
    assert b.Some? <==> c.Some?;
    if b.Some? {
      LastNotAbove(arr, arr', min, w, dev, b.value, c.value);
      LastNotAbove(arr', arr, min, w, dev, c.value, b.value);
      var v := LastHasGreatestWire(circuit, x, n, arr, min, w, dev, b.value);
      var u := LastHasGreatestWire(circuit, x, n', arr', min, w, dev, c.value);
      assert Yields(circuit, x, u, arr[b.value]) && Yields(circuit, x, v, arr'[c.value]);
      assert v.(wr := u.wr) == v;
      WireMoved(circuit, x, v, u);
    }
  }

  lemma SearchedMembers(circuit: Circuit, x: Space, n: nat, arr: seq<MemArray>)
    requires x.Valid() && n >= 1 && SearchedBy(circuit, x, n, arr)
    ensures SortedBy(arr, NotAfter())
    ensures forall m :: m in arr <==> exists v :: InSpace(x, v) && Outcome(circuit, x, v) == Some(m)
  {
    hide InSpace, Outcome, Visits, Dealt, Results, SameTies;
    var vs := Dealt(Visits(x, 0, 1), n, n);
    AllDealt(x, n);
    NotAfterIsPreorder();
    forall m
      ensures m in arr <==> exists v :: InSpace(x, v) && Outcome(circuit, x, v) == Some(m)
    {
      SameTiesSameMembers(arr, Results(circuit, x, vs), m, NotAfter());
      ResultsMember(circuit, x, vs, m);
    }
  }
}
