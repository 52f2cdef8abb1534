/** The index sequences that the two recursive searches walk through. A multiset of nb items
    is written as a non-decreasing sequence of nb indices. */
module Enumeration {
  import opened Combinatorics

  ghost predicate NonDecreasing(s: seq<nat>) {
    forall i, j | 0 <= i < j < |s| :: s[i] <= s[j]
  }

  ghost predicate Within(s: seq<nat>, lo: int, hi: int) {
    forall i | 0 <= i < |s| :: lo <= s[i] < hi
  }

  lemma WithinSnoc(s: seq<nat>, i: nat, hi: int)
    requires Within(s, 0, hi) && i < hi
    ensures Within(s + [i], 0, hi)
  {
  }

  /** One list after another. The methods say `Then` where the lemmas say `+`, which keeps the
      sequence axioms out of their proofs. */
  function Then<T>(a: seq<T>, b: seq<T>): seq<T> {
    if b == [] then a else Then(a, b[..|b| - 1]) + [b[|b| - 1]]
  }

  lemma {:induction false} ThenIsConcat<T>(a: seq<T>, b: seq<T>)
    ensures Then(a, b) == a + b
  {
    if b != [] {
      ThenIsConcat(a, b[..|b| - 1]);
      assert b == b[..|b| - 1] + [b[|b| - 1]];
    }
  }

  /** One iteration of a loop that appends: what was done, and what is still to be done after it. */
  lemma Advance<T>(before: seq<T>, after: seq<T>, first: seq<T>, rest: seq<T>, goal: seq<T>)
    requires Then(before, first + rest) == goal && after == Then(before, first)
    ensures Then(after, rest) == goal
  {
    ThenIsConcat(before, first + rest);
    ThenIsConcat(before, first);
    ThenIsConcat(after, rest);
  }

  /** The sequences ss, each after a common prefix. */
  function Prefixed(prefix: seq<nat>, ss: seq<seq<nat>>): seq<seq<nat>> {
    if ss == [] then [] else Prefixed(prefix, ss[..|ss| - 1]) + [prefix + ss[|ss| - 1]]
  }

  function Prepend(x: nat, ss: seq<seq<nat>>): seq<seq<nat>> {
    Prefixed([x], ss)
  }

  lemma {:induction false} PrefixedAt(prefix: seq<nat>, ss: seq<seq<nat>>)
    ensures |Prefixed(prefix, ss)| == |ss|
    ensures forall k | 0 <= k < |ss| :: Prefixed(prefix, ss)[k] == prefix + ss[k]
  {
    if ss != [] {
      PrefixedAt(prefix, ss[..|ss| - 1]);
    }
  }

  lemma {:induction false} PrefixedConcat(prefix: seq<nat>, ss: seq<seq<nat>>, tt: seq<seq<nat>>)
    ensures Prefixed(prefix, ss + tt) == Prefixed(prefix, ss) + Prefixed(prefix, tt)
  {
    if tt == [] {
      assert ss + tt == ss;
    } else {
      PrefixedConcat(prefix, ss, tt[..|tt| - 1]);
      assert (ss + tt)[..|ss + tt| - 1] == ss + tt[..|tt| - 1];
    }
  }

  lemma {:induction false} PrefixedTwice(prefix: seq<nat>, x: nat, ss: seq<seq<nat>>)
    ensures Prefixed(prefix, Prepend(x, ss)) == Prefixed(prefix + [x], ss)
  {
    if ss != [] {
      var rest, last := ss[..|ss| - 1], ss[|ss| - 1];
      PrefixedTwice(prefix, x, rest);
      assert prefix + ([x] + last) == prefix + [x] + last;
      assert Prepend(x, ss)[..|Prepend(x, ss)| - 1] == Prepend(x, rest);
    }
  }

  lemma {:induction false} PrefixedEmpty(prefix: seq<nat>, ss: seq<seq<nat>>)
    requires prefix == []
    ensures Prefixed(prefix, ss) == ss
  {
    if ss != [] {
      PrefixedEmpty(prefix, ss[..|ss| - 1]);
      assert prefix + ss[|ss| - 1] == ss[|ss| - 1];
    }
  }

  lemma PrefixedOne(before: seq<seq<nat>>, prefix: seq<nat>, i: nat)
    ensures Then(before, Prefixed(prefix, Prepend(i, [[]]))) == before + [prefix + [i]]
  {
    var none: seq<seq<nat>> := [[]];
    PrefixedTwice(prefix, i, none);
    assert prefix + [i] + [] == prefix + [i];
    assert none[..0] == [];
    ThenIsConcat(before, [prefix + [i]]);
  }

  /** All non-decreasing sequences of nb indices in lo..hi, smallest first. */
  function Combos(lo: nat, hi: int, nb: nat): seq<seq<nat>>
    decreases nb, hi - lo
  {
    if nb == 0 then [[]]
    else if lo >= hi then []
    else Prepend(lo, Combos(lo, hi, nb - 1)) + Combos(lo + 1, hi, nb)
  }

  /** One iteration of the enumerating loop: what was built, and what is still to be built after it. */
  lemma CombosBranch(before: seq<seq<nat>>, after: seq<seq<nat>>, prefix: seq<nat>, i: nat, hi: int, nb: nat,
                     goal: seq<seq<nat>>)
    requires i < hi && nb > 0 && Then(before, Prefixed(prefix, Combos(i, hi, nb))) == goal
    requires after == Then(before, Prefixed(prefix, Prepend(i, Combos(i, hi, nb - 1))))
    ensures Then(after, Prefixed(prefix, Combos(i + 1, hi, nb))) == goal
  {
    hide Then, Prefixed, Prepend, Combos;
    var first, rest := Prepend(i, Combos(i, hi, nb - 1)), Combos(i + 1, hi, nb);
    CombosUnfold(i, hi, nb);
    PrefixedConcat(prefix, first, rest);
    Advance(before, after, Prefixed(prefix, first), Prefixed(prefix, rest), goal);
  }

  lemma CombosUnfold(i: nat, hi: int, nb: nat)
    requires i < hi && nb > 0
    ensures Combos(i, hi, nb) == Prepend(i, Combos(i, hi, nb - 1)) + Combos(i + 1, hi, nb)
  {
    hide Prepend;
  }

  lemma NothingChosen(i: nat, hi: int)
    ensures Combos(i, hi, 0) == [[]]
  {
  }

  lemma CombosDone(picks: seq<seq<nat>>, prefix: seq<nat>, i: nat, hi: int, nb: nat, goal: seq<seq<nat>>)
    requires i >= hi && nb > 0 && Then(picks, Prefixed(prefix, Combos(i, hi, nb))) == goal
    ensures picks == goal
  {
  }

  predicate LexLess(s: seq<nat>, t: seq<nat>) {
    s != [] && t != [] && (s[0] < t[0] || (s[0] == t[0] && LexLess(s[1..], t[1..])))
  }

  ghost predicate Ascending(ss: seq<seq<nat>>) {
    forall i, j | 0 <= i < j < |ss| :: LexLess(ss[i], ss[j])
  }

  lemma {:induction false} LexIrreflexive(s: seq<nat>)
    ensures !LexLess(s, s)
  {
    if s != [] {
      LexIrreflexive(s[1..]);
    }
  }

  /** In an ascending list no sequence occurs twice. */
  lemma AscendingHasNoDuplicates(ss: seq<seq<nat>>)
    requires Ascending(ss)
    ensures forall i, j | 0 <= i < j < |ss| :: ss[i] != ss[j]
  {
    forall i, j | 0 <= i < j < |ss|
      ensures ss[i] != ss[j]
    {
      LexIrreflexive(ss[i]);
    }
  }

  /** s is a multiset of indices from lo up to hi, written in non-decreasing order. */
  predicate Selection(s: seq<nat>, lo: nat, hi: int) {
    s == [] || (lo <= s[0] < hi && Selection(s[1..], s[0], hi))
  }

  lemma {:induction false} SelectionMeaning(s: seq<nat>, lo: nat, hi: int)
    ensures Selection(s, lo, hi) <==> NonDecreasing(s) && Within(s, lo, hi)
  {
    if s != [] {
      var t := s[1..];
      SelectionMeaning(t, s[0], hi);
      assert forall i | 0 <= i < |t| :: t[i] == s[i + 1];
      assert forall i | 1 <= i < |s| :: s[i] == t[i - 1];
    }
  }

  /** Exactly the non-decreasing sequences of the right length and range are enumerated. */
  lemma {:induction false} CombosMember(lo: nat, hi: int, nb: nat, s: seq<nat>)
    ensures s in Combos(lo, hi, nb) <==> |s| == nb && Selection(s, lo, hi)
    decreases nb, hi - lo
  {
    if nb > 0 && lo < hi {
      var tails, rest := Combos(lo, hi, nb - 1), Combos(lo + 1, hi, nb);
      CombosMember(lo + 1, hi, nb, s);
      SplitMember(lo, tails, rest, s);
      if s != [] {
        CombosMember(lo, hi, nb - 1, s[1..]);
      }
    }
  }

  lemma SplitMember(x: nat, tails: seq<seq<nat>>, rest: seq<seq<nat>>, s: seq<nat>)
    ensures s in Prepend(x, tails) + rest <==> (s != [] && s[0] == x && s[1..] in tails) || s in rest
  {
    PrependMember(x, tails, s);
  }

  lemma PrependMember(x: nat, ss: seq<seq<nat>>, s: seq<nat>)
    ensures s in Prepend(x, ss) <==> s != [] && s[0] == x && s[1..] in ss
  {
    var r := Prepend(x, ss);
    PrefixedAt([x], ss);
    if s in r {
      var k :| 0 <= k < |r| && r[k] == s;
      assert s[1..] == ss[k];
    }
    if s != [] && s[0] == x && s[1..] in ss {
      var k :| 0 <= k < |ss| && ss[k] == s[1..];
      assert r[k] == s;
    }
  }

  /** They come in strictly ascending lexicographic order, so none comes twice. */
  lemma {:induction false} CombosAscending(lo: nat, hi: int, nb: nat)
    ensures Ascending(Combos(lo, hi, nb))
    decreases nb, hi - lo
  {
    if nb > 0 && lo < hi {
      var head, rest := Prepend(lo, Combos(lo, hi, nb - 1)), Combos(lo + 1, hi, nb);
      CombosAscending(lo, hi, nb - 1);
      CombosAscending(lo + 1, hi, nb);
      forall t | t in rest
        ensures t != [] && lo < t[0]
      {
        CombosMember(lo + 1, hi, nb, t);
      }
      AscendingAppend(lo, Combos(lo, hi, nb - 1), rest);
    }
  }

  lemma AscendingAppend(x: nat, ss: seq<seq<nat>>, rest: seq<seq<nat>>)
    requires Ascending(ss) && Ascending(rest)
    requires forall t | t in rest :: t != [] && x < t[0]
    ensures Ascending(Prepend(x, ss) + rest)
  {
    var all := Prepend(x, ss) + rest;
    PrefixedAt([x], ss);
    forall i, j | 0 <= i < j < |all|
      ensures LexLess(all[i], all[j])
    {
      if j < |ss| {
        assert LexLess(ss[i], ss[j]);
        assert all[i][1..] == ss[i] && all[j][1..] == ss[j];
      } else if i < |ss| {
        assert all[j] in rest;
      }
    }
  }

  lemma AscendingConcat(ss: seq<seq<nat>>, tt: seq<seq<nat>>)
    requires Ascending(ss) && Ascending(tt)
    requires forall s, t | s in ss && t in tt :: LexLess(s, t)
    ensures Ascending(ss + tt)
  {
    var all := ss + tt;
    forall i, j | 0 <= i < j < |all|
      ensures LexLess(all[i], all[j])
    {
      if i < |ss| && j >= |ss| {
        assert all[i] in ss && all[j] in tt;
      }
    }
  }

  /** There are as many as multisets of nb items out of hi - lo. */
  lemma {:induction false} CombosCount(lo: nat, hi: int, nb: nat)
    requires lo < hi
    ensures |Combos(lo, hi, nb)| == Choose(hi - lo + nb - 1, nb)
    decreases nb, hi - lo
  {
    hide Prefixed;
    if nb > 0 {
      CombosCount(lo, hi, nb - 1);
      PrefixedAt([lo], Combos(lo, hi, nb - 1));
      if lo + 1 < hi {
        CombosCount(lo + 1, hi, nb);
      } else {
        ChooseAbove(nb - 1, nb);
      }
    }
  }

  // ---------------------------------------------------------------- combinations of an exact load

  function Load(caps: seq<int>, s: seq<nat>): int
    requires Within(s, 0, |caps|)
  {
    if s == [] then 0 else caps[s[0]] + Load(caps, s[1..])
  }

  /** What the branch-and-bound search over capacities enumerates: a branch is cut as soon as
      one item exceeds what is left. */
  function Fillings(caps: seq<int>, lo: nat, remaining: int, nb: nat): seq<seq<nat>>
    decreases nb, |caps| - lo
  {
    if nb == 0 then (if remaining == 0 then [[]] else [])
    else if lo >= |caps| then []
    else (if caps[lo] > remaining then [] else Prepend(lo, Fillings(caps, lo, remaining - caps[lo], nb - 1)))
         + Fillings(caps, lo + 1, remaining, nb)
  }

  lemma {:induction false} SelectionInRange(s: seq<nat>, lo: nat, hi: int)
    requires Selection(s, lo, hi)
    ensures Within(s, lo, hi)
  {
    if s != [] {
      SelectionInRange(s[1..], s[0], hi);
    }
  }

  lemma {:induction false} LoadNonNegative(caps: seq<int>, s: seq<nat>)
    requires forall c | c in caps :: c >= 0
    requires Within(s, 0, |caps|)
    ensures Load(caps, s) >= 0
  {
    if s != [] {
      assert caps[s[0]] in caps;
      LoadNonNegative(caps, s[1..]);
    }
  }

  /** s selects nb items from lo on whose capacities add up to exactly what is asked for. */
  ghost predicate Fills(caps: seq<int>, lo: nat, remaining: int, nb: nat, s: seq<nat>) {
    |s| == nb && Selection(s, lo, |caps|) && Within(s, 0, |caps|) && Load(caps, s) == remaining
  }

  lemma FillsCons(caps: seq<int>, lo: nat, remaining: int, nb: nat, s: seq<nat>)
    requires forall c | c in caps :: c >= 0
    requires nb > 0 && lo < |caps|
    ensures Fills(caps, lo, remaining, nb, s) <==>
            || (s != [] && s[0] == lo && caps[lo] <= remaining && Fills(caps, lo, remaining - caps[lo], nb - 1, s[1..]))
            || Fills(caps, lo + 1, remaining, nb, s)
  {
    if s != [] {
      assert Within(s, 0, |caps|) <==> s[0] < |caps| && Within(s[1..], 0, |caps|) by {
        assert s == [s[0]] + s[1..];
      }
      if Within(s, 0, |caps|) {
        LoadNonNegative(caps, s[1..]);
      }
    }
  }

  lemma FillingsBase(caps: seq<int>, lo: nat, remaining: int, nb: nat, s: seq<nat>)
    requires nb == 0 || lo >= |caps|
    ensures s in Fillings(caps, lo, remaining, nb) <==> Fills(caps, lo, remaining, nb, s)
  {
  }

  lemma {:induction false} FillingsSound(caps: seq<int>, lo: nat, remaining: int, nb: nat, s: seq<nat>)
    requires forall c | c in caps :: c >= 0
    requires s in Fillings(caps, lo, remaining, nb)
    ensures Fills(caps, lo, remaining, nb, s)
    decreases nb, |caps| - lo
  {
    hide Fillings, Fills;
    if nb == 0 || lo >= |caps| {
      FillingsBase(caps, lo, remaining, nb, s);
    } else {
      FillingsSplit(caps, lo, remaining, nb, s);
      FillsCons(caps, lo, remaining, nb, s);
      if s in Fillings(caps, lo + 1, remaining, nb) {
        FillingsSound(caps, lo + 1, remaining, nb, s);
      } else {
        FillingsSound(caps, lo, remaining - caps[lo], nb - 1, s[1..]);
      }
    }
  }

  lemma {:induction false} FillingsComplete(caps: seq<int>, lo: nat, remaining: int, nb: nat, s: seq<nat>)
    requires forall c | c in caps :: c >= 0
    requires Fills(caps, lo, remaining, nb, s)
    ensures s in Fillings(caps, lo, remaining, nb)
    decreases nb, |caps| - lo
  {
    hide Fillings, Fills;
    if nb == 0 || lo >= |caps| {
      FillingsBase(caps, lo, remaining, nb, s);
    } else {
      FillingsSplit(caps, lo, remaining, nb, s);
      FillsCons(caps, lo, remaining, nb, s);
      if Fills(caps, lo + 1, remaining, nb, s) {
        FillingsComplete(caps, lo + 1, remaining, nb, s);
      } else {
        FillingsComplete(caps, lo, remaining - caps[lo], nb - 1, s[1..]);
      }
    }
  }

  /** Cutting branches loses nothing: the fillings are exactly the selections of exact capacity. */
  lemma FillingsMember(caps: seq<int>, lo: nat, remaining: int, nb: nat, s: seq<nat>)
    requires forall c | c in caps :: c >= 0
    ensures s in Fillings(caps, lo, remaining, nb) <==> Fills(caps, lo, remaining, nb, s)
  {
    if s in Fillings(caps, lo, remaining, nb) {
      FillingsSound(caps, lo, remaining, nb, s);
    }
    if Fills(caps, lo, remaining, nb, s) {
      FillingsComplete(caps, lo, remaining, nb, s);
    }
  }

  lemma FillingsSplit(caps: seq<int>, lo: nat, remaining: int, nb: nat, s: seq<nat>)
    requires nb > 0 && lo < |caps|
    ensures s in Fillings(caps, lo, remaining, nb) <==>
            || (s != [] && s[0] == lo && caps[lo] <= remaining
                && s[1..] in Fillings(caps, lo, remaining - caps[lo], nb - 1))
            || s in Fillings(caps, lo + 1, remaining, nb)
  {
    var rest := Fillings(caps, lo + 1, remaining, nb);
    if caps[lo] <= remaining {
      SplitMember(lo, Fillings(caps, lo, remaining - caps[lo], nb - 1), rest, s);
    } else {
      assert [] + rest == rest;
    }
  }

  lemma {:induction false} FillingsAscending(caps: seq<int>, lo: nat, remaining: int, nb: nat)
    requires forall c | c in caps :: c >= 0
    ensures Ascending(Fillings(caps, lo, remaining, nb))
    decreases nb, |caps| - lo
  {
    if nb > 0 && lo < |caps| {
      var rest := Fillings(caps, lo + 1, remaining, nb);
      FillingsAscending(caps, lo + 1, remaining, nb);
      if caps[lo] <= remaining {
        FillingsAscending(caps, lo, remaining - caps[lo], nb - 1);
        forall t | t in rest
          ensures t != [] && lo < t[0]
        {
          FillingsMember(caps, lo + 1, remaining, nb, t);
        }
        AscendingAppend(lo, Fillings(caps, lo, remaining - caps[lo], nb - 1), rest);
      } else {
        assert Fillings(caps, lo, remaining, nb) == rest;
      }
    }
  }

  /** One iteration of the search over capacities. */
  lemma FillingsBranch(before: seq<seq<nat>>, after: seq<seq<nat>>, prefix: seq<nat>, caps: seq<int>, i: nat,
                       remaining: int, nb: nat, goal: seq<seq<nat>>)
    requires i < |caps| && nb > 0 && Then(before, Prefixed(prefix, Fillings(caps, i, remaining, nb))) == goal
    requires after == if caps[i] > remaining then before
                      else Then(before, Prefixed(prefix, Prepend(i, Fillings(caps, i, remaining - caps[i], nb - 1))))
    ensures Then(after, Prefixed(prefix, Fillings(caps, i + 1, remaining, nb))) == goal
  {
    hide Then, Prefixed;
    var rest := Fillings(caps, i + 1, remaining, nb);
    if caps[i] > remaining {
      assert Fillings(caps, i, remaining, nb) == rest;
    } else {
      var head := Prepend(i, Fillings(caps, i, remaining - caps[i], nb - 1));
      assert Fillings(caps, i, remaining, nb) == head + rest;
      PrefixedConcat(prefix, head, rest);
      ThenIsConcat(before, Prefixed(prefix, head + rest));
      ThenIsConcat(before, Prefixed(prefix, head));
      ThenIsConcat(after, Prefixed(prefix, rest));
    }
  }

  lemma FillingsDone(mixes: seq<seq<nat>>, prefix: seq<nat>, caps: seq<int>, i: nat, remaining: int, nb: nat,
                     goal: seq<seq<nat>>)
    requires i >= |caps| && nb > 0 && Then(mixes, Prefixed(prefix, Fillings(caps, i, remaining, nb))) == goal
    ensures mixes == goal
  {
  }

  /** With nothing left to choose, only an exact fit remains. */
  lemma NothingLeft(before: seq<seq<nat>>, prefix: seq<nat>, caps: seq<int>, i: nat, remaining: int)
    ensures Fillings(caps, i, remaining, 0) == if remaining == 0 then [[]] else []
    ensures remaining != 0 ==> Then(before, Prefixed(prefix, Prepend(i, Fillings(caps, i, remaining, 0)))) == before
  {
  }
}
