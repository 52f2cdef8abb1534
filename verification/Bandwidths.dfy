/** Channels sorted by bandwidth fall into runs of equal bandwidth; BoBs are assembled inside runs. */
module Bandwidths {
  import opened Enumeration

  ghost predicate Sorted(bws: seq<int>) {
    forall i, j | 0 <= i < j < |bws| :: bws[i] <= bws[j]
  }

  /** Run k ends right before the next one starts, and the next one has another bandwidth. */
  predicate Adjacent(bws: seq<int>, starts: seq<nat>, ends: seq<int>, k: int) {
    && 0 <= k < |ends| && k < |starts| - 1
    && ends[k] + 1 == starts[k + 1] && 0 <= ends[k] < |bws| - 1 && bws[ends[k]] != bws[starts[k + 1]]
  }

  /** Run k is not empty and has one bandwidth. */
  ghost predicate OneBandwidth(bws: seq<int>, starts: seq<nat>, ends: seq<int>, k: int) {
    && 0 <= k < |starts| && k < |ends|
    && starts[k] <= ends[k] < |bws| && forall x | starts[k] <= x <= ends[k] :: bws[x] == bws[starts[k]]
  }

  /** The runs lie end to end, each of one bandwidth, different from that of the next. */
  ghost predicate EndToEnd(bws: seq<int>, starts: seq<nat>, ends: seq<int>) {
    && |starts| == |ends|
    && (forall k | 0 <= k < |starts| :: OneBandwidth(bws, starts, ends, k))
    && (forall k | 0 <= k < |starts| - 1 :: Adjacent(bws, starts, ends, k))
  }

  /** The runs cover the whole list. */
  ghost predicate Runs(bws: seq<int>, starts: seq<nat>, ends: seq<int>) {
    EndToEnd(bws, starts, ends) && |starts| > 0 && starts[0] == 0 && ends[|ends| - 1] == |bws| - 1
  }

  /** The scan for boundaries has looked at the first n positions; the last run is still open. */
  ghost predicate RunsSoFar(bws: seq<int>, starts: seq<nat>, ends: seq<int>, n: nat) {
    && |starts| == |ends| + 1 && n <= |bws| && starts[0] == 0
    && starts[|ends|] < |bws| && starts[|ends|] <= n && (starts[|ends|] > 0 ==> starts[|ends|] < n)
    && (forall k | 0 <= k < |ends| :: OneBandwidth(bws, starts, ends, k))
    && (forall k | 0 <= k < |ends| :: Adjacent(bws, starts, ends, k))
    && (forall x | starts[|ends|] <= x < n :: bws[x] == bws[starts[|ends|]])
  }

  /** Closing the open run at position i - 1. */
  lemma RunClosed(bws: seq<int>, starts: seq<nat>, ends: seq<int>, i: nat, ends': seq<int>)
    requires RunsSoFar(bws, starts, ends, i) && starts[|ends|] < i && ends' == ends + [i - 1]
    ensures EndToEnd(bws, starts, ends')
  {
    forall k | 0 <= k < |ends|
      ensures OneBandwidth(bws, starts, ends', k) && Adjacent(bws, starts, ends', k)
    {
      assert OneBandwidth(bws, starts, ends, k) && Adjacent(bws, starts, ends, k);
    }
    assert OneBandwidth(bws, starts, ends', |ends|);
  }

  lemma RunOpened(bws: seq<int>, starts: seq<nat>, ends: seq<int>, i: nat, starts': seq<nat>, ends': seq<int>)
    requires RunsSoFar(bws, starts, ends, i) && i < |bws| && bws[i] != bws[starts[|ends|]]
    requires starts' == starts + [i] && ends' == ends + [i - 1]
    ensures RunsSoFar(bws, starts', ends', i + 1)
  {
    RunClosed(bws, starts, ends, i, ends');
    forall k | 0 <= k < |ends'|
      ensures OneBandwidth(bws, starts', ends', k) && Adjacent(bws, starts', ends', k)
    {
      assert OneBandwidth(bws, starts, ends', k);
      assert k < |ends| ==> Adjacent(bws, starts, ends', k);
      assert k == |ends| ==> bws[i - 1] == bws[starts[|ends|]];
    }
  }

  /** All selected channels have one bandwidth. */
  ghost predicate Uniform(bws: seq<int>, s: seq<nat>) {
    Within(s, 0, |bws|) && forall i, j | 0 <= i < |s| && 0 <= j < |s| :: bws[s[i]] == bws[s[j]]
  }

  lemma RunBounds(bws: seq<int>, starts: seq<nat>, ends: seq<int>, k: nat)
    requires EndToEnd(bws, starts, ends) && k < |starts|
    ensures starts[k] <= ends[k] < |bws|
  {
    assert OneBandwidth(bws, starts, ends, k);
  }

  /** The run a position belongs to. */
  lemma {:induction false} RunOf(bws: seq<int>, starts: seq<nat>, ends: seq<int>, n: nat, x: nat) returns (k: nat)
    requires EndToEnd(bws, starts, ends) && |starts| > 0 && starts[0] == 0
    requires n <= |starts| && n > 0 && x <= ends[n - 1]
    ensures k < n && starts[k] <= x <= ends[k]
  {
    assert OneBandwidth(bws, starts, ends, n - 1);
    if x >= starts[n - 1] {
      k := n - 1;
    } else {
      assert Adjacent(bws, starts, ends, n - 2);
      k := RunOf(bws, starts, ends, n - 1, x);
    }
  }

  /** In a sorted list different runs have different bandwidths: the runs are maximal. */
  lemma {:induction false} RunsAscend(bws: seq<int>, starts: seq<nat>, ends: seq<int>, k: nat, l: nat)
    requires Sorted(bws) && EndToEnd(bws, starts, ends) && k < l < |starts|
    ensures 0 <= ends[k] < starts[l] < |bws| && bws[ends[k]] < bws[starts[l]]
    decreases l
  {
    var m := l - 1;
    assert Adjacent(bws, starts, ends, m) && OneBandwidth(bws, starts, ends, m) && OneBandwidth(bws, starts, ends, l);
    assert bws[ends[m]] <= bws[starts[l]];
    if k < m {
      RunsAscend(bws, starts, ends, k, m);
      assert bws[ends[m]] == bws[starts[m]];
    }
  }

  /** The selections of the first k runs, run after run. */
  function RunCombos(starts: seq<nat>, ends: seq<int>, nb: nat, k: nat): seq<seq<nat>>
    requires k <= |starts| == |ends|
  {
    if k == 0 then [] else Then(RunCombos(starts, ends, nb, k - 1), Combos(starts[k - 1], ends[k - 1] + 1, nb))
  }

  lemma RunCombosStep(starts: seq<nat>, ends: seq<int>, nb: nat, i: nat, run: seq<seq<nat>>)
    requires i < |starts| == |ends| && run == Combos(starts[i], ends[i] + 1, nb)
    ensures RunCombos(starts, ends, nb, i + 1) == Then(RunCombos(starts, ends, nb, i), run)
  {
  }

  /** s selects within run r. */
  ghost predicate InRun(starts: seq<nat>, ends: seq<int>, nb: nat, r: int, s: seq<nat>)
    requires |starts| == |ends|
  {
    0 <= r < |starts| && |s| == nb && Selection(s, starts[r], ends[r] + 1)
  }

  lemma {:induction false} RunCombosMember(starts: seq<nat>, ends: seq<int>, nb: nat, k: nat, s: seq<nat>)
    requires k <= |starts| == |ends|
    ensures s in RunCombos(starts, ends, nb, k) <==> exists r | 0 <= r < k :: InRun(starts, ends, nb, r, s)
  {
    hide Then, Combos, Selection;
    if k > 0 {
      var earlier, run := RunCombos(starts, ends, nb, k - 1), Combos(starts[k - 1], ends[k - 1] + 1, nb);
      RunCombosMember(starts, ends, nb, k - 1, s);
      ThenIsConcat(earlier, run);
      CombosMember(starts[k - 1], ends[k - 1] + 1, nb, s);
      assert RunCombos(starts, ends, nb, k) == Then(earlier, run);
      assert s in earlier + run <==> s in earlier || s in run;
      assert s in run <==> InRun(starts, ends, nb, k - 1, s);
    }
  }

  lemma InRunIsUniform(bws: seq<int>, starts: seq<nat>, ends: seq<int>, nb: nat, r: nat, s: seq<nat>)
    requires EndToEnd(bws, starts, ends) && InRun(starts, ends, nb, r, s)
    ensures Selection(s, 0, |bws|) && Uniform(bws, s)
  {
    SelectionMeaning(s, starts[r], ends[r] + 1);
    SelectionMeaning(s, 0, |bws|);
    assert OneBandwidth(bws, starts, ends, r);
    assert forall i | 0 <= i < |s| :: bws[s[i]] == bws[starts[r]];
  }

  lemma UniformIsInRun(bws: seq<int>, starts: seq<nat>, ends: seq<int>, s: seq<nat>) returns (r: nat)
    requires Sorted(bws) && Runs(bws, starts, ends)
    requires s != [] && Selection(s, 0, |bws|) && Uniform(bws, s)
    ensures InRun(starts, ends, |s|, r, s)
  {
    SelectionMeaning(s, 0, |bws|);
    r := RunOf(bws, starts, ends, |starts|, s[0]);
    assert OneBandwidth(bws, starts, ends, r);
    forall i | 0 <= i < |s|
      ensures s[i] <= ends[r]
    {
      var t := RunOf(bws, starts, ends, |starts|, s[i]);
      assert OneBandwidth(bws, starts, ends, t);
      assert bws[s[i]] == bws[starts[t]] && bws[s[i]] == bws[s[0]] == bws[starts[r]] == bws[ends[r]];
      if r < t {
        RunsAscend(bws, starts, ends, r, t);
      } else if t < r {
        RunsAscend(bws, starts, ends, t, r);
      }
    }
    assert forall i | 0 < i < |s| :: s[0] <= s[i];
    SelectionMeaning(s, starts[r], ends[r] + 1);
  }

  /** Every BoB built has channels of one bandwidth, and no such BoB is missed. */
  lemma RunCombosAreUniform(bws: seq<int>, starts: seq<nat>, ends: seq<int>, nb: nat, s: seq<nat>)
    requires Sorted(bws) && Runs(bws, starts, ends) && nb >= 1
    ensures s in RunCombos(starts, ends, nb, |starts|) <==> |s| == nb && Selection(s, 0, |bws|) && Uniform(bws, s)
  {
    RunCombosMember(starts, ends, nb, |starts|, s);
    if s in RunCombos(starts, ends, nb, |starts|) {
      var r :| 0 <= r < |starts| && InRun(starts, ends, nb, r, s);
      InRunIsUniform(bws, starts, ends, nb, r, s);
    } else if |s| == nb && Selection(s, 0, |bws|) && Uniform(bws, s) {
      var r := UniformIsInRun(bws, starts, ends, s);
      assert false;
    }
  }

  lemma LaterRunIsGreater(bws: seq<int>, starts: seq<nat>, ends: seq<int>, nb: nat, r: nat, k: nat,
                          s: seq<nat>, t: seq<nat>)
    requires Sorted(bws) && EndToEnd(bws, starts, ends) && nb >= 1 && r < k < |starts|
    requires InRun(starts, ends, nb, r, s) && InRun(starts, ends, nb, k, t)
    ensures LexLess(s, t)
  {
    RunsAscend(bws, starts, ends, r, k);
  }

  lemma EarlierRunsAreSmaller(bws: seq<int>, starts: seq<nat>, ends: seq<int>, nb: nat, k: nat, s: seq<nat>,
                              t: seq<nat>)
    requires Sorted(bws) && EndToEnd(bws, starts, ends) && nb >= 1 && k < |starts|
    requires s in RunCombos(starts, ends, nb, k) && t in Combos(starts[k], ends[k] + 1, nb)
    ensures LexLess(s, t)
  {
    RunCombosMember(starts, ends, nb, k, s);
    var r :| 0 <= r < k && InRun(starts, ends, nb, r, s);
    CombosMember(starts[k], ends[k] + 1, nb, t);
    LaterRunIsGreater(bws, starts, ends, nb, r, k, s, t);
  }

  /** No BoB is built twice. */
  lemma {:induction false} RunCombosAscending(bws: seq<int>, starts: seq<nat>, ends: seq<int>, nb: nat, k: nat)
    requires Sorted(bws) && EndToEnd(bws, starts, ends) && nb >= 1 && k <= |starts|
    ensures Ascending(RunCombos(starts, ends, nb, k))
  {
    if k > 0 {
      RunCombosAscending(bws, starts, ends, nb, k - 1);
      CombosAscending(starts[k - 1], ends[k - 1] + 1, nb);
      forall s, t | s in RunCombos(starts, ends, nb, k - 1) && t in Combos(starts[k - 1], ends[k - 1] + 1, nb)
        ensures LexLess(s, t)
      {
        EarlierRunsAreSmaller(bws, starts, ends, nb, k - 1, s, t);
      }
      ThenIsConcat(RunCombos(starts, ends, nb, k - 1), Combos(starts[k - 1], ends[k - 1] + 1, nb));
      AscendingConcat(RunCombos(starts, ends, nb, k - 1), Combos(starts[k - 1], ends[k - 1] + 1, nb));
    }
  }

  /** The two facts above for a whole list. */
  lemma AllRunCombos(bws: seq<int>, starts: seq<nat>, ends: seq<int>, nb: nat)
    requires Sorted(bws) && Runs(bws, starts, ends) && nb >= 1
    ensures Ascending(RunCombos(starts, ends, nb, |starts|))
    ensures forall s :: s in RunCombos(starts, ends, nb, |starts|) <==>
              |s| == nb && Selection(s, 0, |bws|) && Uniform(bws, s)
  {
    RunCombosAscending(bws, starts, ends, nb, |starts|);
    forall s
      ensures s in RunCombos(starts, ends, nb, |starts|) <==> |s| == nb && Selection(s, 0, |bws|) && Uniform(bws, s)
    {
      RunCombosAreUniform(bws, starts, ends, nb, s);
    }
  }
}
