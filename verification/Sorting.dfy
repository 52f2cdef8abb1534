/** The contract of the library sort, with an insertion sort as one way to meet it. Callers
    see only the contract, so what they prove holds for every algorithm that meets it. */
module Sorting {

  ghost predicate PreorderOn<T>(s: seq<T>, leq: (T, T) -> bool) {
    && (forall x, y | x in s && y in s :: leq(x, y) || leq(y, x))
    && (forall x, y, z | x in s && y in s && z in s && leq(x, y) && leq(y, z) :: leq(x, z))
  }

  ghost predicate SortedBy<T>(s: seq<T>, leq: (T, T) -> bool) {
    forall i, j | 0 <= i < j < |s| :: leq(s[i], s[j])
  }

  /** The two sequences hold the same elements, each equally often. */
  ghost predicate Rearranged<T>(s: seq<T>, t: seq<T>) {
    multiset(s) == multiset(t)
  }

  lemma RearrangedMembers<T>(s: seq<T>, t: seq<T>)
    requires Rearranged(s, t)
    ensures |s| == |t|
    ensures forall x :: x in s <==> x in t
  {
    assert |multiset(s)| == |multiset(t)|;
    assert forall x :: x in s <==> x in multiset(s);
    assert forall x :: x in t <==> x in multiset(t);
  }

  /** Everything before an element that is not above x is not above x either. */
  lemma PrefixBelow<T>(s: seq<T>, x: T, k: nat, leq: (T, T) -> bool)
    requires PreorderOn(s + [x], leq) && SortedBy(s, leq)
    requires k <= |s| && (k > 0 ==> leq(s[k - 1], x))
    ensures forall i | 0 <= i < k :: leq(s[i], x)
  {
    forall i | 0 <= i < k
      ensures leq(s[i], x)
    {
      var t := s + [x];
      assert t[i] == s[i] && t[k - 1] == s[k - 1] && t[|s|] == x;
      assert s[i] in t && s[k - 1] in t && x in t;
      assert i < k - 1 ==> leq(s[i], s[k - 1]);
    }
  }

  lemma InsertedIsSorted<T>(s: seq<T>, x: T, k: nat, leq: (T, T) -> bool)
    requires SortedBy(s, leq) && k <= |s|
    requires forall i | 0 <= i < k :: leq(s[i], x)
    requires forall j | k <= j < |s| :: leq(x, s[j])
    ensures SortedBy(s[..k] + [x] + s[k..], leq)
  {
    var r := s[..k] + [x] + s[k..];
    forall i, j | 0 <= i < j < |r|
      ensures leq(r[i], r[j])
    {
      assert r[i] == if i < k then s[i] else if i == k then x else s[i - 1];
      assert r[j] == if j < k then s[j] else if j == k then x else s[j - 1];
    }
  }

  /** Puts x behind the last element that is not above it. */
  method Insert<T>(s: seq<T>, x: T, leq: (T, T) -> bool) returns (r: seq<T>, ghost k: nat)
    requires PreorderOn(s + [x], leq) && SortedBy(s, leq)
    ensures Rearranged(r, s + [x]) && SortedBy(r, leq)
    ensures k <= |s| && r == s[..k] + [x] + s[k..] && forall j | k <= j < |s| :: !leq(s[j], x)
  {
    hide PreorderOn;
    var n := |s|;
    while n > 0 && !leq(s[n - 1], x)
      invariant 0 <= n <= |s|
      invariant forall j | n <= j < |s| :: !leq(s[j], x) && leq(x, s[j])
    {
      Total(s, x, n - 1, leq);
      n := n - 1;
    }
    k := n;
    PrefixBelow(s, x, k, leq);
    InsertedIsSorted(s, x, k, leq);
    r := s[..n] + [x] + s[n..];
    InsertRearranges(s, x, k);
  }

  lemma Total<T>(s: seq<T>, x: T, i: nat, leq: (T, T) -> bool)
    requires PreorderOn(s + [x], leq) && i < |s| && !leq(s[i], x)
    ensures leq(x, s[i])
  {
    assert x in s + [x] && s[i] in s + [x];
  }

  lemma InsertRearranges<T>(s: seq<T>, x: T, k: nat)
    requires k <= |s|
    ensures Rearranged(s[..k] + [x] + s[k..], s + [x])
  {
    assert s == s[..k] + s[k..];
  }

  /** The library sort of an array, which may move tied elements past each other. */
  method Sort<T>(s: seq<T>, leq: (T, T) -> bool) returns (r: seq<T>)
    requires PreorderOn(s, leq)
    ensures Rearranged(r, s) && SortedBy(r, leq)
  {
    r := [];
    for i := 0 to |s|
      invariant Rearranged(r, s[..i]) && SortedBy(r, leq)
    {
      assert s[..i + 1] == s[..i] + [s[i]];
      RearrangedMembers(r, s[..i]);
      assert forall x | x in r + [s[i]] :: x in s;
      ghost var k;
      r, k := Insert(r, s[i], leq);
    }
    assert s[..|s|] == s;
  }

  // ---------------------------------------------------------------- ties, and the sort and merge of lists

  ghost predicate Preorder<T(!new)>(leq: (T, T) -> bool) {
    && (forall x, y :: leq(x, y) || leq(y, x))
    && (forall x, y, z | leq(x, y) && leq(y, z) :: leq(x, z))
  }

  /** The elements of s tied with y, in their order. */
  function Tied<T>(s: seq<T>, y: T, leq: (T, T) -> bool): seq<T> {
    if s == [] then []
    else
      var x := s[|s| - 1];
      Tied(s[..|s| - 1], y, leq) + if leq(x, y) && leq(y, x) then [x] else []
  }

  /** Tied elements come in the same order in both lists. */
  ghost predicate SameTies<T(!new)>(r: seq<T>, s: seq<T>, leq: (T, T) -> bool) {
    forall y :: Tied(r, y, leq) == Tied(s, y, leq)
  }

  /** The outcome of a stable sort of s. */
  ghost predicate StableSortOf<T(!new)>(r: seq<T>, s: seq<T>, leq: (T, T) -> bool) {
    SortedBy(r, leq) && SameTies(r, s, leq)
  }

  lemma {:induction false} TiedConcat<T>(a: seq<T>, b: seq<T>, y: T, leq: (T, T) -> bool)
    ensures Tied(a + b, y, leq) == Tied(a, y, leq) + Tied(b, y, leq)
  {
    if b == [] {
      assert a + b == a;
    } else {
      TiedConcat(a, b[..|b| - 1], y, leq);
      assert (a + b)[..|a + b| - 1] == a + b[..|b| - 1];
    }
  }

  lemma {:induction false} TiedMember<T>(s: seq<T>, x: T, y: T, leq: (T, T) -> bool)
    ensures x in Tied(s, y, leq) <==> x in s && leq(x, y) && leq(y, x)
  {
    if s != [] {
      TiedMember(s[..|s| - 1], x, y, leq);
      assert s == s[..|s| - 1] + [s[|s| - 1]];
    }
  }

  lemma NothingTied<T>(s: seq<T>, y: T, leq: (T, T) -> bool)
    requires forall x | x in s :: !leq(x, y) || !leq(y, x)
    ensures Tied(s, y, leq) == []
  {
    if Tied(s, y, leq) != [] {
      TiedMember(s, Tied(s, y, leq)[0], y, leq);
    }
  }

  lemma SameTiesSameMembers<T(!new)>(r: seq<T>, s: seq<T>, x: T, leq: (T, T) -> bool)
    requires Preorder(leq) && SameTies(r, s, leq)
    ensures x in r <==> x in s
  {
    TiedMember(r, x, x, leq);
    TiedMember(s, x, x, leq);
    assert Tied(r, x, leq) == Tied(s, x, leq);
  }

  /** There is only one stable sort: sorted lists whose ties agree are equal. */
  lemma {:induction false} StableSortIsUnique<T(!new)>(r: seq<T>, s: seq<T>, leq: (T, T) -> bool)
    requires Preorder(leq) && SortedBy(r, leq) && SortedBy(s, leq) && SameTies(r, s, leq)
    ensures r == s
  {
    hide Preorder, SameTies;
    if r != [] {
      SameTiesSameMembers(r, s, r[|r| - 1], leq);
      SameTiesSameMembers(r, s, s[|s| - 1], leq);
      LastsAgree(r, s, leq);
      var x, r', s' := r[|r| - 1], r[..|r| - 1], s[..|s| - 1];
      assert r == r' + [x] && s == s' + [x];
      WithoutLast(r', s', x, leq);
      StableSortIsUnique(r', s', leq);
    } else if s != [] {
      SameTiesSameMembers(r, s, s[0], leq);
    }
  }

  lemma WithoutLast<T(!new)>(r: seq<T>, s: seq<T>, x: T, leq: (T, T) -> bool)
    requires SameTies(r + [x], s + [x], leq)
    ensures SameTies(r, s, leq)
  {
    hide Tied;
    forall y
      ensures Tied(r, y, leq) == Tied(s, y, leq)
    {
      TiedConcat(r, [x], y, leq);
      TiedConcat(s, [x], y, leq);
      var last := Tied([x], y, leq);
      assert (Tied(r, y, leq) + last)[..|Tied(r, y, leq)|] == Tied(r, y, leq);
      assert Tied(r + [x], y, leq) == Tied(s + [x], y, leq);
      assert (Tied(s, y, leq) + last)[..|Tied(s, y, leq)|] == Tied(s, y, leq);
    }
  }

  lemma LastsAgree<T(!new)>(r: seq<T>, s: seq<T>, leq: (T, T) -> bool)
    requires Preorder(leq) && SortedBy(r, leq) && SortedBy(s, leq) && SameTies(r, s, leq)
    requires r != [] && s != [] && r[|r| - 1] in s && s[|s| - 1] in r
    ensures r[|r| - 1] == s[|s| - 1]
  {
    var x, y := r[|r| - 1], s[|s| - 1];
    LastIsAbove(r, y, leq);
    LastIsAbove(s, x, leq);
    assert Tied(r, x, leq) == Tied(s, x, leq);
    assert Tied(r, x, leq)[|Tied(r, x, leq)| - 1] == x;
    assert Tied(s, x, leq)[|Tied(s, x, leq)| - 1] == y;
  }

  lemma LastIsAbove<T(!new)>(s: seq<T>, x: T, leq: (T, T) -> bool)
    requires Preorder(leq) && SortedBy(s, leq) && x in s
    ensures leq(x, s[|s| - 1])
  {
    var i :| 0 <= i < |s| && s[i] == x;
  }

  lemma InsertKeepsTies<T(!new)>(s: seq<T>, x: T, k: nat, y: T, leq: (T, T) -> bool)
    requires Preorder(leq) && k <= |s| && forall j | k <= j < |s| :: !leq(s[j], x)
    ensures Tied(s[..k] + [x] + s[k..], y, leq) == Tied(s + [x], y, leq)
  {
    var below, above := s[..k], s[k..];
    assert s == below + above;
    SwapUntied(below, [x], above, y, leq);
  }

  /** Two adjacent parts can be swapped when not both hold elements tied with y. */
  lemma SwapUntied<T(!new)>(a: seq<T>, b: seq<T>, c: seq<T>, y: T, leq: (T, T) -> bool)
    requires Preorder(leq) && forall x, z | x in b && z in c :: !leq(z, x)
    ensures Tied(a + b + c, y, leq) == Tied(a + c + b, y, leq)
  {
    hide Tied, Preorder;
    TiedConcat(a + b, c, y, leq);
    TiedConcat(a, b, y, leq);
    TiedConcat(a + c, b, y, leq);
    TiedConcat(a, c, y, leq);
    if x :| x in b && leq(x, y) && leq(y, x) {
      forall z | z in c
        ensures !leq(z, y)
      {
        Through(z, y, x, leq);
      }
      NothingTied(c, y, leq);
    } else {
      NothingTied(b, y, leq);
    }
    var u, v, w := Tied(a, y, leq), Tied(b, y, leq), Tied(c, y, leq);
    assert u + v + w == u + w + v;
  }

  lemma Through<T(!new)>(x: T, y: T, z: T, leq: (T, T) -> bool)
    requires Preorder(leq) && !leq(x, z) && leq(y, z)
    ensures !leq(x, y)
  {
  }

  /** The library sort of a list, which keeps tied elements in their order. */
  method ListSort<T(!new)>(s: seq<T>, leq: (T, T) -> bool) returns (r: seq<T>)
    requires Preorder(leq)
    ensures Rearranged(r, s) && StableSortOf(r, s, leq)
  {
    hide Tied;
    r := [];
    for i := 0 to |s|
      invariant Rearranged(r, s[..i]) && StableSortOf(r, s[..i], leq)
    {
      ghost var before, shorter := s[..i], r;
      assert s[..i + 1] == before + [s[i]];
      ghost var k;
      r, k := Insert(r, s[i], leq);
      forall y
        ensures Tied(r, y, leq) == Tied(before + [s[i]], y, leq)
      {
        InsertKeepsTies(shorter, s[i], k, y, leq);
        TiedConcat(shorter, [s[i]], y, leq);
        TiedConcat(before, [s[i]], y, leq);
      }
    }
    assert s[..|s|] == s;
  }

  /** The last element of r is not above the element of s at position k. */
  ghost predicate Before<T>(r: seq<T>, s: seq<T>, k: nat, leq: (T, T) -> bool) {
    r != [] && k < |s| ==> leq(r[|r| - 1], s[k])
  }

  /** The elements of b are strictly below those of a from position i on. */
  ghost predicate Ahead<T>(b: seq<T>, a: seq<T>, i: nat, leq: (T, T) -> bool) {
    forall l, x | i <= l < |a| && x in b :: !leq(a[l], x)
  }

  /** The library merge of two sorted lists; on ties the elements of the first list come first. */
  method Merge<T(!new)>(a: seq<T>, b: seq<T>, leq: (T, T) -> bool) returns (r: seq<T>)
    requires Preorder(leq) && SortedBy(a, leq) && SortedBy(b, leq)
    ensures multiset(r) == multiset(a) + multiset(b)
    ensures StableSortOf(r, a + b, leq)
  {
    hide Preorder, Before, SameTies, Ahead, Tied, SortedBy;
    r := [];
    var i, j := 0, 0;
    NothingTaken(a, b, leq);
    while i < |a| || j < |b|
      invariant i <= |a| && j <= |b|
      invariant multiset(r) == multiset(a[..i]) + multiset(b[..j])
      invariant SortedBy(r, leq) && Before(r, a, i, leq) && Before(r, b, j, leq)
      invariant SameTies(r, a[..i] + b[..j], leq) && Ahead(b[..j], a, i, leq)
      decreases |a| - i + |b| - j
    {
      if j >= |b| || (i < |a| && leq(a[i], b[j])) {
        MergeStep(r, a, i, b, j, leq);
        FirstTaken(r, a, i, b[..j], leq);
        assert a[..i + 1] == a[..i] + [a[i]];
        r := r + [a[i]];
        i := i + 1;
      } else {
        MergeStep(r, b, j, a, i, leq);
        SecondTaken(r, a, i, b, j, leq);
        assert b[..j + 1] == b[..j] + [b[j]];
        r := r + [b[j]];
        j := j + 1;
      }
    }
    assert a[..i] == a && b[..j] == b;
  }

  lemma NothingTaken<T(!new)>(a: seq<T>, b: seq<T>, leq: (T, T) -> bool)
    ensures Before([], a, 0, leq) && Before([], b, 0, leq)
    ensures SortedBy([], leq) && SameTies([], a[..0] + b[..0], leq) && Ahead(b[..0], a, 0, leq)
  {
  }

  /** Taking the next element of s, when it is not above the next one of t. */
  lemma MergeStep<T(!new)>(r: seq<T>, s: seq<T>, k: nat, t: seq<T>, l: nat, leq: (T, T) -> bool)
    requires Preorder(leq) && SortedBy(r, leq) && SortedBy(s, leq) && k < |s|
    requires Before(r, s, k, leq) && (l < |t| ==> leq(s[k], t[l]) || !leq(t[l], s[k]))
    ensures SortedBy(r + [s[k]], leq) && Before(r + [s[k]], s, k + 1, leq) && Before(r + [s[k]], t, l, leq)
  {
    forall i | 0 <= i < |r|
      ensures leq(r[i], s[k])
    {
      assert i < |r| - 1 ==> leq(r[i], r[|r| - 1]);
    }
  }

  /** Taking the next element of the first list moves it before those taken from the second, all below it. */
  lemma FirstTaken<T(!new)>(r: seq<T>, a: seq<T>, i: nat, b: seq<T>, leq: (T, T) -> bool)
    requires Preorder(leq) && i < |a| && SameTies(r, a[..i] + b, leq) && Ahead(b, a, i, leq)
    ensures SameTies(r + [a[i]], a[..i + 1] + b, leq) && Ahead(b, a, i + 1, leq)
  {
    hide Tied;
    assert a[..i + 1] == a[..i] + [a[i]];
    forall y
      ensures Tied(r + [a[i]], y, leq) == Tied(a[..i + 1] + b, y, leq)
    {
      TiedConcat(r, [a[i]], y, leq);
      TiedConcat(a[..i] + b, [a[i]], y, leq);
      SwapUntied(a[..i], b, [a[i]], y, leq);
    }
  }

  /** Taking the next element of the second list, when it is below the next one of the first. */
  lemma SecondTaken<T(!new)>(r: seq<T>, a: seq<T>, i: nat, b: seq<T>, j: nat, leq: (T, T) -> bool)
    requires Preorder(leq) && SortedBy(a, leq) && j < |b| && (i < |a| ==> !leq(a[i], b[j]))
    requires i <= |a| && SameTies(r, a[..i] + b[..j], leq) && Ahead(b[..j], a, i, leq)
    ensures SameTies(r + [b[j]], a[..i] + b[..j + 1], leq) && Ahead(b[..j + 1], a, i, leq)
  {
    hide Tied;
    assert b[..j + 1] == b[..j] + [b[j]];
    assert a[..i] + b[..j + 1] == a[..i] + b[..j] + [b[j]];
    forall y
      ensures Tied(r + [b[j]], y, leq) == Tied(a[..i] + b[..j + 1], y, leq)
    {
      TiedConcat(r, [b[j]], y, leq);
      TiedConcat(a[..i] + b[..j], [b[j]], y, leq);
    }
    forall l | i <= l < |a|
      ensures !leq(a[l], b[j])
    {
      assert i < l ==> leq(a[i], a[l]);
    }
  }

  /** The ties of a merged list are those of the lists the merged ones were sorted from. */
  lemma MergedTies<T(!new)>(r: seq<T>, a: seq<T>, a': seq<T>, b: seq<T>, b': seq<T>, leq: (T, T) -> bool)
    requires SameTies(r, a + b, leq) && SameTies(a, a', leq) && SameTies(b, b', leq)
    ensures SameTies(r, a' + b', leq)
  {
    hide Tied;
    forall y
      ensures Tied(r, y, leq) == Tied(a' + b', y, leq)
    {
      TiedConcat(a, b, y, leq);
      TiedConcat(a', b', y, leq);
    }
  }
}
