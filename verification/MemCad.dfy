/** The MemCAD search: enumerate channels, prune, assemble BoBs, prune, assemble memories of the
    exact capacity, rank. The lists the search rebuilds are fields of one object. */
module MemCad {
  import opened Metrics
  import opened Sorting
  import opened Enumeration
  import opened Pruning
  import opened Ordering
  import opened Bandwidths
  import opened Configurations
  import opened Offers
  import opened Designs
  import opened SameBandwidthPruning

  /** The channel realises the choice. */
  ghost predicate Realises(p: Parameters, ch: ChannelConf, c: Choice)
    requires Usable(p)
  {
    && ch.Valid() && ch.params == p && InTable(c) && c.bwId <= 3
    && ch.kind == c.kind && ch.lowPower == c.lowPower && ch.histogram == ChoiceHistogram(c)
    && ch.Figures() == ChoiceFigures(p, c)
    && ch.capacity == HistogramCapacity(ch.histogram)
  }

  /** Channels and choices correspond one to one. */
  ghost predicate AllRealise(p: Parameters, chs: seq<ChannelConf>, cs: seq<Choice>)
    requires Usable(p)
  {
    |chs| == |cs| && forall i {:trigger Realises(p, chs[i], cs[i])} | 0 <= i < |chs| :: Realises(p, chs[i], cs[i])
  }

  /** c comes before the triple (d1, d2, d3) in the enumeration. */
  predicate Before(c: Choice, d1: nat, d2: nat, d3: nat) {
    c.d1 < d1 || (c.d1 == d1 && (c.d2 < d2 || (c.d2 == d2 && c.d3 < d3)))
  }

  ghost predicate ExactlyBefore(p: Parameters, cs: seq<Choice>, d1: nat, d2: nat, d3: nat)
    requires Usable(p)
  {
    forall c :: c in cs <==> OnOffer(p, c) && Before(c, d1, d2, d3)
  }

  /** The list of indices chosen so far, shared by all levels of a recursion. */
  class IndexList {
    var items: seq<nat>

    constructor ()
      ensures items == []
    {
      items := [];
    }
  }

  /** Look up the chosen items. */
  method Gather<T>(xs: seq<T>, index: seq<nat>) returns (temp: seq<T>)
    requires Within(index, 0, |xs|)
    ensures temp == Pick(xs, index)
  {
    temp := [];
    for j := 0 to |index|
      invariant temp == Pick(xs, index[..j])
    {
      temp := temp + [xs[index[j]]];
    }
    assert index[..|index|] == index;
  }

  /** b is the BoB of the selected channels. */
  ghost predicate BobOf(b: BobConf, chs: seq<ChannelConf>, s: seq<nat>) {
    b.Valid() && Within(s, 0, |chs|) && b.channels == Pick(chs, s)
  }

  /** The BoBs are those of the selections in picks, one for one. */
  ghost predicate BobsOf(bs: seq<BobConf>, chs: seq<ChannelConf>, picks: seq<seq<nat>>) {
    |bs| == |picks| && forall k {:trigger BobOf(bs[k], chs, picks[k])} | 0 <= k < |bs| :: BobOf(bs[k], chs, picks[k])
  }

  class Search {
    const params: Parameters
    var channels: seq<ChannelConf>
    var bobs: seq<BobConf>
    var memories: seq<MemoryConf>
    /** The selection of channels behind each BoB. */
    ghost var picks: seq<seq<nat>>
    /** The selection of BoBs behind each memory. */
    ghost var mixes: seq<seq<nat>>

    constructor (p: Parameters)
      ensures params == p
    {
      params := p;
      channels, bobs, memories, picks, mixes := [], [], [], [], [];
    }

    /** One block of the innermost loop: all bandwidth steps of one kind of DIMM in one arrangement. */
    method OfferKind(c0: Choice, ghost cs: seq<Choice>) returns (ghost cs': seq<Choice>)
      requires Usable(params) && InTable(c0) && SizeOf(c0) <= params.capacity && Admitted(params, c0)
      requires SizeOf(c0) == 0 ==> c0.kind == LRDIMM
      requires AllRealise(params, channels, cs)
      modifies this`channels
      ensures AllRealise(params, channels, cs')
      ensures forall c :: c in cs' <==> c in cs || (OnOffer(params, c) && SameSlot(c, c0))
    {
      cs' := cs;
      var maxIndex := LastBandwidth(params, c0);
      for bwId := 0 to maxIndex + 1
        invariant AllRealise(params, channels, cs')
        invariant Offered(params, c0, bwId, cs, cs')
      {
        ghost var middle := cs';
        cs' := OfferBandwidth(c0.(bwId := bwId), cs');
        NextBandwidth(params, c0, bwId, cs, middle, cs');
      }
      LastStep(params, c0);
    }

    /** One bandwidth step: the channel at full voltage and, if permitted and not empty, at low power. */
    method OfferBandwidth(c0: Choice, ghost cs: seq<Choice>) returns (ghost cs': seq<Choice>)
      requires Usable(params) && InTable(c0) && SizeOf(c0) <= params.capacity && Admitted(params, c0)
      requires c0.bwId <= LastBandwidth(params, c0)
      requires SizeOf(c0) == 0 ==> c0.kind == LRDIMM
      requires AllRealise(params, channels, cs)
      modifies this`channels
      ensures AllRealise(params, channels, cs')
      ensures forall c :: c in cs' <==> c in cs || (OnOffer(params, c) && SameSlot(c, c0) && c.bwId == c0.bwId)
    {
      var full, low := c0.(lowPower := false), c0.(lowPower := true);
      SlotOfVariant(params, c0);
      cs' := Offer(full, cs);
      if SizeOf(c0) != 0 && params.lowPowerPermitted {
        cs' := Offer(low, cs');
      }
      BandwidthStep(params, c0, cs, cs');
    }

    /** Construct one channel and keep it if it can be bought. */
    method Offer(c: Choice, ghost cs: seq<Choice>) returns (ghost cs': seq<Choice>)
      requires Usable(params) && InTable(c) && c.bwId <= LastBandwidth(params, c)
      requires SizeOf(c) <= params.capacity && Admitted(params, c)
      requires c.lowPower ==> params.lowPowerPermitted
      requires SizeOf(c) == 0 ==> c.kind == LRDIMM && !c.lowPower
      requires AllRealise(params, channels, cs)
      modifies this`channels
      ensures AllRealise(params, channels, cs')
      ensures cs' == if OnOffer(params, c) then cs + [c] else cs
    {
      DimmsFacts(c);
      var bandwidth := params.tables.bandwidthLoad(c.bwId);
      var ch := new ChannelConf(params, DimmsOf(c), bandwidth, c.kind, c.lowPower);
      assert Realises(params, ch, c);
      cs' := cs;
      if ch.cost < INF {
        channels := channels + [ch];
        cs' := cs + [c];
      }
    }

    /** The three loops over DIMM sizes: exactly the channels on offer are constructed. */
    method EnumerateChannels() returns (ghost cs: seq<Choice>)
      requires Usable(params)
      modifies this`channels
      ensures AllRealise(params, channels, cs)
      ensures forall c :: c in cs <==> OnOffer(params, c)
    {
      channels, cs := [], [];
      for d1 := 0 to 6
        invariant AllRealise(params, channels, cs) && ExactlyBefore(params, cs, d1, d1, d1)
      {
        for d2 := d1 to 6
          invariant AllRealise(params, channels, cs) && ExactlyBefore(params, cs, d1, d2, d2)
        {
          for d3 := d2 to 6
            invariant AllRealise(params, channels, cs) && ExactlyBefore(params, cs, d1, d2, d3)
          {
            cs := OfferDimms(d1, d2, d3, cs);
          }
        }
      }
    }

    /** The body of the three loops. */
    method OfferDimms(d1: nat, d2: nat, d3: nat, ghost cs: seq<Choice>) returns (ghost cs': seq<Choice>)
      requires Usable(params) && d1 <= d2 <= d3 < 6
      requires AllRealise(params, channels, cs)
      modifies this`channels
      ensures AllRealise(params, channels, cs')
      ensures forall c :: c in cs' <==> c in cs || (OnOffer(params, c) && c.d1 == d1 && c.d2 == d2 && c.d3 == d3)
    {
      cs' := cs;
      var l := Choice(d1, d2, d3, LRDIMM, 0, false);
      var r, u := l.(kind := RDIMM), l.(kind := UDIMM);
      KindStep(params, l);
      if SizeOf(l) > params.capacity {
        return;
      }
      var model := params.dimmModel;
      if (model == JUST_LRDIMM || model == ALL) && Priced(params, l) {
        cs' := OfferKind(l, cs');
      }
      if model == JUST_RDIMM || (model == ALL && Priced(params, r)) {
        if SizeOf(l) == 0 {
          return;
        }
        cs' := OfferKind(r, cs');
      }
      if model == JUST_UDIMM || (model == ALL && Priced(params, u)) {
        if SizeOf(l) == 0 {
          return;
        }
        cs' := OfferKind(u, cs');
      }
    }

    // -------------------------------------------------------------- channels

    method PruneChannels()
      requires forall ch | ch in channels :: BuiltChannel(params, ch)
      modifies this`channels
      ensures forall ch | ch in channels :: BuiltChannel(params, ch)
      ensures var ts := ChannelFigures(old(channels));
              var kept := Kept(Capacities(ts), |ts|);
              && Within(kept, 0, |ts|) && Clones(channels, Pick(old(channels), kept))
              && ChannelFigures(channels) == Pick(ts, kept)
    {
      hide Pick, Kept, Clones, BuiltChannel, ChannelConf.Valid, HistogramCapacity;
      ghost var ts := ChannelFigures(channels);
      ghost var caps := Capacities(ts);
      var temp: seq<ChannelConf>, lastAdded := [], -1;
      KeptNone(caps);
      NoClones(channels);
      for i := 0 to |channels|
        invariant channels == old(channels)
        invariant forall ch | ch in temp :: BuiltChannel(params, ch)
        invariant Within(Kept(caps, i), 0, i) && Clones(temp, Pick(channels, Kept(caps, i)))
        invariant lastAdded == if i == 0 then -1 else caps[i - 1]
      {
        assert channels[i] in channels;
        PickSnoc(channels, Kept(caps, i), i);
        KeptStep(caps, i, lastAdded);
        if lastAdded != channels[i].capacity {
          BuiltIsValid(params, channels[i]);
          var c := CloneChannel(channels[i]);
          CloneIsSame(params, temp, Pick(channels, Kept(caps, i)), c, channels[i]);
          temp := temp + [c];
          lastAdded := channels[i].capacity;
        }
      }
      CloneFigures(channels, Kept(caps, |channels|), temp);
      channels := temp;
    }

    /** The channels kept: of those on offer, one best for each capacity. */
    method FindAllChannels() returns (ghost all: seq<Totals>)
      requires Usable(params) && forall ts | AllFigures(params, ts) :: Ordered(params.ranking, ts)
      modifies this`channels
      ensures AllFigures(params, all)
      ensures BestPerCapacity(params.ranking, all, ChannelFigures(channels))
      ensures forall ch | ch in channels :: BuiltChannel(params, ch) && ChannelOnOffer(params, ch)
    {
      hide Ordered, AllFigures, BuiltChannel, ChannelOnOffer;
      var cs := EnumerateChannels();
      all := ChannelFigures(channels);
      OfferedFigures(params, channels, cs);
      ComparePreorder(params.ranking, channels, ChannelFigure, all);
      var found := channels;
      channels := Sort(channels, CompareBy(params.ranking, ChannelFigure));
      RearrangedMembers(channels, found);
      ghost var sorted := ChannelFigures(channels);
      SortedFigures(params.ranking, ChannelFigure, channels, sorted, found, all);
      ghost var before := channels;
      PruneChannels();
      ClonesOnOffer(params, before, Kept(Capacities(sorted), |sorted|), channels);
      PrunedList(params.ranking, all, sorted, ChannelFigures(channels));
    }

    // -------------------------------------------------------------- BoBs

    /** Appends one BoB for each selection of nb more channels from start..end, in lexicographic
        order, and leaves the index list as it found it. */
    method FindBobsRecursive(start: nat, end: int, nb: nat, index: IndexList)
      requires nb >= 1 && end < |channels| && |index.items| + nb <= MAX_NUM_CHANNELS_PER_BOB
      requires Within(index.items, 0, |channels|) && BobsOf(bobs, channels, picks)
      modifies this`bobs, this`picks, index
      ensures index.items == old(index.items) && BobsOf(bobs, channels, picks)
      ensures picks == Then(old(picks), Prefixed(index.items, Combos(start, end + 1, nb)))
      decreases nb, 2
    {
      hide Combos, Prefixed, Then, BobsOf;
      if nb == 1 {
        LastChannel(start, end, index);
      } else {
        EachChannel(start, end, nb, index);
      }
    }

    /** The outer levels of the recursion: every first channel with everything that can follow it. */
    method EachChannel(start: nat, end: int, nb: nat, index: IndexList)
      requires nb >= 2 && end < |channels| && |index.items| + nb <= MAX_NUM_CHANNELS_PER_BOB
      requires Within(index.items, 0, |channels|) && BobsOf(bobs, channels, picks)
      modifies this`bobs, this`picks, index
      ensures index.items == old(index.items) && BobsOf(bobs, channels, picks)
      ensures picks == Then(old(picks), Prefixed(index.items, Combos(start, end + 1, nb)))
      decreases nb, 1
    {
      hide Combos, Prefixed, Then, BobsOf;
      ghost var prefix, goal := index.items, Then(picks, Prefixed(index.items, Combos(start, end + 1, nb)));
      var i := start;
      while i <= end
        invariant start <= i && index.items == prefix && BobsOf(bobs, channels, picks)
        invariant Then(picks, Prefixed(prefix, Combos(i, end + 1, nb))) == goal
      {
        ghost var before := picks;
        WithChannel(i, end, nb, index);
        CombosBranch(before, picks, prefix, i, end + 1, nb, goal);
        i := i + 1;
      }
      CombosDone(picks, prefix, i, end + 1, nb, goal);
    }

    /** The body of the outer loop: choose channel i, recurse, take the choice back. */
    method WithChannel(i: nat, end: int, nb: nat, index: IndexList)
      requires nb >= 2 && i <= end < |channels| && |index.items| + nb <= MAX_NUM_CHANNELS_PER_BOB
      requires Within(index.items, 0, |channels|) && BobsOf(bobs, channels, picks)
      modifies this`bobs, this`picks, index
      ensures index.items == old(index.items) && BobsOf(bobs, channels, picks)
      ensures picks == Then(old(picks), Prefixed(index.items, Prepend(i, Combos(i, end + 1, nb - 1))))
      decreases nb, 0
    {
      hide Combos, Prefixed, Then, BobsOf;
      WithinSnoc(index.items, i, |channels|);
      PrefixedTwice(index.items, i, Combos(i, end + 1, nb - 1));
      index.items := index.items + [i];
      FindBobsRecursive(i, end, nb - 1, index);
      index.items := index.items[..|index.items| - 1];
    }

    /** The innermost level of the recursion: one BoB for each choice of the last channel. */
    method LastChannel(start: nat, end: int, index: IndexList)
      requires end < |channels| && |index.items| + 1 <= MAX_NUM_CHANNELS_PER_BOB
      requires Within(index.items, 0, |channels|) && BobsOf(bobs, channels, picks)
      modifies this`bobs, this`picks, index
      ensures index.items == old(index.items) && BobsOf(bobs, channels, picks)
      ensures picks == Then(old(picks), Prefixed(index.items, Combos(start, end + 1, 1)))
    {
      hide Combos, Prefixed, Then, BobsOf;
      ghost var prefix, goal := index.items, Then(picks, Prefixed(index.items, Combos(start, end + 1, 1)));
      var i := start;
      while i <= end
        invariant start <= i && index.items == prefix && BobsOf(bobs, channels, picks)
        invariant Then(picks, Prefixed(prefix, Combos(i, end + 1, 1))) == goal
      {
        ghost var before := picks;
        AddBob(i, index);
        NothingChosen(i, end + 1);
        CombosBranch(before, picks, prefix, i, end + 1, 1, goal);
        i := i + 1;
      }
      CombosDone(picks, prefix, i, end + 1, 1, goal);
    }

    /** The body of the innermost loop: the BoB of the channels chosen so far and channel i. */
    method AddBob(i: nat, index: IndexList)
      requires i < |channels| && |index.items| + 1 <= MAX_NUM_CHANNELS_PER_BOB
      requires Within(index.items, 0, |channels|) && BobsOf(bobs, channels, picks)
      modifies this`bobs, this`picks, index
      ensures index.items == old(index.items) && BobsOf(bobs, channels, picks)
      ensures picks == Then(old(picks), Prefixed(index.items, Prepend(i, [[]])))
    {
      WithinSnoc(index.items, i, |channels|);
      PrefixedOne(picks, index.items, i);
      index.items := index.items + [i];
      var temp := Gather(channels, index.items);
      var b := new BobConf(temp);
      bobs, picks := bobs + [b], picks + [index.items];
      index.items := index.items[..|index.items| - 1];
    }

    /** The boundaries of the runs of equal bandwidth. */
    method FindRuns() returns (starts: seq<nat>, ends: seq<int>)
      requires channels != []
      ensures Runs(BandwidthsOf(channels), starts, ends)
    {
      ghost var bws := BandwidthsOf(channels);
      starts, ends := [0], [];
      var lastBw := channels[0].bandwidth;
      for i := 0 to |channels|
        invariant RunsSoFar(bws, starts, ends, i) && lastBw == bws[starts[|ends|]]
      {
        if lastBw != channels[i].bandwidth {
          RunOpened(bws, starts, ends, i, starts + [i], ends + [i - 1]);
          ends := ends + [i - 1];
          starts := starts + [i];
          lastBw := channels[i].bandwidth;
        }
      }
      RunClosed(bws, starts, ends, |channels|, ends + [|channels| - 1]);
      ends := ends + [|channels| - 1];
    }

    method SortByBandwidth()
      modifies this`channels
      ensures Rearranged(channels, old(channels)) && Bandwidths.Sorted(BandwidthsOf(channels))
    {
      channels := Sort(channels, BandwidthAtMost());
      assert forall i, j | 0 <= i < j < |channels| :: BandwidthAtMost()(channels[i], channels[j]);
    }

    /** The BoBs of all runs, run by run. */
    method BuildRuns(starts: seq<nat>, ends: seq<int>)
      requires 1 <= params.numChannelsPerBob <= MAX_NUM_CHANNELS_PER_BOB
      requires |starts| == |ends| && EndToEnd(BandwidthsOf(channels), starts, ends)
      modifies this`bobs, this`picks
      ensures BobsOf(bobs, channels, picks)
      ensures picks == RunCombos(starts, ends, params.numChannelsPerBob, |starts|)
    {
      hide Combos, Prefixed, Then, EndToEnd;
      var index := new IndexList();
      bobs, picks := [], [];
      for i := 0 to |starts|
        invariant index.items == [] && BobsOf(bobs, channels, picks)
        invariant picks == RunCombos(starts, ends, params.numChannelsPerBob, i)
      {
        ghost var run := BuildRun(starts, ends, i, index);
        RunCombosStep(starts, ends, params.numChannelsPerBob, i, run);
      }
    }

    /** The BoBs of one run. */
    method BuildRun(starts: seq<nat>, ends: seq<int>, i: nat, index: IndexList) returns (ghost run: seq<seq<nat>>)
      requires 1 <= params.numChannelsPerBob <= MAX_NUM_CHANNELS_PER_BOB && i < |starts|
      requires EndToEnd(BandwidthsOf(channels), starts, ends)
      requires index.items == [] && BobsOf(bobs, channels, picks)
      modifies this`bobs, this`picks, index
      ensures index.items == [] && BobsOf(bobs, channels, picks)
      ensures run == Combos(starts[i], ends[i] + 1, params.numChannelsPerBob) && picks == Then(old(picks), run)
    {
      hide Combos, Prefixed, Then, BobsOf;
      RunBounds(BandwidthsOf(channels), starts, ends, i);
      run := Combos(starts[i], ends[i] + 1, params.numChannelsPerBob);
      FindBobsRecursive(starts[i], ends[i], params.numChannelsPerBob, index);
      PrefixedEmpty(index.items, run);
    }

    /** All BoBs of equal-bandwidth channels: each multiset of channels of one bandwidth exactly once. */
    method FindSameBandwidthBobs()
      requires channels != [] && 1 <= params.numChannelsPerBob <= MAX_NUM_CHANNELS_PER_BOB
      modifies this`channels, this`bobs, this`picks
      ensures Rearranged(channels, old(channels)) && BobsOf(bobs, channels, picks) && Ascending(picks)
      ensures forall s :: s in picks <==>
                |s| == params.numChannelsPerBob && Selection(s, 0, |channels|) && Uniform(BandwidthsOf(channels), s)
    {
      SortByBandwidth();
      RearrangedMembers(channels, old(channels));
      var starts, ends := FindRuns();
      BuildRuns(starts, ends);
      AllRunCombos(BandwidthsOf(channels), starts, ends, params.numChannelsPerBob);
    }

    /** One BoB for each channel, made of copies of it. */
    method FindMirroredBobs()
      requires 0 <= params.numChannelsPerBob <= MAX_NUM_CHANNELS_PER_BOB
      requires forall ch | ch in channels :: BuiltChannel(params, ch)
      modifies this`bobs
      ensures |bobs| == |channels| && forall b | b in bobs :: BuiltBob(params, b) && PartsFrom(b, channels)
      ensures forall i | 0 <= i < |bobs| :: CopiesOf(bobs[i].channels, channels[i])
      ensures forall i | 0 <= i < |bobs| :: bobs[i].Figures() == Copies(params.numChannelsPerBob, channels[i].Figures())
    {
      bobs := [];
      for i := 0 to |channels|
        invariant |bobs| == i && forall b | b in bobs :: BuiltBob(params, b) && PartsFrom(b, channels)
        invariant forall k | 0 <= k < i :: CopiesOf(bobs[k].channels, channels[k])
        invariant forall k | 0 <= k < i :: bobs[k].Figures() == Copies(params.numChannelsPerBob, channels[k].Figures())
      {
        var copies: seq<ChannelConf> := [];
        for j := 0 to params.numChannelsPerBob
          invariant |copies| == j && CopiesOf(copies, channels[i])
        {
          copies := copies + [channels[i]];
        }
        var b := new BobConf(copies);
        SumOfCopies(copies, channels[i]);
        CopiesMatch(params, b, channels[i]);
        bobs := bobs + [b];
      }
    }

    method PruneBobs()
      requires forall b | b in bobs :: BuiltBob(params, b)
      modifies this`bobs
      ensures forall b | b in bobs :: BuiltBob(params, b)
      ensures var ts := BobFigures(old(bobs));
              var kept := Kept(Capacities(ts), |ts|);
              && Within(kept, 0, |ts|) && BobClones(bobs, Pick(old(bobs), kept))
              && BobFigures(bobs) == Pick(ts, kept)
    {
      hide BobConf.Valid, Pick, Kept, BobClones, BuiltBob;
      ghost var ts := BobFigures(bobs);
      ghost var caps := Capacities(ts);
      var temp: seq<BobConf>, lastAdded := [], -1;
      KeptNone(caps);
      NoBobClones(bobs);
      for i := 0 to |bobs|
        invariant bobs == old(bobs)
        invariant forall b | b in temp :: BuiltBob(params, b)
        invariant Within(Kept(caps, i), 0, i) && BobClones(temp, Pick(bobs, Kept(caps, i)))
        invariant lastAdded == if i == 0 then -1 else caps[i - 1]
      {
        assert bobs[i] in bobs;
        PickSnoc(bobs, Kept(caps, i), i);
        KeptStep(caps, i, lastAdded);
        if lastAdded != bobs[i].capacity {
          BuiltBobIsValid(params, bobs[i]);
          var b := CloneBob(bobs[i]);
          BobCloneIsSame(params, temp, Pick(bobs, Kept(caps, i)), b, bobs[i]);
          temp := temp + [b];
          lastAdded := bobs[i].capacity;
        }
      }
      BobCloneFigures(bobs, Kept(caps, |bobs|), temp);
      bobs := temp;
    }

    // -------------------------------------------------------------- memories

    /** Appends one memory for each selection of nb more BoBs from start on whose capacities add up to
        exactly what remains, and leaves the index list as it found it. */
    method FindMemsRecursive(remaining: int, start: nat, nb: nat, index: IndexList)
      requires nb >= 1 && |index.items| + nb <= MAX_NUM_BOBS
      requires Within(index.items, 0, |bobs|) && MemoriesOf(memories, bobs, mixes)
      modifies this`memories, this`mixes, index
      ensures index.items == old(index.items) && MemoriesOf(memories, bobs, mixes)
      ensures mixes == Then(old(mixes), Prefixed(index.items, Fillings(CapacitiesOf(bobs), start, remaining, nb)))
      decreases nb, 2
    {
      hide Fillings, Prefixed, Then, MemoriesOf;
      if nb == 1 {
        LastBob(remaining, start, index);
      } else {
        EachBob(remaining, start, nb, index);
      }
    }

    /** The outer levels of the recursion: every first BoB that fits, with everything that can follow it. */
    method EachBob(remaining: int, start: nat, nb: nat, index: IndexList)
      requires nb >= 2 && |index.items| + nb <= MAX_NUM_BOBS
      requires Within(index.items, 0, |bobs|) && MemoriesOf(memories, bobs, mixes)
      modifies this`memories, this`mixes, index
      ensures index.items == old(index.items) && MemoriesOf(memories, bobs, mixes)
      ensures mixes == Then(old(mixes), Prefixed(index.items, Fillings(CapacitiesOf(bobs), start, remaining, nb)))
      decreases nb, 1
    {
      hide Fillings, Prefixed, Then, MemoriesOf;
      ghost var prefix, caps := index.items, CapacitiesOf(bobs);
      ghost var goal := Then(mixes, Prefixed(prefix, Fillings(caps, start, remaining, nb)));
      var i := start;
      while i < |bobs|
        invariant start <= i && index.items == prefix && MemoriesOf(memories, bobs, mixes)
        invariant Then(mixes, Prefixed(prefix, Fillings(caps, i, remaining, nb))) == goal
      {
        ghost var before := mixes;
        if bobs[i].capacity <= remaining {
          WithBob(remaining - bobs[i].capacity, i, nb, index);
        }
        FillingsBranch(before, mixes, prefix, caps, i, remaining, nb, goal);
        i := i + 1;
      }
      FillingsDone(mixes, prefix, caps, i, remaining, nb, goal);
    }

    /** The body of the outer loop: choose BoB i, recurse, take the choice back. */
    method WithBob(remaining: int, i: nat, nb: nat, index: IndexList)
      requires nb >= 2 && i < |bobs| && |index.items| + nb <= MAX_NUM_BOBS
      requires Within(index.items, 0, |bobs|) && MemoriesOf(memories, bobs, mixes)
      modifies this`memories, this`mixes, index
      ensures index.items == old(index.items) && MemoriesOf(memories, bobs, mixes)
      ensures var rest := Fillings(CapacitiesOf(bobs), i, remaining, nb - 1);
              mixes == Then(old(mixes), Prefixed(index.items, Prepend(i, rest)))
      decreases nb, 0
    {
      hide Fillings, Prefixed, Then, MemoriesOf;
      WithinSnoc(index.items, i, |bobs|);
      PrefixedTwice(index.items, i, Fillings(CapacitiesOf(bobs), i, remaining, nb - 1));
      index.items := index.items + [i];
      FindMemsRecursive(remaining, i, nb - 1, index);
      index.items := index.items[..|index.items| - 1];
    }

    /** The innermost level of the recursion: one memory for each last BoB that fits exactly. */
    method LastBob(remaining: int, start: nat, index: IndexList)
      requires |index.items| + 1 <= MAX_NUM_BOBS
      requires Within(index.items, 0, |bobs|) && MemoriesOf(memories, bobs, mixes)
      modifies this`memories, this`mixes, index
      ensures index.items == old(index.items) && MemoriesOf(memories, bobs, mixes)
      ensures mixes == Then(old(mixes), Prefixed(index.items, Fillings(CapacitiesOf(bobs), start, remaining, 1)))
    {
      hide Fillings, Prefixed, Then, MemoriesOf;
      ghost var prefix, caps := index.items, CapacitiesOf(bobs);
      ghost var goal := Then(mixes, Prefixed(prefix, Fillings(caps, start, remaining, 1)));
      var i := start;
      while i < |bobs|
        invariant start <= i && index.items == prefix && MemoriesOf(memories, bobs, mixes)
        invariant Then(mixes, Prefixed(prefix, Fillings(caps, i, remaining, 1))) == goal
      {
        ghost var before := mixes;
        NothingLeft(before, prefix, caps, i, remaining - caps[i]);
        if bobs[i].capacity == remaining {
          AddMemory(i, index);
        }
        FillingsBranch(before, mixes, prefix, caps, i, remaining, 1, goal);
        i := i + 1;
      }
      FillingsDone(mixes, prefix, caps, i, remaining, 1, goal);
    }

    /** The body of the innermost loop: the memory of the BoBs chosen so far and BoB i. */
    method AddMemory(i: nat, index: IndexList)
      requires i < |bobs| && |index.items| + 1 <= MAX_NUM_BOBS
      requires Within(index.items, 0, |bobs|) && MemoriesOf(memories, bobs, mixes)
      modifies this`memories, this`mixes, index
      ensures index.items == old(index.items) && MemoriesOf(memories, bobs, mixes)
      ensures mixes == Then(old(mixes), Prefixed(index.items, Prepend(i, [[]])))
    {
      WithinSnoc(index.items, i, |bobs|);
      PrefixedOne(mixes, index.items, i);
      index.items := index.items + [i];
      var temp := Gather(bobs, index.items);
      var m := new MemoryConf(temp);
      memories, mixes := memories + [m], mixes + [index.items];
      index.items := index.items[..|index.items| - 1];
    }

    // -------------------------------------------------------------- the three stages

    /** All BoBs the mode allows are built, sorted and pruned. */
    method FindAllBobs() returns (ghost built: seq<Totals>)
      requires 0 <= params.numChannelsPerBob <= MAX_NUM_CHANNELS_PER_BOB
      requires params.mirrorInBob || (params.sameBwInBob && channels != [] && params.numChannelsPerBob >= 1)
      requires NonNegative(ChannelFigures(channels))
      requires forall ts | AllBobs(params, ChannelFigures(channels), ts) :: Ordered(params.ranking, ts)
      requires forall ch | ch in channels :: BuiltChannel(params, ch)
      modifies this`channels, this`bobs, this`picks
      ensures AllBobs(params, ChannelFigures(old(channels)), built) && NonNegative(built)
      ensures BestPerCapacity(params.ranking, built, BobFigures(bobs))
      ensures forall b | b in bobs :: BuiltBob(params, b) && PartsFrom(b, old(channels))
    {
      hide AllBobs, NonNegative, Ordered, BuiltBob, PartsFrom;
      ghost var figs := ChannelFigures(channels);
      if params.mirrorInBob {
        FindMirroredBobs();
        MirroredAreAllBobs(params, figs, BobFigures(bobs));
      } else {
        FindSameBandwidthBobs();
        UniformAreAllBobs(params, old(channels), channels, bobs, picks);
      }
      built := BobFigures(bobs);
      BobsNonNegative(params, figs, built);
      SortBobs();
      ghost var sorted, before := BobFigures(bobs), bobs;
      PruneBobs();
      KeptBobs(old(channels), before, Kept(Capacities(sorted), |sorted|), bobs);
      PrunedList(params.ranking, built, sorted, BobFigures(bobs));
    }

    method SortBobs()
      requires forall b | b in bobs :: BuiltBob(params, b)
      requires Ordered(params.ranking, BobFigures(bobs))
      modifies this`bobs
      ensures Rearranged(bobs, old(bobs)) && forall b :: b in bobs <==> b in old(bobs)
      ensures Ranked(params.ranking, BobFigures(bobs))
      ensures forall t :: t in BobFigures(bobs) <==> t in BobFigures(old(bobs))
    {
      var found := bobs;
      ComparePreorder(params.ranking, bobs, BobFigure, BobFigures(bobs));
      bobs := Sort(bobs, CompareBy(params.ranking, BobFigure));
      RearrangedMembers(bobs, found);
      SortedFigures(params.ranking, BobFigure, bobs, BobFigures(bobs), found, BobFigures(found));
    }

    /** All memories of the exact capacity are built and ranked. The answer says whether there is one; each is
        made of the BoBs in the list, and the comparator ranks the first no worse than any of them. */
    method FindAllMemories() returns (found: bool)
      requires 1 <= params.numBobs <= MAX_NUM_BOBS && NonNegative(BobFigures(bobs))
      requires MemoriesOrdered(params, BobFigures(bobs))
      requires forall b | b in bobs :: BuiltBob(params, b)
      modifies this`memories, this`mixes
      ensures forall m | m in memories :: BuiltMemory(params, m) && DesignOf(params, BobFigures(bobs), m.Figures())
      ensures forall m | m in memories :: forall b | b in m.bobs :: b in bobs
      ensures Ranked(params.ranking, MemoryFigures(memories))
      ensures found <==> memories != []
      ensures forall design | Design(params.numBobs, params.capacity, BobFigures(bobs), design) ::
                Sum(design) in MemoryFigures(memories)
    {
      var index := new IndexList();
      memories, mixes := [], [];
      FindMemsRecursive(params.capacity, 0, params.numBobs, index);
      SortMemories();
      found := memories != [];
    }

    /** The final sort; mixes still describes the list as it was built. */
    method SortMemories()
      requires 1 <= params.numBobs && NonNegative(BobFigures(bobs))
      requires MemoriesOrdered(params, BobFigures(bobs))
      requires forall b | b in bobs :: BuiltBob(params, b)
      requires MemoriesOf(memories, bobs, mixes)
      requires mixes == Then([], Prefixed([], Fillings(CapacitiesOf(bobs), 0, params.capacity, params.numBobs)))
      modifies this`memories
      ensures forall m | m in memories :: BuiltMemory(params, m) && DesignOf(params, BobFigures(bobs), m.Figures())
      ensures forall m | m in memories :: forall b | b in m.bobs :: b in bobs
      ensures Ranked(params.ranking, MemoryFigures(memories))
      ensures forall design | Design(params.numBobs, params.capacity, BobFigures(bobs), design) ::
                Sum(design) in MemoryFigures(memories)
    {
      hide Then, Prefixed, Fillings, MemoriesOf, Design, Ranked, NotWorse, DesignOf, BuiltMemory;
      ghost var unsorted := memories;
      StartingEmpty(Fillings(CapacitiesOf(bobs), 0, params.capacity, params.numBobs));
      BuiltMemories(params, bobs, memories, mixes);
      ComparePreorder(params.ranking, memories, MemoryFigure, MemoryFigures(memories));
      memories := Sort(memories, CompareBy(params.ranking, MemoryFigure));
      RearrangedMembers(memories, unsorted);
      SortedFigures(params.ranking, MemoryFigure, memories, MemoryFigures(memories), unsorted, MemoryFigures(unsorted));
      AllDesignsBuilt(params, bobs, unsorted, mixes);
    }
  }

  /** Any list of designs over these BoBs can be sorted. */
  ghost predicate MemoriesOrdered(p: Parameters, bobs: seq<Totals>) {
    forall ts | (forall t | t in ts :: DesignOf(p, bobs, t)) :: Ordered(p.ranking, ts)
  }

  /** Sorting and pruning a list leaves one best entry for each capacity. */
  lemma PrunedList(r: Ranking, all: seq<Totals>, sorted: seq<Totals>, kept: seq<Totals>)
    requires NonNegative(all) && Ranked(r, sorted) && forall t :: t in sorted <==> t in all
    requires var places := Kept(Capacities(sorted), |sorted|);
             Within(places, 0, |sorted|) && kept == Pick(sorted, places)
    ensures BestPerCapacity(r, all, kept)
  {
    hide Kept, Ranked, NotWorse, RankedBySome;
    assert NonNegative(sorted);
    PruneIsCovering(r, sorted, Kept(Capacities(sorted), |sorted|));
  }

  /** m is the memory of the selected BoBs. */
  ghost predicate MemoryOf(m: MemoryConf, bs: seq<BobConf>, s: seq<nat>) {
    m.Valid() && Within(s, 0, |bs|) && m.bobs == Pick(bs, s)
  }

  /** The memories are those of the selections in mixes, one for one. */
  ghost predicate MemoriesOf(ms: seq<MemoryConf>, bs: seq<BobConf>, mixes: seq<seq<nat>>) {
    && |ms| == |mixes|
    && forall k {:trigger MemoryOf(ms[k], bs, mixes[k])} | 0 <= k < |ms| :: MemoryOf(ms[k], bs, mixes[k])
  }

  function CapacitiesOf(bs: seq<BobConf>): (caps: seq<int>)
    ensures |caps| == |bs| && forall i | 0 <= i < |bs| :: caps[i] == bs[i].capacity
  {
    Capacities(BobFigures(bs))
  }

  function BandwidthsOf(chs: seq<ChannelConf>): (bws: seq<int>)
    ensures |bws| == |chs| && forall i | 0 <= i < |chs| :: bws[i] == chs[i].bandwidth
  {
    seq(|chs|, i requires 0 <= i < |chs| => chs[i].bandwidth)
  }

  /** The order by bandwidth alone, of which the source passes the strict part to the sort. */
  function BandwidthAtMost(): (ChannelConf, ChannelConf) -> bool {
    (a: ChannelConf, b: ChannelConf) => !(b.bandwidth < a.bandwidth)
  }

  /** The channel realises some choice on offer. */
  ghost predicate ChannelOnOffer(p: Parameters, ch: ChannelConf)
    requires Usable(p)
  {
    exists c :: OnOffer(p, c) && Realises(p, ch, c)
  }

  /** A clone: everything but the identity of the object. */
  ghost predicate SameChannel(c: ChannelConf, d: ChannelConf) {
    && c.Valid() == d.Valid() && c.params == d.params && c.kind == d.kind && c.lowPower == d.lowPower
    && c.histogram == d.histogram && c.Figures() == d.Figures()
  }

  lemma BuiltIsValid(p: Parameters, c: ChannelConf)
    requires BuiltChannel(p, c)
    ensures c.Valid()
  {
  }

  lemma NoClones(cs: seq<ChannelConf>)
    ensures Clones([], Pick(cs, []))
  {
  }

  /** A channel cloned joins the clones. */
  lemma CloneIsSame(p: Parameters, cs: seq<ChannelConf>, ds: seq<ChannelConf>, c: ChannelConf, d: ChannelConf)
    requires BuiltChannel(p, d) && Clones(cs, ds)
    requires c.Valid() && c.params == d.params && c.kind == d.kind && c.lowPower == d.lowPower
    requires c.histogram == d.histogram
    requires d.capacity == HistogramCapacity(d.histogram) ==> c.Figures() == d.Figures()
    ensures BuiltChannel(p, c) && Clones(cs + [c], ds + [d])
  {
  }

  ghost predicate Clones(cs: seq<ChannelConf>, ds: seq<ChannelConf>) {
    |cs| == |ds| && forall i | 0 <= i < |cs| :: SameChannel(cs[i], ds[i])
  }

  lemma CloneFigures(chs: seq<ChannelConf>, kept: seq<nat>, cs: seq<ChannelConf>)
    requires Within(kept, 0, |chs|) && Clones(cs, Pick(chs, kept))
    ensures ChannelFigures(cs) == Pick(ChannelFigures(chs), kept)
  {
    forall i | 0 <= i < |cs|
      ensures ChannelFigures(cs)[i] == Pick(ChannelFigures(chs), kept)[i]
    {
      assert SameChannel(cs[i], Pick(chs, kept)[i]);
    }
  }

  lemma ClonesOnOffer(p: Parameters, chs: seq<ChannelConf>, kept: seq<nat>, cs: seq<ChannelConf>)
    requires Usable(p) && Within(kept, 0, |chs|) && Clones(cs, Pick(chs, kept))
    requires forall ch | ch in chs :: ChannelOnOffer(p, ch)
    ensures forall ch | ch in cs :: ChannelOnOffer(p, ch)
  {
    hide OnOffer, SameChannel;
    forall ch | ch in cs
      ensures ChannelOnOffer(p, ch)
    {
      var i :| 0 <= i < |cs| && cs[i] == ch;
      assert SameChannel(cs[i], Pick(chs, kept)[i]) && chs[kept[i]] in chs;
      CloneOnOffer(p, chs[kept[i]], ch);
    }
  }

  lemma CloneOnOffer(p: Parameters, ch: ChannelConf, c: ChannelConf)
    requires Usable(p) && ChannelOnOffer(p, ch) && SameChannel(c, ch)
    ensures ChannelOnOffer(p, c)
  {
    var choice :| OnOffer(p, choice) && Realises(p, ch, choice);
    assert Realises(p, c, choice);
  }

  /** The BoB is made of these channels. */
  ghost predicate PartsFrom(b: BobConf, chs: seq<ChannelConf>) {
    forall c | c in b.channels :: c in chs
  }

  /** Clones of BoBs: the same channels, the same figures. */
  ghost predicate BobClones(bs: seq<BobConf>, ds: seq<BobConf>) {
    |bs| == |ds| && forall i | 0 <= i < |bs| :: bs[i].channels == ds[i].channels && bs[i].Figures() == ds[i].Figures()
  }

  lemma NoBobClones(bs: seq<BobConf>)
    ensures BobClones([], Pick(bs, []))
  {
  }

  lemma BuiltBobIsValid(p: Parameters, b: BobConf)
    requires BuiltBob(p, b)
    ensures b.Valid()
  {
  }

  lemma BobCloneIsSame(p: Parameters, bs: seq<BobConf>, ds: seq<BobConf>, b: BobConf, d: BobConf)
    requires BuiltBob(p, d) && BobClones(bs, ds)
    requires b.Valid() && b.channels == d.channels && b.Figures() == d.Figures()
    ensures BuiltBob(p, b) && BobClones(bs + [b], ds + [d])
  {
  }

  lemma BobCloneFigures(bobs: seq<BobConf>, kept: seq<nat>, bs: seq<BobConf>)
    requires Within(kept, 0, |bobs|) && BobClones(bs, Pick(bobs, kept))
    ensures BobFigures(bs) == Pick(BobFigures(bobs), kept)
  {
    forall i | 0 <= i < |bs|
      ensures BobFigures(bs)[i] == Pick(BobFigures(bobs), kept)[i]
    {
      assert bs[i].Figures() == Pick(bobs, kept)[i].Figures();
    }
  }

  lemma KeptBobs(chs: seq<ChannelConf>, before: seq<BobConf>, kept: seq<nat>, bs: seq<BobConf>)
    requires Within(kept, 0, |before|) && BobClones(bs, Pick(before, kept))
    requires forall b | b in before :: PartsFrom(b, chs)
    ensures forall b | b in bs :: PartsFrom(b, chs)
  {
    forall b | b in bs
      ensures PartsFrom(b, chs)
    {
      var i :| 0 <= i < |bs| && bs[i] == b;
      assert Pick(before, kept)[i] == before[kept[i]] && before[kept[i]] in before;
    }
  }

  ghost predicate CopiesOf(cs: seq<ChannelConf>, ch: ChannelConf) {
    forall c | c in cs :: c == ch
  }

  lemma CopiesMatch(p: Parameters, b: BobConf, ch: ChannelConf)
    requires b.Valid() && |b.channels| == p.numChannelsPerBob && CopiesOf(b.channels, ch) && BuiltChannel(p, ch)
    ensures BuiltBob(p, b)
  {
    assert forall i | 0 <= i < |b.channels| :: b.channels[i] in b.channels;
  }

  lemma {:induction false} SumOfCopies(cs: seq<ChannelConf>, ch: ChannelConf)
    requires CopiesOf(cs, ch)
    ensures Sum(ChannelFigures(cs)) == Copies(|cs|, ch.Figures())
  {
    if cs != [] {
      assert cs[0] in cs && forall c | c in cs[1..] :: c in cs;
      SumOfCopies(cs[1..], ch);
      assert ChannelFigures(cs)[1..] == ChannelFigures(cs[1..]);
    }
  }

  lemma OfferedFigures(p: Parameters, chs: seq<ChannelConf>, cs: seq<Choice>)
    requires Usable(p) && AllRealise(p, chs, cs) && forall c :: c in cs <==> OnOffer(p, c)
    ensures AllFigures(p, ChannelFigures(chs)) && NonNegative(ChannelFigures(chs))
    ensures forall ch | ch in chs :: BuiltChannel(p, ch) && ChannelOnOffer(p, ch)
  {
    var ts := ChannelFigures(chs);
    forall c | OnOffer(p, c)
      ensures ChoiceFigures(p, c) in ts
    {
      var i :| 0 <= i < |cs| && cs[i] == c;
      assert Realises(p, chs[i], c) && ts[i] == chs[i].Figures();
    }
    forall t | t in ts
      ensures ChannelOffered(p, t)
    {
      var i :| 0 <= i < |ts| && ts[i] == t;
      assert Realises(p, chs[i], cs[i]) && cs[i] in cs;
      assert OnOffer(p, cs[i]) && ChoiceFigures(p, cs[i]) == t;
    }
    OfferNonNegative(p, ts);
    forall ch | ch in chs
      ensures BuiltChannel(p, ch) && ChannelOnOffer(p, ch)
    {
      var i :| 0 <= i < |chs| && chs[i] == ch;
      assert Realises(p, chs[i], cs[i]) && cs[i] in cs;
    }
  }

  /** Same DIMM sizes and kind. */
  predicate SameSlot(c: Choice, c0: Choice) {
    c.d1 == c0.d1 && c.d2 == c0.d2 && c.d3 == c0.d3 && c.kind == c0.kind
  }

  lemma SlotOfVariant(p: Parameters, c0: Choice)
    requires InTable(c0)
    ensures forall b :: Admitted(p, c0.(lowPower := b)) == Admitted(p, c0)
    ensures forall b :: LastBandwidth(p, c0.(lowPower := b)) == LastBandwidth(p, c0)
    ensures forall b :: InTable(c0.(lowPower := b)) && SizeOf(c0.(lowPower := b)) == SizeOf(c0)
  {
  }

  lemma BandwidthStep(p: Parameters, c0: Choice, cs: seq<Choice>, cs': seq<Choice>)
    requires Usable(p) && InTable(c0)
    requires var full, low := c0.(lowPower := false), c0.(lowPower := true);
             var cs1 := if OnOffer(p, full) then cs + [full] else cs;
             cs' == if SizeOf(c0) != 0 && p.lowPowerPermitted && OnOffer(p, low) then cs1 + [low] else cs1
    ensures forall c :: c in cs' <==> c in cs || (OnOffer(p, c) && SameSlot(c, c0) && c.bwId == c0.bwId)
  {
    var full, low := c0.(lowPower := false), c0.(lowPower := true);
    forall c | SameSlot(c, c0) && c.bwId == c0.bwId
      ensures c == full || c == low
    {
    }
    assert OnOffer(p, low) ==> SizeOf(c0) != 0 && p.lowPowerPermitted;
    assert forall c :: c in cs' <==> c in cs || (c == full && OnOffer(p, full)) || (c == low && OnOffer(p, low));
  }

  /** cs' adds to cs the channels on offer in slot c0 with a bandwidth step below bwId. */
  ghost predicate Offered(p: Parameters, c0: Choice, bwId: nat, cs: seq<Choice>, cs': seq<Choice>)
    requires Usable(p)
  {
    forall c :: c in cs' <==> c in cs || (OnOffer(p, c) && SameSlot(c, c0) && c.bwId < bwId)
  }

  lemma NextBandwidth(p: Parameters, c0: Choice, bwId: nat, cs: seq<Choice>, middle: seq<Choice>, cs': seq<Choice>)
    requires Usable(p) && Offered(p, c0, bwId, cs, middle)
    requires forall c :: c in cs' <==>
               c in middle || (OnOffer(p, c) && SameSlot(c, c0.(bwId := bwId)) && c.bwId == bwId)
    ensures Offered(p, c0, bwId + 1, cs, cs')
  {
  }

  lemma LastStep(p: Parameters, c0: Choice)
    requires Usable(p)
    ensures forall c | OnOffer(p, c) && SameSlot(c, c0) :: c.bwId < LastBandwidth(p, c0) + 1
  {
  }

  /** What is on offer with the DIMM sizes of l. */
  lemma KindStep(p: Parameters, l: Choice)
    requires Usable(p) && InTable(l)
    ensures forall c | OnOffer(p, c) && c.d1 == l.d1 && c.d2 == l.d2 && c.d3 == l.d3 ::
              && SizeOf(l) <= p.capacity
              && Admitted(p, l.(kind := c.kind))
              && (c.kind != LRDIMM ==> SizeOf(l) != 0)
  {
    hide ChoiceFigures, LastBandwidth, Priced;
    forall c | OnOffer(p, c) && c.d1 == l.d1 && c.d2 == l.d2 && c.d3 == l.d3
      ensures Admitted(p, l.(kind := c.kind))
    {
      SamePrice(p, c, l.(kind := c.kind));
    }
  }

  lemma SamePrice(p: Parameters, c: Choice, d: Choice)
    requires c.d1 == d.d1 && c.d2 == d.d2 && c.d3 == d.d3 && c.kind == d.kind
    ensures Priced(p, c) <==> Priced(p, d)
  {
  }

  /** The same-bandwidth BoBs built from the pruned channels are exactly those the mode allows. */
  lemma UniformAreAllBobs(p: Parameters, before: seq<ChannelConf>, chs: seq<ChannelConf>, bs: seq<BobConf>,
                          picks: seq<seq<nat>>)
    requires !p.mirrorInBob && p.numChannelsPerBob >= 1
    requires Rearranged(chs, before) && BobsOf(bs, chs, picks)
    requires forall ch | ch in before :: BuiltChannel(p, ch)
    requires forall s :: s in picks <==>
               |s| == p.numChannelsPerBob && Selection(s, 0, |chs|) && Uniform(BandwidthsOf(chs), s)
    ensures AllBobs(p, ChannelFigures(before), BobFigures(bs))
    ensures forall b | b in bs :: BuiltBob(p, b) && PartsFrom(b, before)
  {
    hide BuiltBob, PartsFrom, BuiltChannel, BobOf, Uniform, Selection, UniformParts;
    var figs, ts := ChannelFigures(chs), BobFigures(bs);
    RearrangedMembers(chs, before);
    SameFigures(ChannelFigure, chs, figs, before, ChannelFigures(before));
    SameFigures(ChannelFigure, before, ChannelFigures(before), chs, figs);
    forall b | b in bs
      ensures BuiltBob(p, b) && PartsFrom(b, before)
    {
      var k :| 0 <= k < |bs| && bs[k] == b;
      assert BobOf(bs[k], chs, picks[k]) && picks[k] in picks;
      UniformBobBuilt(p, chs, b, picks[k], before);
    }
    forall t | t in ts
      ensures BobFrom(p, ChannelFigures(before), t)
    {
      var k :| 0 <= k < |ts| && ts[k] == t;
      assert BobOf(bs[k], chs, picks[k]) && picks[k] in picks;
      BobParts(p, chs, bs[k], picks[k], ChannelFigures(before));
    }
    forall t | BobFrom(p, ChannelFigures(before), t)
      ensures t in ts
    {
      var cs :| UniformParts(ChannelFigures(before), p.numChannelsPerBob, cs) && t == Sum(cs);
      var s := ArrangedBob(p, chs, cs, ChannelFigures(before));
      var k :| 0 <= k < |picks| && picks[k] == s;
      assert BobOf(bs[k], chs, picks[k]);
      BobIsSum(bs[k], chs, s);
      assert ts[k] == t;
    }
  }

  lemma BobIsSum(b: BobConf, chs: seq<ChannelConf>, s: seq<nat>)
    requires BobOf(b, chs, s)
    ensures Within(s, 0, |chs|) && b.Figures() == Sum(Pick(ChannelFigures(chs), s))
  {
    UniformBobIsSum(chs, s);
  }

  lemma BobParts(p: Parameters, chs: seq<ChannelConf>, b: BobConf, s: seq<nat>, all: seq<Totals>)
    requires BobOf(b, chs, s) && |s| == p.numChannelsPerBob && Uniform(BandwidthsOf(chs), s)
    requires DrawnFrom(all, ChannelFigures(chs))
    ensures UniformParts(all, p.numChannelsPerBob, Pick(ChannelFigures(chs), s))
    ensures b.Figures() == Sum(Pick(ChannelFigures(chs), s))
  {
    BobIsSum(b, chs, s);
    PartsDrawn(ChannelFigures(chs), s);
  }

  lemma UniformBobBuilt(p: Parameters, chs: seq<ChannelConf>, b: BobConf, s: seq<nat>, before: seq<ChannelConf>)
    requires !p.mirrorInBob && BobOf(b, chs, s) && |s| == p.numChannelsPerBob && Uniform(BandwidthsOf(chs), s)
    requires forall ch | ch in chs :: ch in before && BuiltChannel(p, ch)
    ensures BuiltBob(p, b) && PartsFrom(b, before)
  {
    hide BuiltChannel;
    forall c | c in b.channels
      ensures BuiltChannel(p, c) && c in before
    {
      var i :| 0 <= i < |s| && chs[s[i]] == c;
      assert chs[s[i]] in chs;
    }
  }

  lemma ArrangedBob(p: Parameters, chs: seq<ChannelConf>, cs: seq<Totals>, all: seq<Totals>) returns (s: seq<nat>)
    requires UniformParts(all, p.numChannelsPerBob, cs) && DrawnFrom(ChannelFigures(chs), all)
    ensures |s| == p.numChannelsPerBob && Selection(s, 0, |chs|) && Uniform(BandwidthsOf(chs), s)
    ensures Within(s, 0, |chs|) && Sum(Pick(ChannelFigures(chs), s)) == Sum(cs)
  {
    s := ArrangedUniformly(chs, cs);
  }

  lemma ArrangedUniformly(chs: seq<ChannelConf>, cs: seq<Totals>) returns (s: seq<nat>)
    requires DrawnFrom(ChannelFigures(chs), cs) && SameBandwidth(cs)
    ensures |s| == |cs| && Selection(s, 0, |chs|) && Uniform(BandwidthsOf(chs), s)
    ensures Within(s, 0, |chs|) && Sum(Pick(ChannelFigures(chs), s)) == Sum(cs)
  {
    var figs := ChannelFigures(chs);
    s := Arranged(figs, cs);
    forall i, j | 0 <= i < |s| && 0 <= j < |s|
      ensures chs[s[i]].bandwidth == chs[s[j]].bandwidth
    {
      assert s[i] in s && s[j] in s;
      assert figs[s[i]] in cs && figs[s[j]] in cs;
    }
  }

  lemma StartingEmpty(fillings: seq<seq<nat>>)
    ensures Then([], Prefixed([], fillings)) == fillings
  {
    PrefixedEmpty([], fillings);
    ThenIsConcat([], fillings);
    assert [] + fillings == fillings;
  }

  /** The memories built are those of the fillings, hence exact designs made of the BoBs listed. */
  lemma BuiltMemories(p: Parameters, bs: seq<BobConf>, ms: seq<MemoryConf>, mixes: seq<seq<nat>>)
    requires p.numBobs >= 1 && MemoriesOrdered(p, BobFigures(bs)) && NonNegative(BobFigures(bs))
    requires MemoriesOf(ms, bs, mixes) && forall b | b in bs :: BuiltBob(p, b)
    requires mixes == Fillings(CapacitiesOf(bs), 0, p.capacity, p.numBobs)
    ensures forall m | m in ms :: BuiltMemory(p, m) && DesignOf(p, BobFigures(bs), m.Figures())
    ensures forall m | m in ms :: forall b | b in m.bobs :: b in bs
    ensures Ordered(p.ranking, MemoryFigures(ms))
  {
    hide Design, DesignOf, Ordered, BuiltBob, BuiltMemory, Fillings, MemoryOf, NonNegative;
    forall m | m in ms
      ensures BuiltMemory(p, m) && DesignOf(p, BobFigures(bs), m.Figures()) && forall b | b in m.bobs :: b in bs
    {
      var k :| 0 <= k < |ms| && ms[k] == m;
      assert MemoryOf(ms[k], bs, mixes[k]) && mixes[k] in mixes;
      MemoryIsDesign(p, bs, m, mixes[k]);
    }
    forall t | t in MemoryFigures(ms)
      ensures DesignOf(p, BobFigures(bs), t)
    {
      var i :| 0 <= i < |ms| && MemoryFigures(ms)[i] == t;
      assert ms[i] in ms;
    }
  }

  lemma MemoryIsDesign(p: Parameters, bs: seq<BobConf>, m: MemoryConf, s: seq<nat>)
    requires p.numBobs >= 1 && NonNegative(BobFigures(bs)) && MemoryOf(m, bs, s)
    requires s in Fillings(CapacitiesOf(bs), 0, p.capacity, p.numBobs)
    requires forall b | b in bs :: BuiltBob(p, b)
    ensures BuiltMemory(p, m) && DesignOf(p, BobFigures(bs), m.Figures()) && forall b | b in m.bobs :: b in bs
  {
    hide BuiltBob;
    var figs := BobFigures(bs);
    FillingsMember(Capacities(figs), 0, p.capacity, p.numBobs, s);
    var design := Pick(figs, s);
    assert BobFigures(m.bobs) == design;
    LoadIsCapacity(figs, s);
    PartsDrawn(figs, s);
    assert Design(p.numBobs, p.capacity, figs, design);
  }

  /** Every design over the BoBs listed is built, in some arrangement. */
  lemma AllDesignsBuilt(p: Parameters, bs: seq<BobConf>, ms: seq<MemoryConf>, mixes: seq<seq<nat>>)
    requires p.numBobs >= 1 && NonNegative(BobFigures(bs)) && MemoriesOf(ms, bs, mixes)
    requires mixes == Fillings(CapacitiesOf(bs), 0, p.capacity, p.numBobs)
    ensures forall design | Design(p.numBobs, p.capacity, BobFigures(bs), design) :: Sum(design) in MemoryFigures(ms)
  {
    hide Fillings;
    var figs := BobFigures(bs);
    forall design | Design(p.numBobs, p.capacity, figs, design)
      ensures Sum(design) in MemoryFigures(ms)
    {
      var s := Arranged(figs, design);
      LoadIsCapacity(figs, s);
      FillingsMember(Capacities(figs), 0, p.capacity, p.numBobs, s);
      var k :| 0 <= k < |mixes| && mixes[k] == s;
      assert MemoryOf(ms[k], bs, mixes[k]);
      assert BobFigures(ms[k].bobs) == Pick(figs, s);
      assert MemoryFigures(ms)[k] == Sum(design);
    }
  }

  // ---------------------------------------------------------------- the whole search

  /** What a result is made of: BoBs that were built, of channels that were kept, of choices on offer. */
  ghost predicate Assembled(p: Parameters, m: MemoryConf, built: seq<Totals>, pruned: seq<Totals>)
    requires Usable(p)
  {
    forall b | b in m.bobs ::
      b.Figures() in built && forall c | c in b.channels :: c.Figures() in pruned && ChannelOnOffer(p, c)
  }

  /** Pruning the channels loses nothing that matters: always in mirrored mode and with one channel per BoB;
      otherwise if every two channels of one bandwidth that may be part of a memory have stand-ins of one
      bandwidth. In a memory of one BoB these are the pairs of exactly the capacity asked for. */
  predicate OfferSurvives(p: Parameters, pruned: seq<Totals>, all: seq<Totals>) {
    || p.mirrorInBob || p.numChannelsPerBob <= 1
    || PairsSurvive(p.ranking, pruned, all, if p.numBobs == 1 then p.capacity else 0, p.capacity)
  }

  /** The slack of the first memory against designs over the BoBs built: one step for each BoB, which the pruning of
      the BoBs may cost, and one for the final sort. */
  function BuiltSlack(p: Parameters, s: Slack): Slack
    requires p.numBobs >= 0
  {
    s.Plus(Times(p.numBobs, s))
  }

  /** Against designs of channels on offer: for each BoB also a step for each channel. */
  function OfferSlack(p: Parameters, s: Slack): Slack
    requires p.numBobs >= 0 && p.numChannelsPerBob >= 0
  {
    s.Plus(Times(p.numBobs, s.Plus(Times(p.numChannelsPerBob, s))))
  }

  ghost predicate BestBuilt(p: Parameters, s: Slack, built: seq<Totals>, ms: seq<MemoryConf>)
    requires p.numBobs >= 0
  {
    && (ms != [] <==> exists design :: Design(p.numBobs, p.capacity, built, design))
    && forall design | ms != [] && Design(p.numBobs, p.capacity, built, design) ::
         Leads(p.ranking, BuiltSlack(p, s), ms[0].Figures(), Sum(design))
  }

  ghost predicate BestOffered(p: Parameters, s: Slack, ms: seq<MemoryConf>)
    requires Usable(p) && p.numBobs >= 0 && p.numChannelsPerBob >= 0
  {
    && (ms != [] <==> exists design :: OfferedDesign(p, design))
    && forall design | ms != [] && OfferedDesign(p, design) ::
         Leads(p.ranking, OfferSlack(p, s), ms[0].Figures(), Sum(design))
  }

  // The lists that the three sorts receive.

  lemma ChannelsOrdered(p: Parameters)
    requires Usable(p) && SortsDefined(p)
    ensures forall ts | AllFigures(p, ts) :: Ordered(p.ranking, ts)
  {
    hide AllFigures, Fit, BuildsFit, BestPerCapacity;
    forall ts | AllFigures(p, ts)
      ensures Ordered(p.ranking, ts)
    {
      assert ChannelsFit(p, UpTo(EPS), ts);
      FitOrdered(p.ranking, UpTo(EPS), ts);
    }
  }

  lemma BuildsAreFit(p: Parameters, s: Slack, all: seq<Totals>, pruned: seq<Totals>)
    requires Usable(p) && SortsFit(p, s) && AllFigures(p, all) && BestPerCapacity(p.ranking, all, pruned)
    ensures Fit(p.ranking, s, all) && BuildsFit(p, s, pruned)
  {
    hide AllFigures, Fit, BuildsFit, BestPerCapacity;
    assert ChannelsFit(p, s, all);
  }

  lemma BuildsAreOrdered(p: Parameters, all: seq<Totals>, pruned: seq<Totals>)
    requires Usable(p) && SortsDefined(p) && AllFigures(p, all) && BestPerCapacity(p.ranking, all, pruned)
    ensures forall ts | AllBobs(p, pruned, ts) :: Ordered(p.ranking, ts)
    ensures NonNegative(pruned)
  {
    OfferNonNegative(p, all);
    BuildsAreFit(p, UpTo(EPS), all, pruned);
    hide AllFigures, Fit, AllBobs, MemoriesFit;
    forall ts | AllBobs(p, pruned, ts)
      ensures Ordered(p.ranking, ts)
    {
      assert BobsFit(p, UpTo(EPS), ts);
      FitOrdered(p.ranking, UpTo(EPS), ts);
    }
  }

  lemma MemoriesAreFit(p: Parameters, s: Slack, pruned: seq<Totals>, built: seq<Totals>, bobs: seq<Totals>)
    requires BuildsFit(p, s, pruned) && AllBobs(p, pruned, built) && BestPerCapacity(p.ranking, built, bobs)
    ensures Fit(p.ranking, s, built) && MemoriesFit(p, s, bobs)
  {
    hide Fit, AllBobs, MemoriesFit, BestPerCapacity;
    assert BobsFit(p, s, built);
  }

  lemma MemoriesAreOrdered(p: Parameters, all: seq<Totals>, pruned: seq<Totals>, built: seq<Totals>, bobs: seq<Totals>)
    requires Usable(p) && SortsDefined(p) && AllFigures(p, all) && BestPerCapacity(p.ranking, all, pruned)
    requires AllBobs(p, pruned, built) && BestPerCapacity(p.ranking, built, bobs) && NonNegative(built)
    ensures MemoriesOrdered(p, bobs) && NonNegative(bobs)
  {
    BuildsAreFit(p, UpTo(EPS), all, pruned);
    MemoriesAreFit(p, UpTo(EPS), pruned, built, bobs);
    hide Fit, DesignOf;
    forall ts | (forall t | t in ts :: DesignOf(p, bobs, t))
      ensures Ordered(p.ranking, ts)
    {
      FitOrdered(p.ranking, UpTo(EPS), ts);
    }
  }

  lemma SomethingKept(p: Parameters, chs: seq<ChannelConf>, all: seq<Totals>)
    requires Usable(p) && AllFigures(p, all) && BestPerCapacity(p.ranking, all, ChannelFigures(chs))
    ensures (exists c :: OnOffer(p, c)) ==> chs != []
  {
    if c :| OnOffer(p, c) {
      assert ChannelOffered(p, ChoiceFigures(p, c));
      assert RankedBySome(p.ranking, ChannelFigures(chs), ChoiceFigures(p, c));
    }
  }

  // From the order of the final list to optimality.

  /** What the last stage hands over: the ranked list of all designs over the BoBs kept. */
  ghost predicate RankedDesigns(p: Parameters, bobs: seq<Totals>, ms: seq<MemoryConf>) {
    && Ranked(p.ranking, MemoryFigures(ms))
    && (forall t | t in MemoryFigures(ms) :: DesignOf(p, bobs, t))
    && forall design | Design(p.numBobs, p.capacity, bobs, design) :: Sum(design) in MemoryFigures(ms)
  }

  /** The first memory against any design whose parts the BoBs kept beat. */
  lemma FirstLeads(p: Parameters, s: Slack, q: Slack, bobs: seq<Totals>, ms: seq<MemoryConf>, design: seq<Totals>)
    requires p.numBobs >= 0 && MemoriesFit(p, s, bobs) && RankedDesigns(p, bobs, ms)
    requires q.Fair() && Covers(p.ranking, q, bobs, design)
    requires |design| == p.numBobs && Sum(design).capacity == p.capacity
    ensures ms != [] && Leads(p.ranking, s.Plus(Times(p.numBobs, q)), ms[0].Figures(), Sum(design))
  {
    hide Leads, Fit, DesignOf, NotWorse, Covers;
    var figs := MemoryFigures(ms);
    var ys := StandIns(p.ranking, q, bobs, design, design);
    ExchangeParts(p.ranking, q, ys, design);
    assert Design(p.numBobs, p.capacity, bobs, ys);
    var i :| 0 <= i < |figs| && figs[i] == Sum(ys);
    assert Fit(p.ranking, s, figs);
    FirstRanked(p.ranking, figs, i);
    FitLeads(p.ranking, s, figs, figs[0], figs[i]);
    LeadsChain(p.ranking, s, Times(p.numBobs, q), figs[0], Sum(ys), Sum(design));
  }

  lemma FirstRanked(r: Ranking, ts: seq<Totals>, i: nat)
    requires Ranked(r, ts) && i < |ts|
    ensures NotWorse(r, ts[0], ts[i])
  {
  }

  /** The first memory is the best over the BoBs built. */
  lemma BestOverBuilt(p: Parameters, s: Slack, pruned: seq<Totals>, built: seq<Totals>, bobs: seq<Totals>,
                      ms: seq<MemoryConf>)
    requires p.numBobs >= 0 && BuildsFit(p, s, pruned) && AllBobs(p, pruned, built)
    requires BestPerCapacity(p.ranking, built, bobs) && RankedDesigns(p, bobs, ms)
    ensures BestBuilt(p, s, built, ms)
  {
    hide Leads, Fit, AllBobs, BuildsFit, MemoriesFit, Ranked, Covers, RankedCover, DistinctCapacities;
    MemoriesAreFit(p, s, pruned, built, bobs);
    BestCovers(p.ranking, s, built, bobs);
    forall design | Design(p.numBobs, p.capacity, built, design)
      ensures ms != [] && Leads(p.ranking, BuiltSlack(p, s), ms[0].Figures(), Sum(design))
    {
      CoversPart(p.ranking, s, bobs, built, design);
      FirstLeads(p, s, s, bobs, ms, design);
    }
    if ms != [] {
      var design := DesignBehind(p, bobs, ms);
      assert Design(p.numBobs, p.capacity, built, design);
    }
  }

  lemma CoversPart(r: Ranking, s: Slack, kept: seq<Totals>, all: seq<Totals>, design: seq<Totals>)
    requires Covers(r, s, kept, all) && DrawnFrom(all, design)
    ensures Covers(r, s, kept, design)
  {
    hide Beats;
  }

  lemma DesignBehind(p: Parameters, bobs: seq<Totals>, ms: seq<MemoryConf>) returns (design: seq<Totals>)
    requires RankedDesigns(p, bobs, ms) && ms != []
    ensures Design(p.numBobs, p.capacity, bobs, design) && Sum(design) == ms[0].Figures()
  {
    hide Ranked;
    assert MemoryFigures(ms)[0] in MemoryFigures(ms);
    design :| Design(p.numBobs, p.capacity, bobs, design) && Sum(design) == ms[0].Figures();
  }

  /** Where the offer survives, the BoBs built match or beat every BoB of channels on offer that can be part of a
      memory. */
  lemma OfferedBobsSurvive(p: Parameters, s: Slack, pruned: seq<Totals>, all: seq<Totals>, built: seq<Totals>,
                           t: Totals)
    requires Usable(p) && 0 <= p.numChannelsPerBob <= MAX_NUM_CHANNELS_PER_BOB && OfferSurvives(p, pruned, all)
    requires AllFigures(p, all) && s.Fair() && Covers(p.ranking, s, pruned, all) && AllBobs(p, pruned, built)
    requires BobOffered(p, t) && 0 <= t.capacity <= p.capacity && (p.numBobs == 1 ==> t.capacity == p.capacity)
    ensures BeatenBySome(p.ranking, Times(p.numChannelsPerBob, s), built, t)
  {
    hide AllFigures, Beats, UniformBob, PairSurvives;
    var r, n := p.ranking, p.numChannelsPerBob;
    OfferedBobs(p, all, t);
    if p.mirrorInBob {
      var c :| c in all && t == Copies(n, c);
      assert BeatenBySome(r, s, pruned, c);
      var y :| y in pruned && Beats(r, s, y, c);
      CopiesCover(r, s, n, y, c);
      assert BobFrom(p, pruned, Copies(n, y));
    } else if n == 2 {
      PairsDecide(r, pruned, all, if p.numBobs == 1 then p.capacity else 0, p.capacity);
      var u :| UniformBob(pruned, 2, u) && Beats(r, Exact, u, t);
      assert BobFrom(p, pruned, u);
      TimesAmount(2, s);
      ExactBeats(r, Times(2, s), u, t);
    } else if n == 1 {
      SingleChannel(all, t);
      assert BeatenBySome(r, s, pruned, t);
      var y :| y in pruned && Beats(r, s, y, t);
      SingleChannel(pruned, y);
      assert BobFrom(p, pruned, y);
      TimesOnce(s);
    } else {
      EmptyBobsSurvive(r, pruned, all, t.capacity, t.capacity);
      var u :| UniformBob(pruned, 0, u) && Beats(r, Exact, u, t);
      assert BobFrom(p, pruned, u);
    }
  }

  lemma TimesOnce(s: Slack)
    ensures Times(1, s) == s
  {
    assert Times(0, s) == Exact;
  }

  lemma ExactBeats(r: Ranking, s: Slack, y: Totals, x: Totals)
    requires Beats(r, Exact, y, x) && s.Fair()
    ensures Beats(r, s, y, x)
  {
    if s.UpTo? {
      LeadsWeakens(r, Exact, s, y, x);
    }
  }

  lemma BuiltIsOffered(p: Parameters, pruned: seq<Totals>, all: seq<Totals>, built: seq<Totals>)
    requires Usable(p) && AllFigures(p, all) && DrawnFrom(all, pruned) && AllBobs(p, pruned, built)
    ensures forall t | t in built :: BobOffered(p, t)
  {
    hide AllFigures, BobFrom, BobOffered;
    forall t | t in built
      ensures BobOffered(p, t)
    {
      BobFromMore(p, pruned, all, t);
      OfferedBobs(p, all, t);
    }
  }

  lemma OfferedNonNegative(p: Parameters, all: seq<Totals>, design: seq<Totals>)
    requires Usable(p) && AllFigures(p, all) && OfferedDesign(p, design)
    ensures NonNegative(design)
  {
    OfferNonNegative(p, all);
    hide AllFigures;
    forall t | t in design
      ensures t.capacity >= 0
    {
      OfferedBobs(p, all, t);
      BobNonNegative(p, all, t);
    }
  }

  /** Every BoB of an offered design is beaten by one of those kept. */
  lemma OfferedDesignCovered(p: Parameters, s: Slack, all: seq<Totals>, pruned: seq<Totals>, built: seq<Totals>,
                             bobs: seq<Totals>, design: seq<Totals>)
    requires Solvable(p) && OfferSurvives(p, pruned, all) && AllFigures(p, all) && s.Fair()
    requires Covers(p.ranking, s, pruned, all) && AllBobs(p, pruned, built) && Covers(p.ranking, s, bobs, built)
    requires OfferedDesign(p, design)
    ensures s.Plus(Times(p.numChannelsPerBob, s)).Fair()
    ensures Covers(p.ranking, s.Plus(Times(p.numChannelsPerBob, s)), bobs, design)
  {
    OfferedNonNegative(p, all, design);
    TimesAmount(p.numChannelsPerBob, s);
    hide Leads, OnOffer, AllFigures, AllBobs, OfferSurvives, BobOffered;
    forall t | t in design
      ensures BeatenBySome(p.ranking, s.Plus(Times(p.numChannelsPerBob, s)), bobs, t)
    {
      var i :| 0 <= i < |design| && design[i] == t;
      PartAtMostSum(design, i);
      if p.numBobs == 1 {
        assert design == [t];
        SingleSum(t);
      }
      OfferedBobsSurvive(p, s, pruned, all, built, t);
      var u :| u in built && Beats(p.ranking, Times(p.numChannelsPerBob, s), u, t);
      assert BeatenBySome(p.ranking, s, bobs, u);
      var v :| v in bobs && Beats(p.ranking, s, v, u);
      LeadsChain(p.ranking, s, Times(p.numChannelsPerBob, s), v, u, t);
    }
  }

  /** Where the offer survives, the first memory is the best over everything on offer. */
  lemma BestOverOffer(p: Parameters, s: Slack, all: seq<Totals>, pruned: seq<Totals>, built: seq<Totals>,
                      bobs: seq<Totals>, ms: seq<MemoryConf>)
    requires Solvable(p) && SortsFit(p, s) && OfferSurvives(p, pruned, all)
    requires AllFigures(p, all) && BestPerCapacity(p.ranking, all, pruned) && AllBobs(p, pruned, built)
    requires BestPerCapacity(p.ranking, built, bobs) && RankedDesigns(p, bobs, ms)
    ensures BestOffered(p, s, ms)
  {
    BuildsAreFit(p, s, all, pruned);
    MemoriesAreFit(p, s, pruned, built, bobs);
    BestCovers(p.ranking, s, all, pruned);
    BestCovers(p.ranking, s, built, bobs);
    BuiltIsOffered(p, pruned, all, built);
    hide SortsFit, Leads, Fit, AllFigures, AllBobs, BuildsFit, MemoriesFit, Ranked, Covers, OfferSurvives, BobOffered;
    hide RankedCover, DistinctCapacities, OnOffer;
    forall design | OfferedDesign(p, design)
      ensures ms != [] && Leads(p.ranking, OfferSlack(p, s), ms[0].Figures(), Sum(design))
    {
      OfferedDesignCovered(p, s, all, pruned, built, bobs, design);
      FirstLeads(p, s, s.Plus(Times(p.numChannelsPerBob, s)), bobs, ms, design);
    }
    if ms != [] {
      var design := DesignBehind(p, bobs, ms);
      assert OfferedDesign(p, design);
    }
  }

  /** For memories of one BoB and the exact order, only a surviving offer makes the search optimal. */
  lemma OnlySurvivingIsBest(p: Parameters, all: seq<Totals>, pruned: seq<Totals>, built: seq<Totals>, bobs: seq<Totals>,
                            ms: seq<MemoryConf>)
    requires Solvable(p) && p.numBobs == 1 && AllFigures(p, all) && AllBobs(p, pruned, built)
    requires DrawnFrom(built, bobs) && RankedDesigns(p, bobs, ms) && BestOffered(p, Exact, ms)
    ensures OfferSurvives(p, pruned, all)
  {
    var r, c := p.ranking, p.capacity;
    hide Leads, OnOffer, AllFigures, Ranked, UniformBob, PairSurvives, BobOffered;
    if !p.mirrorInBob && p.numChannelsPerBob == 2 {
      forall i, j | 0 <= i <= j < |all| && all[i].bandwidth == all[j].bandwidth
                    && c <= all[i].capacity + all[j].capacity <= c
        ensures PairSurvives(r, pruned, all[i].Plus(all[j]))
      {
        var t := all[i].Plus(all[j]);
        PairIsBob(all, i, j);
        assert BobFrom(p, all, t);
        OfferedBobs(p, all, t);
        SingleSum(t);
        assert OfferedDesign(p, [t]);
        NoSlack(p);
        var design := DesignBehind(p, bobs, ms);
        assert design == [design[0]] && design[0] in design;
        SingleSum(design[0]);
        assert BobFrom(p, pruned, design[0]) && Beats(r, Exact, design[0], t);
        PairIffBob(r, pruned, t);
      }
    }
  }

  lemma NoSlack(p: Parameters)
    requires p.numBobs >= 0 && p.numChannelsPerBob >= 0
    ensures OfferSlack(p, Exact) == Exact && BuiltSlack(p, Exact) == Exact
  {
    TimesAmount(p.numChannelsPerBob, Exact);
    TimesAmount(p.numBobs, Exact);
  }

  lemma ResultsAssembled(p: Parameters, chs: seq<ChannelConf>, bs: seq<BobConf>, built: seq<Totals>,
                         ms: seq<MemoryConf>)
    requires Usable(p) && DrawnFrom(built, BobFigures(bs))
    requires forall ch | ch in chs :: ChannelOnOffer(p, ch)
    requires forall b | b in bs :: PartsFrom(b, chs)
    requires forall m | m in ms :: forall b | b in m.bobs :: b in bs
    ensures forall m | m in ms :: Assembled(p, m, built, ChannelFigures(chs))
  {
    hide ChannelOnOffer;
    forall m, b | m in ms && b in m.bobs
      ensures b.Figures() in built
      ensures forall c | c in b.channels :: c.Figures() in ChannelFigures(chs) && ChannelOnOffer(p, c)
    {
      assert b in bs;
      var i :| 0 <= i < |bs| && bs[i] == b;
      assert BobFigures(bs)[i] in BobFigures(bs);
      forall c | c in b.channels
        ensures c.Figures() in ChannelFigures(chs)
      {
        var j :| 0 <= j < |chs| && chs[j] == c;
        assert ChannelFigures(chs)[j] == c.Figures();
      }
    }
  }

  /** The whole search. `all` are the channels on offer, `pruned` those kept, `built` the BoBs built from them. If
      the comparator is transitive on the lists that are sorted, the first memory is the best over these BoBs up to
      a few EPS of energy, and exactly if the tolerance does not act. If nothing that matters is lost when the
      channels are pruned, the same holds over all channels on offer. For memories of one BoB and exact orders,
      nothing else makes it the best over the offer. */
  method Solve(p: Parameters)
    returns (s: Search, found: bool, ghost all: seq<Totals>, ghost pruned: seq<Totals>, ghost built: seq<Totals>)
    requires Solvable(p) && SortsDefined(p)
    ensures AllFigures(p, all) && BestPerCapacity(p.ranking, all, pruned) && AllBobs(p, pruned, built)
    ensures found <==> s.memories != []
    ensures Ranked(p.ranking, MemoryFigures(s.memories))
    ensures forall m | m in s.memories :: BuiltMemory(p, m) && Assembled(p, m, built, pruned)
    ensures BestBuilt(p, UpTo(EPS), built, s.memories)
    ensures EnergiesApart(p) ==> BestBuilt(p, Exact, built, s.memories)
    ensures OfferSurvives(p, pruned, all) ==> BestOffered(p, UpTo(EPS), s.memories)
    ensures EnergiesApart(p) && OfferSurvives(p, pruned, all) ==> BestOffered(p, Exact, s.memories)
    ensures EnergiesApart(p) && p.numBobs == 1 && BestOffered(p, Exact, s.memories) ==> OfferSurvives(p, pruned, all)
  {
    hide SortsFit, AllFigures, BestPerCapacity, AllBobs, Ordered, NonNegative, OnOffer, MemoriesOrdered, Ranked;
    hide Design, DesignOf, BuiltChannel, BuiltBob, BuiltMemory, PartsFrom, ChannelOnOffer, BestBuilt, BestOffered;
    hide Assembled, OfferSurvives, RankedDesigns;
    s := new Search(p);
    ChannelsOrdered(p);
    all := s.FindAllChannels();
    ghost var kept := s.channels;
    pruned := ChannelFigures(kept);
    SomethingKept(p, kept, all);
    BuildsAreOrdered(p, all, pruned);
    built := s.FindAllBobs();
    ghost var bobs := BobFigures(s.bobs);
    MemoriesAreOrdered(p, all, pruned, built, bobs);
    found := s.FindAllMemories();
    HandedOver(p, built, bobs, s.memories);
    ResultsAssembled(p, kept, s.bobs, built, s.memories);
    SearchIsBest(p, UpTo(EPS), all, pruned, built, bobs, s.memories);
    if EnergiesApart(p) {
      SearchIsBest(p, Exact, all, pruned, built, bobs, s.memories);
      if p.numBobs == 1 && BestOffered(p, Exact, s.memories) {
        OnlySurvivingIsBest(p, all, pruned, built, bobs, s.memories);
      }
    }
  }

  lemma HandedOver(p: Parameters, built: seq<Totals>, bobs: seq<Totals>, ms: seq<MemoryConf>)
    requires Ranked(p.ranking, MemoryFigures(ms)) && BestPerCapacity(p.ranking, built, bobs)
    requires forall m | m in ms :: DesignOf(p, bobs, m.Figures())
    requires forall design | Design(p.numBobs, p.capacity, bobs, design) :: Sum(design) in MemoryFigures(ms)
    ensures RankedDesigns(p, bobs, ms) && DrawnFrom(built, bobs)
  {
    hide Ranked, DesignOf, Design;
    forall t | t in MemoryFigures(ms)
      ensures DesignOf(p, bobs, t)
    {
      var i :| 0 <= i < |ms| && MemoryFigures(ms)[i] == t;
      assert ms[i] in ms;
    }
  }

  lemma SearchIsBest(p: Parameters, s: Slack, all: seq<Totals>, pruned: seq<Totals>, built: seq<Totals>,
                     bobs: seq<Totals>, ms: seq<MemoryConf>)
    requires Solvable(p) && SortsFit(p, s)
    requires AllFigures(p, all) && BestPerCapacity(p.ranking, all, pruned) && AllBobs(p, pruned, built)
    requires BestPerCapacity(p.ranking, built, bobs) && RankedDesigns(p, bobs, ms)
    ensures BestBuilt(p, s, built, ms) && (OfferSurvives(p, pruned, all) ==> BestOffered(p, s, ms))
  {
    BuildsAreFit(p, s, all, pruned);
    hide SortsFit, AllFigures, BestPerCapacity, AllBobs, RankedDesigns, OfferSurvives, BestOffered, BestBuilt;
    hide BuildsFit;
    BestOverBuilt(p, s, pruned, built, bobs, ms);
    if OfferSurvives(p, pruned, all) {
      BestOverOffer(p, s, all, pruned, built, bobs, ms);
    }
  }
}
