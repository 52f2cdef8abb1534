# CACTI searches, modelled and verified in Dafny

CACTI estimates the delay, energy, leakage and area of caches and memories. Around its circuit formulas
it runs several discrete searches. This project models those searches and proves what they find.

* **MemCAD** (`Metrics`, `Sorting`, `Enumeration`, `Pruning`, `Ordering`, `Bandwidths`, `Configurations`,
  `Offers`, `Designs`, `BuiltInTables`, `SameBandwidthPruning`, `MemCad`, `Runs`): channels are enumerated, sorted by a configurable
  order and pruned to one per capacity; channels are combined into BoBs (buffers on board), which are sorted
  and pruned again; BoBs are combined into memories of exactly the requested capacity, and these are ranked.
  `MemCad.Solve` is the whole search: the first memory is the best over the BoBs built; in mirrored mode, with
  one channel per BoB, and wherever pruning the channels loses nothing that fits, it is the best over the full
  offer. `Runs` applies it to the shipped parameters and to a run that misses its memory.
* **The search over array organisations** (`Ucache`, `OrgSelection`, `TagSearch`, `ThreadCounts`, `DesignSpace`): the work is dealt out to
  threads by striding over a mixed-radix index, each thread keeps a list and minima, and both are merged.
  `TagSearch.FindTag` is the search for a tag array from end to end: whatever the number of threads, the
  organisation kept has the least cost of all admissible points of the design space. `ThreadCounts` shows that
  it is also the same organisation for every number of threads, and `DesignSpace` says without the index which
  partitions are evaluated.
* **Non-uniform caches** (`Nuca`): the loops over the factorisations of the bank count, their closed forms,
  the shape of the best grid, and the loop that raises the smallest bank size.
* **H-trees** (`Htree`): the walk down a tree of wires with its three kinds of branch, the widths of the bus
  and the lengths of the links.
* **Integer combinatorics** (`Combinatorics`, `Arithmetic`, `BasicCircuit`, `GateStates`): logarithms, powers of two,
  binomial coefficients as quotients of products, and the gate-leakage sums built on them, compared with sums over
  all states of the inputs.

Code that changes state step by step is modelled by methods and classes, each proved against a
specification function; what the search promises is then proved about those functions. Methods that drive a
recursion are split by level and loop body (`EachChannel`, `WithChannel`, `LastChannel`, `AddBob` together are
`find_bobs_recursive`; the same for memories), so that each proof stays small. Metrics are integers and reals.

## What the code does that its names do not say

* The comparators compare energies with a tolerance. `TransitiveIffSeparate` says exactly when that is an
  order. `Solve` assumes `SortsDefined`: on each list that is sorted the comparator is transitive. The first memory is
  then the best up to a few EPS: exact in the metrics ranked before energy, and in energy within
  (numBobs + 1) * EPS of every memory of the BoBs built and (numBobs * (channels per BoB + 1) + 1) * EPS of every
  memory on offer. It is exactly the best, ties in all metrics included, under `EnergiesApart`: where a sort gets as
  far as comparing energies they are equal or more than EPS apart. The shipped parameters and tables meet this
  (`ShippedRun`), the channels on offer in the built-in tables always do (`OfferIsApart`), and so does every offer
  with energies on a grid coarser than EPS (`GridEnergiesApart`). Not every run with the built-in tables does:
  energies of large memories can differ by less than EPS, and then only the result with slack holds.
* The comparators answer true on ties, which the library sort does not allow of a strict order. They are read
  as "not worse", and sorting is modelled by its contract for such an order, so the results hold for every
  algorithm that meets the contract.
* In same-bandwidth mode channels are pruned to one per capacity before they are matched by bandwidth. With two
  channels per BoB this can lose designs: with the built-in DDR4 tables, two UDIMM channels per BoB and 20 GB, the
  search reports that there is no memory although there is one (`LossyRun`). `SurvivalIsDecidedByPairs` says
  exactly when no memory up to a capacity is lost, as a check over pairs of positions of the two lists; `Solve` uses
  it with the capacity asked for. For memories of one BoB the check over the pairs of exactly that capacity is also
  necessary for the search to be optimal.
* List sort and merge are stable. Organisations that agree in the six keys differ at least in the wire type; in SRAM
  they come from one thread, so that the list is the same one for every number of threads. A tag array in DRAM
  reports 1 for its bit-line multiplexing whatever Ndcm is, so tied organisations may come from different threads
  and their order in the list may depend on the number of threads; the tag array kept does not, since Ndcm changes
  nothing else (`SameTagForAllThreads`).
* The parameter `bandwidth` of the channel constructor hides the field, so the assignment at
  cacti/memcad_parameters.cc:300 changes no channel.
* The guards at cacti/memcad.cc:166 and 203 mix `||` and `&&`, so the price checks do not apply when only that
  kind of DIMM is wanted. `PriceChecksAreRedundant` shows that this changes nothing.
* `combination(n, m)` is m + 1 from m = n on. The sums over parallel networks are therefore too large by leak * n * n
  (`ParallelOverstates`); single parallel networks are also not averaged over their input states.
* The weighted search for the best organisation erases list elements while it iterates. Erasing the head makes
  it step over the next element, which may be the optimum (`SecondIsMissed`). `FindOptimal` states exactly which
  position is skipped, `LeastIsFoundIff` when the least score is found all the same, and `SameChoiceIff` when the
  choice is the same, ties included.
* The empty channel reads its tables outside their range; tables are total functions here, so it gets some
  bandwidth and energy, but capacity 0 and cost 0.

## Model

| member | source | states |
|---|---|---|
| Metrics.TransitiveIffSeparate | cacti/memcad.cc:20-83 | the comparator of channels, for any three metrics, is transitive on configurations with given energies if and only if energy is not ranked or no chain of near energies ends far apart |
| Metrics.ToleranceIsNotTransitive | cacti/memcad.cc:39-42 | three configurations of one capacity on which the comparator with its tolerance is not transitive |
| Metrics.JudgeComposes | cacti/memcad.cc:29-45 | one metric's verdicts compose: better than a tie is better, a tie of ties is a tie |
| Metrics.CodedOrderIsExact | cacti/memcad.cc:472-535 | where the tolerance does not act on two configurations, the coded comparator is the exact lexicographic order on capacity and three weights |
| Metrics.ExactImpliesCoded | cacti/memcad.cc:517-534 | with energy ranked last the exact order implies the coded one for all energies |
| Metrics.TotalPreorder | cacti/memcad.cc:261-324 | where the tolerance does not act the comparator is reflexive, total and transitive |
| Metrics.PrecedesPreorder | cacti/memcad.cc:261-324 | the exact order is a total preorder for all energies |
| Metrics.GridDiscernible | cacti/memcad.cc:39-42 | the tolerance does not act on energies that are multiples of a quantum above it |
| Metrics.TranslationInvariant | cacti/memcad_parameters.cc:380-390 | adding the same configuration to both sides neither makes nor breaks a coded or an exact order, for all energies |
| Metrics.Monotone | cacti/memcad_parameters.cc:435-445 | two exact orders add up, as the additive totals of BoBs and memories need |
| Metrics.CopiesKeepOrder | cacti/memcad.cc:382-389 | n copies side by side are in the exact order if and only if the single configurations are, for n >= 1 |
| Metrics.CopiesMultiply | cacti/memcad_parameters.cc:380-390 | n copies of a configuration have n times each of its figures |
| Metrics.DefaultOrder | cacti/memcad.cc:20-83 | in the default ranking less capacity comes first, then lower cost, then higher bandwidth, then less energy |
| Metrics.FirstMetricDecides | cacti/memcad.cc:29-45 | for every ranking, lower cost, higher bandwidth or less energy in the first metric decides, and on a tie the rest of the ranking does |
| Metrics.CodedLeads | cacti/memcad.cc:29-45 | whatever the comparator accepts is in order up to EPS of energy, and in exact order where the tolerance does not act |
| Metrics.LeadsIff | cacti/memcad.cc:29-45 | the order with a slack is the exact one, except that where energy decides an excess up to the slack is tolerated |
| Metrics.LeadsChain | cacti/memcad.cc:261-324 | slacks in energy add up along a chain of comparisons |
| Metrics.LeadsAdds | cacti/memcad_parameters.cc:435-445 | and so they do when configurations are put side by side |
| Sorting.Sort | cacti/memcad.cc:241-241 | the result is a rearrangement and is sorted by the relation |
| Enumeration.CombosMember | cacti/memcad.cc:348-375 | what the recursion over channels enumerates is exactly the non-decreasing index sequences of length nb over the range |
| Enumeration.CombosAscending | cacti/memcad.cc:348-375 | in strictly increasing lexicographic order |
| Enumeration.AscendingHasNoDuplicates | cacti/memcad.cc:348-375 | hence each of them once |
| Enumeration.CombosCount | cacti/memcad.cc:348-375 | m channels give C(m + nb - 1, nb) BoBs of nb channels |
| Enumeration.FillingsMember | cacti/memcad.cc:434-468 | with non-negative capacities, what the capacity-bounded recursion enumerates is exactly the non-decreasing index sequences of length nb from the start index whose capacities sum to the remaining capacity |
| Enumeration.FillingsAscending | cacti/memcad.cc:434-468 | in strictly increasing lexicographic order, so each once |
| Pruning.KeptAscends | cacti/memcad.cc:86-106 | what the pruning pass keeps of a sorted list has strictly increasing capacities |
| Pruning.KeptFor | cacti/memcad.cc:89-97 | each element has a kept one at or before it with its capacity |
| Pruning.PruneIsCovering | cacti/memcad.cc:86-106 | pruning a sorted list keeps one entry per capacity present, strictly increasing, each ranked no worse than all entries of its capacity |
| Pruning.BestCovers | cacti/memcad.cc:86-106 | hence every entry is matched or beaten, up to EPS of energy where the comparator is transitive and exactly where the tolerance does not act |
| Pruning.ExchangeParts | cacti/memcad_parameters.cc:435-445 | replacing each part by one that beats it up to a slack yields a whole that beats the original up to the sum of the slacks |
| Pruning.CopiesCover | cacti/memcad.cc:380-390 | n copies of a channel that beats another up to a slack beat n copies of it up to n times the slack |
| Pruning.Arranged | cacti/memcad.cc:458-466 | every list of kept entries has an arrangement that the recursion enumerates, with equal totals |
| Pruning.PrunedSearchFindsBetter | cacti/memcad.cc:434-468 | every design over the unpruned list is matched or beaten, up to the slack of pruning for each part, by one that the exact-capacity search over the pruned list enumerates |
| Ordering.ComparePreorder | cacti/memcad.cc:423-423 | the comparator handed to the sort is a total preorder on every list on which it is transitive |
| Bandwidths.RunsAscend | cacti/memcad.cc:393-406 | in a list sorted by bandwidth different runs have different bandwidths, so the runs are maximal |
| Bandwidths.RunCombosAreUniform | cacti/memcad.cc:391-414 | the selections made run by run are exactly the multisets of nb channels of one bandwidth |
| Bandwidths.RunCombosAscending | cacti/memcad.cc:410-413 | no such multiset is built twice |
| Configurations.BwIndex | cacti/memcad_parameters.cc:249-274 | the index is the number of bandwidth steps of the I/O type below the bandwidth |
| Configurations.SizeIndex | cacti/memcad_parameters.cc:291-292 | the slot of a DIMM size: the size lies between the slot's size and its double |
| Configurations.HistogramExactIffSupported | cacti/memcad_parameters.cc:285-296 | the histogram counts the DIMMs present and accounts for the capacity if and only if all sizes are supported, otherwise for less |
| Configurations.Tally | cacti/memcad_parameters.cc:283-296 | count, capacity and histogram of the DIMMs present |
| Configurations.TotalCost | cacti/memcad_parameters.cc:303-306 | the cost is the histogram weighted by the price table |
| Configurations.ChannelConf.constructor | cacti/memcad_parameters.cc:276-311 | the figures are the stated functions of kind, histogram, capacity and bandwidth; the bandwidth asked for is kept |
| Configurations.CloneChannel | cacti/memcad_parameters.cc:338-352 | a clone has the same kind, bandwidth and histogram, and the same figures if and only if the histogram accounts for the capacity |
| Configurations.UnpackedHistogram | cacti/memcad_parameters.cc:340-349 | reading sizes back from a histogram and tallying them again yields the histogram |
| Configurations.CloneIsFaithfulIffSupported | cacti/memcad_parameters.cc:338-352 | a channel built from a list of DIMMs is cloned without loss if and only if all sizes are supported |
| Configurations.BobConf.constructor | cacti/memcad_parameters.cc:371-391 | the totals of a BoB are the sums over its channels |
| Configurations.CloneBob | cacti/memcad_parameters.cc:393-405 | a clone of a BoB shares the channels and has all its totals |
| Configurations.MemoryConf.constructor | cacti/memcad_parameters.cc:427-446 | the totals of a memory are the sums over its BoBs |
| Configurations.FiguresOfChannels | cacti/memcad_parameters.cc:435-445 | hence they are the sums over all its channels |
| Configurations.ScaledByShare | cacti/memcad_parameters.cc:319-334 | with capacity_wise set, a channel's energy is its share of the capacity times its unscaled energy |
| Configurations.ChannelEnergies | cacti/memcad_parameters.cc:313-336 | a channel's energies per read and per write are its table entries over the cycles of a burst, times its share of the capacity; its energy per access is their mean, weighted by the ratio of reads to writes |
| Configurations.MemoryEnergyIsAverage | cacti/memcad_parameters.cc:313-336 | the energy per access of every memory the search builds lies between the least and the greatest unscaled energy of its non-empty channels |
| Offers.DimmsFacts | cacti/memcad.cc:111-139 | the DIMM lists tried have supported sizes, and their histograms account for capacity and count |
| Offers.PriceChecksAreRedundant | cacti/memcad.cc:166-169 | with non-negative prices, a channel that is kept has only DIMMs that are sold, whether the guard checks it or not |
| Offers.ChoiceCost | cacti/memcad_parameters.cc:303-306 | a channel costs the sum of the table prices of its DIMMs |
| Offers.OnOfferIff | cacti/memcad.cc:108-239 | a channel is on offer if and only if its kind is wanted (all kinds, or just that one), its DIMMs fit, its price is below INF, its bandwidth step is at most the one for its number of DIMMs, and low power is permitted if asked for; each DIMM by itself must be sold unless RDIMM or UDIMM alone is wanted; the empty channel is offered once |
| Offers.SoldIfAffordable | cacti/memcad.cc:166-169 | with non-negative prices the condition on each DIMM follows from that on the price of the channel |
| Designs.OfferedBobs | cacti/memcad.cc:377-415 | a BoB of any channels on offer is one built from the list of their figures |
| Designs.GridEnergiesApart | cacti/memcad.cc:241-241 | if the ranked energies on offer are multiples of a quantum above the tolerance, it acts in none of the three sorts |
| Designs.ApartIsDefined | cacti/memcad.cc:241-241 | where the tolerance does not act in the three sorts, the comparator is transitive on each of their lists |
| Designs.SingleSortsFit | cacti/memcad.cc:537-544 | for one BoB of one channel the three sorts compare nothing but channels on offer, so what holds of these holds of all three |
| BuiltInTables.ChannelEnergy | cacti/memcad_parameters.cc:313-336 | with the built-in tables the energy of a channel is its capacity share times one of finitely many rates |
| BuiltInTables.RatesApart | cacti/memcad_parameters.cc:123-224 | any two of these rates are equal or far apart |
| BuiltInTables.OfferIsApart | cacti/memcad.cc:241-241 | with the built-in tables, for every ranking and up to 200 TB, the tolerance does not act on the channels on offer |
| BuiltInTables.ShippedIsSolvable | cacti/cache.cfg:268-300 | the shipped parameters and the built-in tables meet the assumptions of the whole search |
| MemCad.Search.Offer | cacti/memcad.cc:145-149 | one channel of the choice's kind, power flag, histogram and figures is constructed, and kept if and only if it is on offer |
| MemCad.Search.OfferKind | cacti/memcad.cc:141-163 | all bandwidth steps of one kind of DIMM in one arrangement, at full and low power |
| MemCad.Search.OfferDimms | cacti/memcad.cc:126-237 | the body of the three loops adds exactly the channels on offer with these DIMM sizes |
| MemCad.Search.EnumerateChannels | cacti/memcad.cc:108-239 | exactly the channels on offer are constructed |
| MemCad.Search.PruneChannels | cacti/memcad.cc:86-106 | the list becomes the kept positions, cloned with kind, power flag, histogram and figures |
| MemCad.Search.FindAllChannels | cacti/memcad.cc:108-254 | exactly the channels on offer are found; those kept are one best for each capacity, and each realises a choice on offer |
| MemCad.Search.FindBobsRecursive | cacti/memcad.cc:348-375 | appends one BoB for each selection of nb more channels, in order, and restores the index list |
| MemCad.Search.LastChannel | cacti/memcad.cc:350-368 | the innermost level of that recursion |
| MemCad.Search.EachChannel | cacti/memcad.cc:369-374 | the outer levels of that recursion |
| MemCad.Search.FindRuns | cacti/memcad.cc:394-406 | start_index and end_index partition the list into runs of equal bandwidth |
| MemCad.Search.FindSameBandwidthBobs | cacti/memcad.cc:391-415 | each multiset of channels of one bandwidth is built exactly once, and nothing else |
| MemCad.Search.FindMirroredBobs | cacti/memcad.cc:380-390 | one BoB per channel, all of whose channels are copies of it |
| MemCad.Search.PruneBobs | cacti/memcad.cc:326-346 | the list becomes the kept positions, cloned with the same channels and figures |
| MemCad.Search.FindAllBobs | cacti/memcad.cc:377-432 | exactly the BoBs the mode allows are built; those kept are one best for each capacity, with channels from the list they were built from |
| MemCad.Search.FindMemsRecursive | cacti/memcad.cc:434-468 | appends one memory for each selection of nb more BoBs of exactly the remaining capacity, in order, and restores the index list |
| MemCad.Search.LastBob | cacti/memcad.cc:437-456 | the innermost level of that recursion |
| MemCad.Search.EachBob | cacti/memcad.cc:458-467 | the outer levels of that recursion |
| MemCad.Search.FindAllMemories | cacti/memcad.cc:537-567 | the results are of the requested shape and capacity, of BoBs kept, and ranked; every design over the BoBs kept is among them in some arrangement |
| MemCad.Solve | cacti/memcad.cc:591-598 | the pruned channels are one best per capacity of those on offer and the BoBs built are exactly those the mode allows; every result has the requested shape and capacity, BoBs that were built, and channels that were kept and realise a choice on offer; a memory is found if and only if the BoBs built allow one, and the first is the best of all these, exactly if energies are apart and otherwise up to a few EPS of energy; where nothing that fits is lost in pruning the same holds over everything on offer, and for memories of one BoB and energies apart only there |
| MemCad.AllDesignsBuilt | cacti/memcad.cc:434-468 | every choice of BoBs of exactly the capacity is built in some arrangement |
| MemCad.FirstLeads | cacti/memcad.cc:537-544 | if the BoBs kept match or beat each part of a design up to a slack, a memory is found, and the first matches or beats the design up to the sum of the slacks |
| MemCad.BestOverBuilt | cacti/memcad.cc:537-544 | the first memory is the best over the unpruned BoBs, and one is found if and only if these allow one |
| MemCad.BestOverOffer | cacti/memcad.cc:537-544 | where nothing that fits is lost, it is the best over everything on offer, and one is found if and only if one exists |
| MemCad.OnlySurvivingIsBest | cacti/memcad.cc:241-244 | for memories of one BoB, if the result is the exact best over everything on offer, then every equal-bandwidth pair of exactly the capacity is matched or beaten by kept ones |
| MemCad.UniformAreAllBobs | cacti/memcad.cc:391-414 | the same-bandwidth BoBs built have exactly the figures of the BoBs of equal-bandwidth channels |
| MemCad.OfferedBobsSurvive | cacti/memcad.cc:377-415 | in mirrored mode, with one channel per BoB, or where every pair of equal bandwidth that fits survives, the BoBs built match or beat every BoB of channels on offer that fits |
| SameBandwidthPruning.SurvivalIsDecidedByPairs | cacti/memcad.cc:241-244 | for every list of channels, every covering part of it and every bound: no memory of up to that capacity and of any number of BoBs is lost if and only if BoBs have at most one channel or every two channels of one bandwidth within the bound are matched or beaten by two kept ones of one bandwidth |
| SameBandwidthPruning.PairsDecide | cacti/memcad.cc:241-244 | for two channels per BoB and any range of capacities, the BoBs survive if and only if the check over pairs of positions succeeds |
| SameBandwidthPruning.SingleChannelsSurvive | cacti/memcad.cc:391-414 | with one channel per BoB pruning loses nothing |
| Runs.ShippedChoice | cacti/memcad.cc:108-239 | with the shipped parameters no channel of 80 GB costs less than 731.20, and one that costs just that holds RDIMMs of 16, 32 and 32 GB and runs at 533 at most |
| Runs.ShippedRun | cacti/cache.cfg:268-300 | the search with the shipped parameters finds a memory; the first is the exact best on offer, RDIMMs of 16, 32 and 32 GB at 533 for 731.20 |
| Runs.LossyIsApart | cacti/memcad.cc:241-241 | for 20 GB of DDR4 with two UDIMM channels in one BoB the tolerance acts in none of the three sorts |
| Runs.NothingOf20 | cacti/memcad.cc:86-106 | however that offer is sorted, no BoB of the kept channels has 20 GB |
| Runs.LossyRun | cacti/memcad.cc:591-598 | so the search reports that there is no memory, although channels on offer make one |
| Ucache.EncodeThenDecode | cacti/Ucache.cc:117-120 | every triple of exponents has an index below niter that decodes to it |
| Ucache.DecodeThenEncode | cacti/Ucache.cc:168-171 | every index below niter decodes to a triple in range that encodes to it |
| Ucache.DecodeInjective | cacti/Ucache.cc:168-171 | different indices give different Ndwl, Ndbl, Ndcm |
| DesignSpace.PartitionIndex | cacti/Ucache.cc:169-171 | for exponents below the radices an index below niter decodes to these powers of two as Ndwl, Ndbl, Ndcm if and only if it is (a * Ndbl_niter + b) * Ndcm_niter + c |
| DesignSpace.FoundAtPoints | cacti/Ucache.cc:162-228 | an organisation is found if and only if the circuit model yields it for Nspd_min doubled, powers of two as Ndwl, Ndbl, Ndcm and the two multiplexing degrees, and a wire type, all in range |
| Ucache.VisitedExactlyOnce | cacti/Ucache.cc:162-174 | the loops visit every point of the design space exactly once and nothing else |
| Ucache.ThreadVisitsItsShare | cacti/Ucache.cc:166-171 | a thread visits, in order, exactly the visits of the sequential search whose index is congruent to its number |
| Ucache.SharesMakeTheWhole | cacti/Ucache.cc:895-951 | together the threads collect exactly what the sequential search collects, and their merged minima are its minima |
| Ucache.Worker.Evaluate | cacti/Ucache.cc:192-228 | a valid organisation is appended and lowers the minima, an invalid one changes neither |
| Ucache.Worker.TryMuxes | cacti/Ucache.cc:172-174 | the two loops over multiplexing degrees |
| Ucache.Worker.TryIterations | cacti/Ucache.cc:166-171 | the strided loop over the iterations of one thread |
| Ucache.Worker.Run | cacti/Ucache.cc:98-254 | a thread ends with the valid organisations of its visits and their minima |
| Ucache.LtIsStrictWeakOrder | cacti/cacti_interface.cc:52-66 | lt is a strict weak order; unordered organisations agree in all six keys |
| Ucache.LtIsLexicographic | cacti/cacti_interface.cc:52-66 | lt is the lexicographic order on Nspd, Ndwl, Ndbl, deg_bl_muxing, Ndsam_lev_1, Ndsam_lev_2 |
| Ucache.SearchArrays | cacti/Ucache.cc:862-951 | for every number of threads the result is sorted, holds exactly the organisations of the sequential search, tied ones in the order of the threads, and has its minima |
| Sorting.ListSort | cacti/Ucache.cc:897-897 | the list sort yields a sorted rearrangement in which tied elements keep their order |
| Sorting.Merge | cacti/Ucache.cc:895-901 | merging two sorted lists yields a sorted list of all elements, on ties those of the first list before those of the second |
| Sorting.StableSortIsUnique | cacti/Ucache.cc:895-901 | two sorted lists with tied elements in the same order are equal |
| OrgSelection.MinValues.Update | cacti/Ucache.cc:58-94 | each minimum becomes the lesser of itself and the new figure |
| OrgSelection.MinimaAreLeast | cacti/Ucache.cc:58-94 | the minima are the greatest lower bounds of the figures seen |
| OrgSelection.CheckIff | cacti/Ucache.cc:630-652 | an organisation is admissible if and only if each figure is at most min * (1 + dev / 100) |
| OrgSelection.CostIsLinear | cacti/Ucache.cc:758-763 | the minima cost the sum of the weights, and raising one of the five figures raises the cost by its weight times the increase relative to its minimum |
| OrgSelection.OneWeightDecides | cacti/Ucache.cc:758-763 | if one figure alone has a positive weight, a lower cost means no more of that figure |
| OrgSelection.CostOfAdmissible | cacti/Ucache.cc:606-652 | an admissible organisation costs between the sum of the weights and the sum of the weights stretched by the deviations |
| OrgSelection.BoundsAreReached | cacti/Ucache.cc:606-652 | both bounds are reached: by the minima, and by the admissible organisation that uses up every deviation |
| OrgSelection.FilterTagArr | cacti/Ucache.cc:740-791 | popping from the back leaves the least score, the one nearest the back on ties, or nothing |
| OrgSelection.TagChoice | cacti/Ucache.cc:755-790 | the one left is admissible and costs no more than any admissible one; none is left if and only if all admissible ones cost BIGNUM or more |
| OrgSelection.FindOptimal | cacti/Ucache.cc:657-736 | the result has the least energy-delay, energy-delay-squared or weighted score, first on ties, over all positions, except that in the weighted search position 1 is skipped exactly when the head is erased; for the first two it has the least delay * energy or delay * delay * energy of the list; the candidates left in the list are stated too (without eraseBest this is the loop at cacti/nuca.cc:490-569) |
| OrgSelection.OptimalChoice | cacti/Ucache.cc:677-727 | the choice said without scores: the least product of delay and energy, or with the delay squared, or the least cost among the admissible, first on ties |
| OrgSelection.LeastIsFoundIff | cacti/Ucache.cc:718-727 | the least score is found if and only if the head is not erased, position 1 is no candidate, or another position is as good |
| OrgSelection.SameChoiceIff | cacti/Ucache.cc:718-727 | the same candidate is chosen as without the skip if and only if the head is not erased, position 1 is no candidate, the head is as good, or a later one is better |
| OrgSelection.SecondIsMissed | cacti/Ucache.cc:718-727 | a list whose head is inadmissible and whose optimum is second: the search chooses the third |
| OrgSelection.LeastIsOrderFree | cacti/Ucache.cc:677-696 | the least score does not depend on the order in which the threads' lists were merged |
| TagSearch.FoundInSpace | cacti/Ucache.cc:162-228 | what is collected is what the points of the design space yield |
| TagSearch.AdmissibleCostBounds | cacti/Ucache.cc:630-652 | bounds on the cost of any admissible point against the minima of the whole space |
| TagSearch.FindTag | cacti/Ucache.cc:862-964 | for every number of threads the tag array kept comes from an admissible point and no admissible point of the space costs less; if one figure alone has a weight, none has less of that figure; it is the last cheapest one of the searched list |
| ThreadCounts.SramMeetsBoth | cacti/parameter.cc:2081-2084 | a circuit model that reports its arguments as keys, as for SRAM, makes tied organisations come from one iteration |
| ThreadCounts.DramTagsMeetOne | cacti/parameter.cc:2048-2050 | one that is blind to Ndcm, as for tag arrays in DRAM, makes tied organisations differ by the wire type only |
| ThreadCounts.SearchedAsOne | cacti/Ucache.cc:895-951 | where tied organisations come from one iteration, the list of any number of threads is the stable sort of what the sequential search collects |
| ThreadCounts.SameListForAllThreads | cacti/Ucache.cc:895-951 | so it is the same list for every number of threads |
| ThreadCounts.AllDealt | cacti/Ucache.cc:162-174 | the threads' visits one after the other are exactly the design space, ordered by thread, then split, then wire type |
| ThreadCounts.LastHasGreatestWire | cacti/Ucache.cc:755-790 | the last cheapest organisation of the list has the greatest wire type among the cheapest with its keys |
| ThreadCounts.SameTagForAllThreads | cacti/Ucache.cc:740-791 | where among tied organisations the wire type decides, the tag array kept is the same one for every number of threads |
| Nuca.SumOverBanks | cacti/nuca.cc:287-305 | closed forms of the total, horizontal and vertical hops and of the latency over all banks of an r by c grid |
| Nuca.Evaluate | cacti/nuca.cc:306-330 | averages, latency and powers of a grid in closed form: avg_hop = (r + c) / 2, avg_lat = (ver * (r - 1) + hor * (c - 1)) / 2 |
| Nuca.ExploreGrids | cacti/nuca.cc:275-347 | every factorisation of the bank count is tried exactly once, fewest columns first, and the first one of least latency is kept |
| Nuca.ExplorationFindsBest | cacti/nuca.cc:332-342 | the loop ends with the best grid if any beats the latency to beat, otherwise it changes nothing |
| Nuca.SquarestGrid | cacti/nuca.cc:275-347 | with equal hop costs the best grid has at least as many rows as columns and no factorisation is squarer |
| Nuca.PowerOfTwoGrid | cacti/nuca.cc:275-347 | for 2^m banks it has 2^ceil(m/2) rows and 2^floor(m/2) columns |
| Nuca.DivisorsOfPowers | cacti/nuca.cc:275-277 | the column counts tried for 2^m banks are the powers of two up to 2^m |
| Nuca.BankSize.RaiseFor | cacti/nuca.cc:201-208 | for every power of two the loop terminates with MIN_BANKSIZE times assoc / 2 |
| Nuca.LoopEndsIffPower | cacti/nuca.cc:204-207 | above 2, some round of the loop meets the associativity if and only if it is a power of two; otherwise no round does |
| Nuca.AfterRounds | cacti/nuca.cc:203-207 | after n rounds the counter is 2^(n+1) and the bound has doubled n times |
| Htree.Tree.InHtree | cacti/htree2.cc:317-433 | the sequence of states, the wires' delay and energy as sums over h horizontal and v vertical links of halving length, the width at the leaves, and the search energy as a sum over all links, each on a bus doubled as often as the kind of tree says for the links before it |
| Htree.Tree.OutHtree | cacti/htree2.cc:519-634 | the same states, delay, energy and width; the search energy is the energy times the width at the root |
| Htree.OneIteration | cacti/htree2.cc:323-361 | one iteration walks exactly the links that the remaining sums lose; a vertical one happens only with no horizontal node left |
| Htree.BusWidens | cacti/htree2.cc:366-369 | one iteration widens the bus by the doublings that the remaining count loses |
| Htree.SearchEnergyOfWalk | cacti/htree2.cc:361-405 | the sum over iterations is the sum over numbered links: in a search tree between banks turn j drives its first link on a bus doubled j times and a second one doubled j + 1 times; inside a bank each link before doubles it, in a plain tree each vertical link before |
| Htree.PlainTree | cacti/htree2.cc:361-405 | in a plain tree between banks every link is as wide as the root |
| Htree.UnitLinks | cacti/htree2.cc:366-405 | in the search tree inside a bank h + v links of one unit of energy for each wire take the width times 2^(h + v) - 1 |
| Htree.LeafWidth | cacti/htree2.cc:262-263 | for powers of two the width at the leaves is the root's times 1, the longer side, the rows, or all nodes, by the kind of tree |
| Htree.BusBetweenRootAndLeaf | cacti/htree2.cc:361-369 | the search energy of an input tree lies between the energy on a bus as wide as at the root and on one as wide as at the leaves |
| Htree.TotalLength | cacti/htree2.cc:323-345 | n links of halving length add up to 2x(1 - 2^-n) |
| BasicCircuit.Log2 | cacti/basic_circuit.cc:41-58 | the shift loop yields r with 2^r <= n < 2^(r+1); for 0 the program ends |
| BasicCircuit.IsPow2 | cacti/basic_circuit.cc:61-75 | true exactly for the powers of two |
| BasicCircuit.LogStepsAtPowers | cacti/basic_circuit.cc:73-73 | the logarithm goes up exactly at the powers of two |
| BasicCircuit.Powers | cacti/basic_circuit.cc:78-86 | base to the n, 1 for a non-positive exponent |
| BasicCircuit.Factorial | cacti/basic_circuit.cc:423-429 | the product from m to n, m alone if n is not above it |
| BasicCircuit.Combination | cacti/basic_circuit.cc:431-436 | the quotient is exact and is the binomial coefficient for m < n, and m + 1 otherwise |
| BasicCircuit.CombinedIsChoose | cacti/basic_circuit.cc:431-436 | it is the binomial coefficient if and only if m < n or n = m = 0 |
| BasicCircuit.ChooseByFactorials | cacti/basic_circuit.cc:434-434 | the factorial formula, from Pascal's rule |
| BasicCircuit.WeightedRow | cacti/basic_circuit.cc:744-747 | the sum of k * C(n, k) is n * 2^(n-1) |
| BasicCircuit.ParallelSum | cacti/basic_circuit.cc:744-747 | closed form of the loop over a parallel network |
| BasicCircuit.ParallelOverstates | cacti/basic_circuit.cc:744-747 | it exceeds the sum over true binomial coefficients by leak * n * n, so it is that sum if and only if nothing leaks |
| BasicCircuit.SeriesSum | cacti/basic_circuit.cc:751-756 | closed form of the loop over a series network |
| BasicCircuit.SeriesAverage | cacti/basic_circuit.cc:751-757 | over all input states it is leak * n * (2^(n-1) + 1) / 2^(n+1) |
| BasicCircuit.CmosIgLeakage | cacti/basic_circuit.cc:713-836 | closed form of the gate leakage of every kind of gate |
| GateStates.ParallelStates | cacti/basic_circuit.cc:744-747 | the parallel loop adds up the leakage over all input states, and leak * n * n on top |
| GateStates.SeriesStates | cacti/basic_circuit.cc:751-756 | the series loop adds up the leakage over all input states, full when all conduct and half otherwise |
| GateStates.NandStates | cacti/basic_circuit.cc:791-806 | a NAND gate averages over its input states: high inputs switch on the series network of n transistors, low ones the parallel network of p transistors (counted fanin * fanin too often) |
| GateStates.NorStates | cacti/basic_circuit.cc:807-821 | the same for a NOR gate with the networks exchanged, which is a NAND gate with n and p exchanged |
| GateStates.InverterStates | cacti/basic_circuit.cc:788-829 | an inverter and a transmission gate average over the two states of the input; a tri-state buffer averages two inverters and one |
| GateStates.SingleNetworkStates | cacti/basic_circuit.cc:735-787 | single networks average over their states, except that a parallel one of several transistors is not averaged |

## Left out

- Circuit physics (`horowitz`, `gate_C`, `drain_C_`, mats, decoders, crossbars, routers, memory buses, I/O): floating-point formulas; wires, routers and banks enter as parameters.
- `calculate_time`, `DynamicParameter`, `UCA` and `Wire`: an arbitrary deterministic function from a partition to an organisation or nothing; that a failed attempt may leave a partly filled slot behind is not modelled.
- Parsing, printing, verbose output and the three best results printed at the end of MemCAD.
- Creating and joining threads: threads share nothing before they are joined, so they run one after another here.
- The forced-configuration and 3D paths of the organisation search, which overwrite loop variables, and the fully associative case, which fills two lists in one pass.
- `filter_data_arr`: decrements an iterator past the beginning of its list when the head is erased.
- `find_delay`, `find_area` and `find_cyc`, and the pairing of tag and data arrays: sums and maxima without a search.
- The gate terms that the H-tree walks add to delay and energy, and their leakage sums: the contracts speak of the share of the wires.
- Machine integers and IEEE rounding: integers and reals are mathematical.
- The static cost and energy tables are parameters, with the built-in ones as an instance; a read outside a table's range yields some value.
- `(int)(log2(x + 0.1))` is the integer logarithm, and `int(pow(2.0, n))` the integer power.
- Fixed-size buffers are immutable sequences, since only constructors write them; freeing memory is not modelled.
- Configurations.ChannelConf.constructor: sizes below 4 GB and above 127 GB are excluded; the former index the histogram below its start and the latter fail an assertion. A zero bandwidth is excluded too: the source divides by it in floating point, and reals have no infinity.
- OrgSelection.FindOptimal: requires positive minima, since the source divides by them; the replacement of a zero leakage minimum by 0.1 in the non-uniform search is not modelled, and a list whose only element is erased counts as finished, where the source moves an iterator past the end.
- OrgSelection.FilterTagArr: requires positive minima for the same reason; the program exits of an empty result are the value None.
- MemCad.Solve: in mode "neither mirrored nor same bandwidth" the source ends with an assertion, and in same-bandwidth mode it reads the first of possibly no channels; both are excluded. On each list that is sorted the comparator is assumed to be transitive; otherwise the library sort has no defined result. The result is exact under `EnergiesApart` only: with the tolerance, energies that differ by at most EPS are ties for the source.
- TagSearch.FindTag: assumes that the circuit model reports positive figures for the points of the design space, since the deviations divide by their minima.
- Nuca.ExploreGrids: the figures kept besides the grid (wire power, contention, area) are not modelled.
