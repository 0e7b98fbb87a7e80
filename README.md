# AS topology analysis, modelled in Dafny

This project models the Internet-topology analysis in `ASTopology.py`. The analysis has five parts:

- **Building the graph.** An AS map is built from four record streams: AS classifications, AS relationships, IPv4 prefix-to-AS records and IPv6 prefix-to-AS records.
- **The greedy Tier-1 clique.** It is inferred over the nodes in degree order.
- **Customer cones.** For every AS it walks the cone and computes three totals: the cone ranking, the prefix outreach and the IPv4 outreach.
- **Degree bins.** The degree distribution is counted into six bins.
- **Classification bins.** The classification distribution is counted into six bins.

The model is imperative where the source is:

- `ASNode.ASTopologyNode` is a class whose methods update its fields.
- `Topology.ASTopology` is a class holding three things:
  - the map `asData` from AS number to node object;
  - the map's keys in insertion order, which is the dictionary's iteration order;
  - the stored clique `inferredT1`.
- Its methods are proved against value-level specifications through `State()`. These specifications are in `TopologySpec`, `CustomerCone`, `Tier1` and `Histograms`.

The value-level specifications:

- **Record passes.** Each pass is a fold over the records: `IngestClassifications`, `IngestRelationships` and `IngestPrefixes`. All four passes together are `Build`.
- **Cone walk.** The cone walk `_recursive_boi` is the pure function `CustomerCone.Walk`. It threads the visited list ("backlog") through the walk. Its measure is the number of keys not yet in the backlog, so it terminates on cyclic customer graphs.
- **Cone totals.** `TopologySpec.ConeTotals` gives the totals one node receives; `WithCones` gives every node's.
- **Clique.** The clique comes in two steps:
  1. a stable insertion sort by descending degree, `Tier1.SortByDegree`;
  2. a scan with a rejection tolerance of 50, `Tier1.Scan`.
- **Bins.** The bins are `Histograms.DegreeHistogram` and `Histograms.ClassificationHistogram` over the node values in key order.

The source's quirks are modelled as written:

- **Node names.** A relationship record `(a, b, code)` that first mentions `b` creates the node under key `b` but names it `a`. A prefix record that first mentions its AS names the new node by the prefix length. The node name is what the clique test compares against neighbour lists.
- **Comment lines.** Only the classification and relationship streams skip lines containing `#`.
- **The cone walk's root.** The walk does not put the root in the backlog first. On a customer cycle back to the root, the root is therefore counted as one of its own customers (`CustomerCone.CycleWalkAppendsRootOnce`).
- **Degree.** The degree counts neighbour entries, so a repeated relationship record counts twice. A node with degree 0 falls in the "2-5" bin.
- **Empty map.** On an empty map the clique seed `R[0]` fails. `Run` reports this as the outcome `NoNodes`, with `inferredT1` left as it was.

Consequences of the code worth stating outright:

- Starting from an empty map, after the records (1,2,-1), (1,3,-1) and (2,3,0), every AS has degree 2, because the degree counts neighbour entries. ASes 2 and 3 carry the name 1, because a new `as_b` is named after `as_a` (`TopologySpec.TriangleIngest`). The cone rankings are 3, 1 and 1 (`TopologySpec.TriangleCones`).
- On a customer cycle back to the root, the walk appends the root, so its cone ranking counts it twice (`CustomerCone.CycleWalkAppendsRootOnce`).
- The clique scan tolerates 50 rejections and breaks on the 51st, the one seen when the counter is already 0 (`Tier1.ScanTolerance`).

## Model

| member | source | states |
|---|---|---|
| ASNode.ASTopologyNode.constructor | project2_Internet_Topology/src/ASTopology.py:9-20 | a new node has the given name, degree 0, empty neighbour, customer and prefix lists, no classification and zero totals |
| ASNode.ASTopologyNode.AddDegree | project2_Internet_Topology/src/ASTopology.py:55-57 | appends exactly one neighbour entry and adds one to the degree, leaving the other fields alone; keeps degree equal to the neighbour count |
| ASNode.ASTopologyNode.AddCustomer | project2_Internet_Topology/src/ASTopology.py:59-60 | appends the customer to the customer list and changes nothing else |
| ASNode.ASTopologyNode.AddPrefix | project2_Internet_Topology/src/ASTopology.py:62-63 | appends the (prefix, length, family) entry and changes nothing else |
| ASNode.ASTopologyNode.AddClassification | project2_Internet_Topology/src/ASTopology.py:110-111 | sets the classification and changes nothing else |
| ASNode.ASTopologyNode.SetConeRanking | project2_Internet_Topology/src/ASTopology.py:28-29 | writes only the cone ranking |
| ASNode.ASTopologyNode.SetTotalIpPrefixOutreach | project2_Internet_Topology/src/ASTopology.py:22-23 | writes only the prefix outreach |
| ASNode.ASTopologyNode.SetIpv4Outreach | project2_Internet_Topology/src/ASTopology.py:34-35 | writes only the IPv4 outreach |
| ASNode.ASTopologyNode.NumberOfIpv4Addresses | project2_Internet_Topology/src/ASTopology.py:80-88 | the loop returns the sum of 2^(32-L) over the IPv4-tagged entries |
| ASNode.ASTopologyNode.NumberOfIpv4Prefixes | project2_Internet_Topology/src/ASTopology.py:90-98 | the loop returns the number of IPv4-tagged entries |
| ASNode.ASTopologyNode.NumberOfIpv6Addresses | project2_Internet_Topology/src/ASTopology.py:100-108 | the loop returns the sum of 2^(128-L) over the IPv6-tagged entries |
| ASNode.AddDegreeKeepsValid | project2_Internet_Topology/src/ASTopology.py:55-57 | an added neighbour keeps degree equal to the neighbour count and leaves customers and prefixes alone |
| ASNode.AddPrefixCounts | project2_Internet_Topology/src/ASTopology.py:80-108 | an added prefix moves only its own family's counters: 2^(32-L) addresses and one prefix for IPv4, 2^(128-L) addresses for IPv6 |
| ASNode.CountsAppend | project2_Internet_Topology/src/ASTopology.py:80-108 | the three counters add up over a concatenation of prefix lists |
| ASNode.Ipv4CountersSeeOnlyIpv4 | project2_Internet_Topology/src/ASTopology.py:80-98 | the IPv4 address and prefix counters equal those of the IPv4 entries alone; IPv6 entries never contribute |
| ASNode.Ipv6CounterSeesOnlyIpv6 | project2_Internet_Topology/src/ASTopology.py:100-108 | the IPv6 address counter equals that of the IPv6 entries alone |
| ASNode.Ipv4AddressesAtLeastPrefixes | project2_Internet_Topology/src/ASTopology.py:80-98 | every IPv4 prefix covers at least one address, so the address count is at least the prefix count |
| ASNode.Ipv4Entries | project2_Internet_Topology/src/ASTopology.py:84-85 | every entry the filter keeps is IPv4-tagged and comes from the list |
| ASNode.Ipv4EntriesComplete | project2_Internet_Topology/src/ASTopology.py:84-85 | the converse: every IPv4-tagged entry of the list is kept, so the filter keeps exactly the IPv4 entries |
| ASNode.Ipv6Entries | project2_Internet_Topology/src/ASTopology.py:104-105 | every entry the filter keeps is IPv6-tagged and comes from the list |
| ASNode.Ipv6EntriesComplete | project2_Internet_Topology/src/ASTopology.py:104-105 | the converse: every IPv6-tagged entry of the list is kept, so the filter keeps exactly the IPv6 entries |
| TopologySpec.ClassificationStep | project2_Internet_Topology/src/ASTopology.py:134-137 | a non-comment classification line stores a fresh node named by its AS with its classification; a comment changes nothing |
| TopologySpec.ConnectAt | project2_Internet_Topology/src/ASTopology.py:151-161 | `add_degree` on the node under a key, creating it under the given name when absent |
| TopologySpec.RelationshipStep | project2_Internet_Topology/src/ASTopology.py:144-165 | one relationship line: a's entry, then b's (named `a` when new), then b as a's customer iff code is -1 |
| TopologySpec.PrefixAt | project2_Internet_Topology/src/ASTopology.py:176-180 | `add_prefix` on the node under a key, creating it under the given name when absent |
| TopologySpec.PrefixStep | project2_Internet_Topology/src/ASTopology.py:191-195 | one prefix line, a new node named by the prefix length, with no comment test |
| TopologySpec.Build | project2_Internet_Topology/src/ASTopology.py:131-197 | the four record passes in source order |
| TopologySpec.ConeTotals | project2_Internet_Topology/src/ASTopology.py:228-238 | a node's three totals from the walk of its cone, plus one for itself and its own prefixes and addresses |
| TopologySpec.WithCones | project2_Internet_Topology/src/ASTopology.py:228-238 | every node with its cone totals, the order unchanged |
| Tier1.InferredClique | project2_Internet_Topology/src/ASTopology.py:204-221 | the scan seeded by the first key of the degree order, over the remaining keys, with tolerance 50 |
| Histograms.DegreeHistogram | project2_Internet_Topology/src/ASTopology.py:414-428 | the six degree counts over the nodes |
| Histograms.ClassificationHistogram | project2_Internet_Topology/src/ASTopology.py:513-530 | the six classification counts over the nodes |
| TopologySpec.PrefixStepEffect | project2_Internet_Topology/src/ASTopology.py:171-195 | a prefix record makes its AS a key and appends its prefix tagged with the stream's family; a new node is named by the prefix length; every other node is unchanged |
| TopologySpec.RelationshipStepEffect | project2_Internet_Topology/src/ASTopology.py:143-165 | a comment line changes nothing; otherwise both ASes become keys, each gets the other appended to its neighbours, `b` joins a's customers iff code is -1, a new `b` node is named `a`, and no other node changes |
| TopologySpec.RelationshipsAccumulate | project2_Internet_Topology/src/ASTopology.py:143-165 | over a whole relationship stream, each AS gains exactly the neighbours and customers its records name, in order and with repeats, plus one degree per neighbour entry; prefixes are untouched |
| TopologySpec.PrefixesAccumulate | project2_Internet_Topology/src/ASTopology.py:169-195 | over a whole prefix stream, each AS gains exactly its records' prefixes in order; neighbours, degree and customers are untouched |
| TopologySpec.ClassificationsReplace | project2_Internet_Topology/src/ASTopology.py:133-137 | after the classification stream each AS named by a non-comment line holds a fresh node with its last classification; any other AS keeps its node |
| TopologySpec.StepsPreserveWellFormed | project2_Internet_Topology/src/ASTopology.py:133-195 | each record keeps the map well formed: every key listed once in the order, degree equal to the neighbour count, every customer a key |
| TopologySpec.IngestClassificationsWellFormed | project2_Internet_Topology/src/ASTopology.py:133-137 | the classification pass keeps the map well formed |
| TopologySpec.IngestRelationshipsWellFormed | project2_Internet_Topology/src/ASTopology.py:143-165 | the relationship pass keeps the map well formed, so every customer ID is a key |
| TopologySpec.IngestPrefixesWellFormed | project2_Internet_Topology/src/ASTopology.py:169-195 | each prefix pass keeps the map well formed |
| TopologySpec.BuildWellFormed | project2_Internet_Topology/src/ASTopology.py:131-197 | after the four passes the map is well formed, so the cone walk finds every customer |
| TopologySpec.BuildKeepsIpv4Lengths | project2_Internet_Topology/src/ASTopology.py:169-180 | IPv4 records with lengths of at most 32 leave every node with a whole number of IPv4 addresses |
| TopologySpec.ConeOf | project2_Internet_Topology/src/ASTopology.py:229-231 | the walk from a key with an empty backlog lists only keys of the map |
| TopologySpec.ConeTotalsMeaning | project2_Internet_Topology/src/ASTopology.py:228-238 | a node after the cone pass differs only in its three totals; what it walks is the least customer-closed set holding its customers, and its ranking is that set's size plus one |
| TopologySpec.WithConesWellFormed | project2_Internet_Topology/src/ASTopology.py:228-238 | the cone pass keeps the map well formed and leaves every customer and prefix list as it was |
| TopologySpec.WithConesIdempotent | project2_Internet_Topology/src/ASTopology.py:228-238 | running the cone pass a second time on its own result changes nothing (the same cone rankings and outreach totals), since the pass reads only customer lists and prefixes |
| TopologySpec.TriangleIngest | project2_Internet_Topology/src/ASTopology.py:143-165 | after the records (1,2,-1), (1,3,-1), (2,3,0) on an empty map, every AS has degree 2. AS 1 has customers [2, 3]. ASes 2 and 3 are named 1. The order is [1, 2, 3] |
| TopologySpec.TriangleCones | project2_Internet_Topology/src/ASTopology.py:228-238 | on that map the cone rankings are 3, 1 and 1 |
| TopologySpec.ConesUpToAll | project2_Internet_Topology/src/ASTopology.py:228-238 | after every key of the order has had its turn, the map is every node with its cone totals |
| TopologySpec.OrderCountsKeys | project2_Internet_Topology/src/ASTopology.py:416 | the dictionary's value iteration visits each key exactly once |
| TopologySpec.Values | project2_Internet_Topology/src/ASTopology.py:416 | the node values in key order, one per key |
| CustomerCone.Walk | project2_Internet_Topology/src/ASTopology.py:353-368 | the walk terminates on any customer graph, cyclic ones included, and only appends to the backlog |
| CustomerCone.WalkList | project2_Internet_Topology/src/ASTopology.py:357-368 | the loop over a customer list terminates and only appends to the backlog |
| CustomerCone.WalkExtends | project2_Internet_Topology/src/ASTopology.py:357-359 | the walk appends only ASes of the graph and never one already in the backlog, so a duplicate-free backlog stays duplicate-free |
| CustomerCone.WalkCloses | project2_Internet_Topology/src/ASTopology.py:357-363 | after the walk, every customer of every AS appended by it is in the backlog |
| CustomerCone.WalkJustified | project2_Internet_Topology/src/ASTopology.py:357-363 | every AS the walk appends is a customer of the root or of an AS appended before it |
| CustomerCone.Cone | project2_Internet_Topology/src/ASTopology.py:229-231 | the cone walked from a root with an empty backlog is duplicate-free and lists only ASes of the graph |
| CustomerCone.ConeIsLeastClosedSet | project2_Internet_Topology/src/ASTopology.py:353-368 | the cone's set is customer-closed and holds the root's customers, and it is contained in every such set |
| CustomerCone.ConeCountsEachMemberOnce | project2_Internet_Topology/src/ASTopology.py:358-360 | the count the walk returns counts each cone member exactly once |
| CustomerCone.ConeSumsAppend | project2_Internet_Topology/src/ASTopology.py:361-366 | the prefix and IPv4 sums over appended ASes add up over a concatenation |
| CustomerCone.CycleWalkAppendsRootOnce | project2_Internet_Topology/src/ASTopology.py:353-368 | on the cycle 1 -> 2 -> 3 -> 1, the walk from 1 ends, with the root 1 appended once as a customer of 3 |
| CustomerCone.DiamondWalkAppendsSharedCustomerOnce | project2_Internet_Topology/src/ASTopology.py:358-359 | a customer reached along two paths is appended once, in depth-first order |
| CustomerCone.UnvisitedShrinks | project2_Internet_Topology/src/ASTopology.py:358-359 | appending a customer not yet in the backlog shrinks the set of unvisited keys, which is why the walk terminates |
| Topology.ASTopology.ConeWalk | project2_Internet_Topology/src/ASTopology.py:353-368 | the recursive walk over the node objects returns the functional walk's backlog, the number of ASes it appended, their total prefix count and their total IPv4 address count |
| Topology.ASTopology.VisitCustomer | project2_Internet_Topology/src/ASTopology.py:358-366 | a customer not yet in the backlog is appended, counted once with its own prefixes and addresses, and then walked |
| Topology.ASTopology.ConeTotalsAt | project2_Internet_Topology/src/ASTopology.py:229-238 | one root gets ranking = cone size + 1, prefix outreach = cone prefixes + its own, and IPv4 outreach = cone addresses + its own; only its three total fields change |
| Topology.ASTopology.ConeLoopStep | project2_Internet_Topology/src/ASTopology.py:228-238 | iteration i of the cone loop gives exactly the node under the i-th key its totals |
| Topology.ASTopology.ComputeCones | project2_Internet_Topology/src/ASTopology.py:227-242 | the cone loop leaves the map equal to every node with its cone totals and keeps it well formed |
| Topology.ASTopology.constructor | project2_Internet_Topology/src/ASTopology.py:127-128 | the topology starts with an empty map and an empty clique |
| Topology.ASTopology.Put | project2_Internet_Topology/src/ASTopology.py:136 | a dictionary store: a new key goes to the end of the order, an existing key keeps its place, and the map stays well formed |
| Topology.ASTopology.AddDegreeAt | project2_Internet_Topology/src/ASTopology.py:151-161 | `add_degree` on the node under a key, first creating it under the given name when absent |
| Topology.ASTopology.AddDegreeExisting | project2_Internet_Topology/src/ASTopology.py:151-152 | `add_degree` on an existing node changes only that node |
| Topology.ASTopology.AddPrefixAt | project2_Internet_Topology/src/ASTopology.py:176-180 | `add_prefix` on the node under a key, first creating it under the given name when absent |
| Topology.ASTopology.AddPrefixExisting | project2_Internet_Topology/src/ASTopology.py:176-177 | `add_prefix` on an existing node changes only that node |
| Topology.ASTopology.AddCustomerAt | project2_Internet_Topology/src/ASTopology.py:164-165 | `add_customer` on a provider changes only that node |
| Topology.ASTopology.IngestClassification | project2_Internet_Topology/src/ASTopology.py:134-137 | a non-comment line stores a fresh classified node under its AS, replacing any earlier node |
| Topology.ASTopology.IngestClassificationLines | project2_Internet_Topology/src/ASTopology.py:133-137 | the classification pass leaves the map equal to the value-level fold |
| Topology.ASTopology.IngestRelationship | project2_Internet_Topology/src/ASTopology.py:144-165 | one relationship line, as the value-level step |
| Topology.ASTopology.ConnectPair | project2_Internet_Topology/src/ASTopology.py:151-161 | both endpoints record each other, a new `b` named `a`; both are keys afterwards |
| Topology.ASTopology.IngestRelationshipLines | project2_Internet_Topology/src/ASTopology.py:143-165 | the relationship pass leaves the map equal to the value-level fold |
| Topology.ASTopology.IngestPrefix | project2_Internet_Topology/src/ASTopology.py:172-180 | one prefix line, with the new node named by the prefix length |
| Topology.ASTopology.IngestPrefixLines | project2_Internet_Topology/src/ASTopology.py:171-180 | a prefix pass leaves the map equal to the value-level fold |
| Topology.ASTopology.IngestGraphLines | project2_Internet_Topology/src/ASTopology.py:133-165 | the classification pass, then the relationship pass |
| Topology.ASTopology.IngestPrefixPasses | project2_Internet_Topology/src/ASTopology.py:169-197 | the IPv4 pass, then the IPv6 pass |
| Topology.ASTopology.BuildGraph | project2_Internet_Topology/src/ASTopology.py:131-197 | the four record passes in order leave the map equal to `Build` and well formed |
| Topology.ASTopology.Run | project2_Internet_Topology/src/ASTopology.py:130-294 | on an empty map the run ends with `NoNodes` after the passes, `inferredT1` unchanged; otherwise the result is the inferred clique of the built map, the map holds every node with its cone totals, and `inferredT1` holds the clique's node objects in order |
| Topology.ASTopology.CliqueAndCones | project2_Internet_Topology/src/ASTopology.py:199-238 | the clique is computed from the map before the cone loop, then the cone loop runs, then the clique is stored |
| Topology.ASTopology.StoreClique | project2_Internet_Topology/src/ASTopology.py:294 | `inferredT1` becomes the clique's node objects in clique order, and the map is unchanged |
| Topology.ASTopology.NodeDegreeBins | project2_Internet_Topology/src/ASTopology.py:414-428 | the loop's bins equal the degree histogram of the nodes, and they add up to the number of nodes |
| Topology.ASTopology.ClassificationDistributionBins | project2_Internet_Topology/src/ASTopology.py:513-530 | the loop's bins equal the classification histogram, and they add up to the number of Content, Transit/Access and Enterprise nodes |
| Topology.Clique | project2_Internet_Topology/src/ASTopology.py:199-221 | the degree sort and clique loop return the inferred clique, made of keys of the map |
| Tier1.InsertByDegree | project2_Internet_Topology/src/ASTopology.py:200 | inserting a key keeps the multiset of keys plus that key |
| Tier1.SortByDegree | project2_Internet_Topology/src/ASTopology.py:200 | the sort is a permutation of the keys |
| Tier1.SortIsDescending | project2_Internet_Topology/src/ASTopology.py:200 | the sorted keys have non-increasing degree |
| Tier1.InsertKeepsDescending | project2_Internet_Topology/src/ASTopology.py:200 | inserting a key into a degree-descending list keeps it degree-descending |
| Tier1.SortIsStable | project2_Internet_Topology/src/ASTopology.py:200 | among keys of equal degree the sort keeps the dictionary's order, as Python's stable `sorted(..., reverse=True)` does |
| Tier1.SortHeadIsMaximum | project2_Internet_Topology/src/ASTopology.py:200-204 | the first sorted key has the maximum degree |
| Tier1.Scan | project2_Internet_Topology/src/ASTopology.py:209-221 | the scan's clique holds only keys of the map |
| Tier1.ScanShape | project2_Internet_Topology/src/ASTopology.py:210-216 | the scan only appends candidates, in candidate order, and keeps the clique property |
| Tier1.ScanTolerance | project2_Internet_Topology/src/ASTopology.py:209-221 | at most 51 rejections; the scan stops early exactly at rejection number 51; otherwise every candidate was admitted or rejected |
| Tier1.RejectedNeverJoins | project2_Internet_Topology/src/ASTopology.py:211-221 | a candidate failing the connection test is never added, neither when the scan stops on it nor later |
| Tier1.Tier1Properties | project2_Internet_Topology/src/ASTopology.py:199-216 | `S[0]` has maximum degree, `S` is a subsequence of the degree order, and each member's neighbours include the names of all members admitted before it |
| Tier1.InferTier1 | project2_Internet_Topology/src/ASTopology.py:204-221 | the nested loop with its counter computes the functional scan's clique, with the same properties |
| Histograms.DegreeBin | project2_Internet_Topology/src/ASTopology.py:417-428 | every degree falls in one of the six bins |
| Histograms.ZeroDegreeInSecondBin | project2_Internet_Topology/src/ASTopology.py:419 | degree 0 falls in the "2-5" bin |
| Histograms.DegreeBinsPartition | project2_Internet_Topology/src/ASTopology.py:414-428 | the six degree counts add up to the number of nodes |
| Histograms.ClassificationBin | project2_Internet_Topology/src/ASTopology.py:516-530 | a node is given one of the six bins or none |
| Histograms.ClassificationBinsPartition | project2_Internet_Topology/src/ASTopology.py:513-530 | the six classification counts add up to the number of nodes classified Content, Transit/Access or Enterprise; each such node is counted once |

## Left out

- File I/O and line tokenizing (`open`, `split`, `int`) are not modelled. Each stream is a sequence of parsed records; a classification or relationship record keeps its raw text for the `#` test.
- The organisation enrichment is left out because it is driven by its own files. It reads two files and writes org ids and org names on the clique and the two top-15 lists. The model's nodes carry no org fields, and their getters and setters are left out with it.
- The two sorts by cone ranking and by IPv4 outreach are left out. They feed only the enrichment and the printed tables.
- Printing, the progress bar and the percentage columns are left out: they are output and float division.
- Topology.ASTopology.Run: `Completed` means that `run` reached the store of the clique at line 294. The source then raises when the map has fewer than 15 nodes (`sortedCone[i]` for `i` in `range(15)` at line 305) or holds no IPv4 prefix at all (division by `ipprefixnum == 0` at line 312). The model does not model those failures, which come from the printed tables.
- Topology.ASTopology.ConeWalk: Python's recursion limit (about 1000 nested calls) is not modelled. A customer chain deeper than that makes `_recursive_boi` stop with a RecursionError; `CustomerCone.Walk` and `ConeWalk` always terminate.
- All plotting and file saving is left out, including `show` and `_show_inferred_T1`.
- The IPv4 and IPv6 address-space bins are left out. They bin the float address counts: against integer thresholds (1000, 10000, ...) for IPv4 and against float thresholds (1.0e+24, ...) for IPv6.
- ASNode.ASTopologyNode.NumberOfIpv6Addresses: `math.pow` returns floats and the source adds them with `count += pw(...)` in floating point. The model adds exact integer powers of two. Each single power agrees with the float for the lengths the preconditions allow, but the sums need not: a node with IPv6 prefixes of lengths 0 and 128 gets 2^128 in Python, where the 1 is rounded away, and 2^128 + 1 in the model.
- ASNode.ASTopologyNode.NumberOfIpv4Addresses: the same float accumulation; the IPv4 address counts and the IPv4 outreach are guaranteed to agree with Python's floats while they stay at or below 2^53.
- ASNode.ASTopologyNode.NumberOfIpv4Addresses: requires IPv4 lengths of at most 32. A longer prefix would give a fractional count (`pw(2, 32 - L)` below 1), which is not modelled. A negative length is modelled as the source computes it: a whole count above 2^32. `math.pow` raises OverflowError once the exponent reaches 1024, that is for lengths of -992 or less; the model instead returns the exact power.
- ASNode.ASTopologyNode.NumberOfIpv6Addresses: requires IPv6 lengths of at most 128, for the same reason. A negative length is modelled as a whole count above 2^128. Python overflows for lengths of -896 or less.
- Topology.ASTopology.Run: requires the IPv4 records' lengths to be at most 32, for the same reason.
- Topology.ASTopology.ConeWalk: the backlog is passed in and returned as a sequence rather than shared as one mutable list. The resulting sequence is the same.
- Topology.Clique: the degree sort is the functional insertion sort applied to a snapshot of the node values. Python's library sort is not modelled; only its stable, degree-descending result is.
- `DistributedCoordinationFunction.h` is not part of this model: it holds only declarations.
- Integer widths are not an issue: Python integers are unbounded, and so are the model's.
