/**
 * The topology object: the AS map built from the record streams, the cone
 * computation that writes each node's totals, the Tier-1 clique it keeps, and
 * the two distribution counts. Each method is tied to the value-level
 * description in `TopologySpec` through `State()`.
 */
module Topology {
  import opened Wrappers
  import opened Seqs
  import opened ASNode
  import opened CustomerCone
  import Tier1
  import opened Histograms
  import opened TopologySpec

  /** How `Run` ended: an empty map makes the clique seed `R[0]` fail. */
  datatype RunOutcome = NoNodes | Completed(tier1: seq<int>)

  class ASTopology {
    var asData: map<int, ASTopologyNode>
    var order: seq<int>
    var inferredT1: seq<ASTopologyNode>

    /** Distinct keys hold distinct node objects, so updating one node leaves the others alone. */
    ghost predicate Injective()
      reads this`asData
    {
      forall j, k :: j in asData && k in asData && j != k ==> asData[j] != asData[k]
    }

    /** The value of the map, with its keys in insertion order. */
    function State(): (s: TopologyState)
      reads this`asData, this`order, asData.Values
      ensures s.nodes.Keys == asData.Keys && s.order == order
      ensures forall k :: k in asData ==> s.nodes[k] == asData[k].View()
    {
      TopologyState(map k | k in asData :: asData[k].View(), order)
    }

    ghost predicate Valid()
      reads this`asData, this`order, asData.Values
    {
      Injective() && WellFormed(State())
    }

    /** A topology with no ASes. */
    constructor ()
      ensures Valid() && State() == EMPTY && inferredT1 == []
    {
      asData := map[];
      order := [];
      inferredT1 := [];
    }

    /** Put `node` under `key`, a new key going to the end of the order. */
    method Put(key: int, node: ASTopologyNode)
      requires Valid() && node !in asData.Values
      requires node.View().Valid()
      requires forall c :: c in node.customers ==> c in asData || c == key
      modifies this
      ensures Valid() && State() == Assign(old(State()), key, node.View())
      ensures inferredT1 == old(inferredT1) && asData.Values <= old(asData.Values) + {node}
    {
      AssignWellFormed(State(), key, node.View());
      if key !in asData {
        order := order + [key];
      }
      asData := asData[key := node];
      assert State().nodes == Assign(old(State()), key, node.View()).nodes;
    }

    /** `add_degree(connection)` on the node under `key`, creating it, named `nameIfNew`, first. */
    method AddDegreeAt(key: int, nameIfNew: int, connection: int)
      requires Valid()
      modifies this, asData.Values
      ensures Valid() && State() == ConnectAt(old(State()), key, nameIfNew, connection)
      ensures inferredT1 == old(inferredT1) && fresh(asData.Values - old(asData.Values))
    {
      ghost var s0 := State();
      if key in asData {
        AddDegreeExisting(key, connection);
      } else {
        var node := new ASTopologyNode(nameIfNew);
        node.AddDegree(connection);
        assert State() == s0;
        Put(key, node);
      }
    }

    method AddDegreeExisting(key: int, connection: int)
      requires Valid() && key in asData
      modifies asData[key]
      ensures Valid() && State() == Assign(old(State()), key, old(State()).nodes[key].WithConnection(connection))
    {
      var node := asData[key];
      ghost var s0 := State();
      assert s0.nodes[key] == node.View();
      AssignWellFormed(s0, key, node.View().WithConnection(connection));
      node.AddDegree(connection);
      forall k | k in asData && k != key ensures asData[k].View() == s0.nodes[k] {
        assert asData[k] != node;
      }
      assert State().nodes == Assign(s0, key, s0.nodes[key].WithConnection(connection)).nodes;
    }

    /** `add_prefix(..)` on the node under `key`, creating it, named `nameIfNew`, first. */
    method AddPrefixAt(key: int, nameIfNew: int, p: Prefix)
      requires Valid()
      modifies this, asData.Values
      ensures Valid() && State() == PrefixAt(old(State()), key, nameIfNew, p)
      ensures inferredT1 == old(inferredT1) && fresh(asData.Values - old(asData.Values))
    {
      ghost var s0 := State();
      if key in asData {
        AddPrefixExisting(key, p);
      } else {
        var node := new ASTopologyNode(nameIfNew);
        node.AddPrefix(p.prefix, p.length, p.isIpv6);
        assert State() == s0;
        Put(key, node);
      }
    }

    method AddPrefixExisting(key: int, p: Prefix)
      requires Valid() && key in asData
      modifies asData[key]
      ensures Valid() && State() == Assign(old(State()), key, old(State()).nodes[key].WithPrefix(p))
    {
      var node := asData[key];
      ghost var s0 := State();
      assert s0.nodes[key] == node.View();
      AssignWellFormed(s0, key, node.View().WithPrefix(p));
      node.AddPrefix(p.prefix, p.length, p.isIpv6);
      forall k | k in asData && k != key ensures asData[k].View() == s0.nodes[k] {
        assert asData[k] != node;
      }
      assert State().nodes == Assign(s0, key, s0.nodes[key].WithPrefix(p)).nodes;
    }

    /** `add_customer(customer)` on the node under `key`. */
    method AddCustomerAt(key: int, customer: int)
      requires Valid() && key in asData && customer in asData
      modifies asData[key]
      ensures Valid() && State() == Assign(old(State()), key, old(State()).nodes[key].WithCustomer(customer))
    {
      var node := asData[key];
      ghost var s0 := State();
      assert s0.nodes[key] == node.View();
      AssignWellFormed(s0, key, node.View().WithCustomer(customer));
      node.AddCustomer(customer);
      forall k | k in asData && k != key ensures asData[k].View() == s0.nodes[k] {
        assert asData[k] != node;
      }
      assert State().nodes == Assign(s0, key, s0.nodes[key].WithCustomer(customer)).nodes;
    }

    /** One classification line: a fresh classified node replaces whatever was under its AS. */
    method IngestClassification(l: Line<Classification>)
      requires Valid()
      modifies this, asData.Values
      ensures Valid() && State() == ClassificationStep(old(State()), l)
      ensures inferredT1 == old(inferredT1) && fresh(asData.Values - old(asData.Values))
    {
      if !IsComment(l) {
        ghost var s0 := State();
        var node := new ASTopologyNode(l.fields.asn);
        node.AddClassification(l.fields.classification);
        assert State() == s0;
        Put(l.fields.asn, node);
      }
    }

    /** One relationship line. */
    method IngestRelationship(l: Line<Relationship>)
      requires Valid()
      modifies this, asData.Values
      ensures Valid() && State() == RelationshipStep(old(State()), l)
      ensures inferredT1 == old(inferredT1) && fresh(asData.Values - old(asData.Values))
    {
      if !IsComment(l) {
        var a, b := l.fields.asA, l.fields.asB;
        ConnectPair(a, b);
        if l.fields.code == -1 {
          AddCustomerAt(a, b);
        }
      }
    }

    /** Both endpoints of a relationship record each other; a new `b` is given the name `a`. */
    method ConnectPair(a: int, b: int)
      requires Valid()
      modifies this, asData.Values
      ensures Valid() && State() == ConnectAt(ConnectAt(old(State()), a, a, b), b, a, a)
      ensures a in asData && b in asData
      ensures inferredT1 == old(inferredT1) && fresh(asData.Values - old(asData.Values))
    {
      AddDegreeAt(a, a, b);
      AddDegreeAt(b, a, a);
    }

    /** One prefix line; a new node is named by the prefix length. */
    method IngestPrefix(r: PrefixRecord, isIpv6: bool)
      requires Valid()
      modifies this, asData.Values
      ensures Valid() && State() == PrefixStep(old(State()), r, isIpv6)
      ensures inferredT1 == old(inferredT1) && fresh(asData.Values - old(asData.Values))
    {
      AddPrefixAt(r.asn, r.length, Prefix(r.prefix, r.length, isIpv6));
    }

    /** The four record passes of `run`, in order. */
    method BuildGraph(cls: seq<Line<Classification>>, rels: seq<Line<Relationship>>,
                      v4: seq<PrefixRecord>, v6: seq<PrefixRecord>)
      requires Valid()
      modifies this, asData.Values
      ensures Valid() && State() == Build(old(State()), cls, rels, v4, v6)
      ensures inferredT1 == old(inferredT1) && fresh(asData.Values - old(asData.Values))
    {
      IngestGraphLines(cls, rels);
      IngestPrefixPasses(v4, v6);
    }

    /** The classification and relationship passes. */
    method IngestGraphLines(cls: seq<Line<Classification>>, rels: seq<Line<Relationship>>)
      requires Valid()
      modifies this, asData.Values
      ensures Valid() && State() == IngestRelationships(IngestClassifications(old(State()), cls), rels)
      ensures inferredT1 == old(inferredT1) && fresh(asData.Values - old(asData.Values))
    {
      IngestClassificationLines(cls);
      IngestRelationshipLines(rels);
    }

    /** The IPv4 and IPv6 prefix passes. */
    method IngestPrefixPasses(v4: seq<PrefixRecord>, v6: seq<PrefixRecord>)
      requires Valid()
      modifies this, asData.Values
      ensures Valid() && State() == IngestPrefixes(IngestPrefixes(old(State()), v4, false), v6, true)
      ensures inferredT1 == old(inferredT1) && fresh(asData.Values - old(asData.Values))
    {
      IngestPrefixLines(v4, false);
      IngestPrefixLines(v6, true);
    }

    /** The classification pass, line by line. */
    method IngestClassificationLines(cls: seq<Line<Classification>>)
      requires Valid()
      modifies this, asData.Values
      ensures Valid() && State() == IngestClassifications(old(State()), cls)
      ensures inferredT1 == old(inferredT1) && fresh(asData.Values - old(asData.Values))
    {
      ghost var s0 := State();
      for i := 0 to |cls|
        invariant Valid() && State() == IngestClassifications(s0, cls[..i])
        invariant inferredT1 == old(inferredT1) && fresh(asData.Values - old(asData.Values))
      {
        IngestClassification(cls[i]);
        assert cls[..i + 1][..i] == cls[..i];
      }
      assert cls[..|cls|] == cls;
    }

    /** The relationship pass, line by line. */
    method IngestRelationshipLines(rels: seq<Line<Relationship>>)
      requires Valid()
      modifies this, asData.Values
      ensures Valid() && State() == IngestRelationships(old(State()), rels)
      ensures inferredT1 == old(inferredT1) && fresh(asData.Values - old(asData.Values))
    {
      ghost var s0 := State();
      for i := 0 to |rels|
        invariant Valid() && State() == IngestRelationships(s0, rels[..i])
        invariant inferredT1 == old(inferredT1) && fresh(asData.Values - old(asData.Values))
      {
        IngestRelationship(rels[i]);
        assert rels[..i + 1][..i] == rels[..i];
      }
      assert rels[..|rels|] == rels;
    }

    /** One prefix pass (IPv4 or IPv6), line by line. */
    method IngestPrefixLines(rs: seq<PrefixRecord>, isIpv6: bool)
      requires Valid()
      modifies this, asData.Values
      ensures Valid() && State() == IngestPrefixes(old(State()), rs, isIpv6)
      ensures inferredT1 == old(inferredT1) && fresh(asData.Values - old(asData.Values))
    {
      ghost var s0 := State();
      for i := 0 to |rs|
        invariant Valid() && State() == IngestPrefixes(s0, rs[..i], isIpv6)
        invariant inferredT1 == old(inferredT1) && fresh(asData.Values - old(asData.Values))
      {
        IngestPrefix(rs[i], isIpv6);
        assert rs[..i + 1][..i] == rs[..i];
      }
      assert rs[..|rs|] == rs;
    }

    /** `_recursive_boi`: walk the customers of `node` (stored under `key`), appending each one
        not yet in the backlog, then walking its own customers. Returns the number of ASes
        appended, their prefix count, their IPv4 address count, and the extended backlog.
        `cg` and `pm` are the customer lists and prefix lists of the map. */
    method ConeWalk(node: ASTopologyNode, ghost key: int, backlog: seq<int>, ghost cg: CustomerGraph, ghost pm: PrefixMap)
        returns (sum: nat, ipPrefix: nat, ipOut: nat, newBacklog: seq<int>)
      requires Closed(cg) && Ipv4LengthsOkAll(pm) && cg.Keys == asData.Keys == pm.Keys
      requires forall k :: k in asData ==> asData[k].customers == cg[k] && asData[k].ipPrefixes == pm[k]
      requires key in asData && asData[key] == node
      ensures newBacklog == Walk(cg, key, backlog)
      ensures |backlog| <= |newBacklog| && sum == |newBacklog| - |backlog|
      ensures ipPrefix == ConePrefixes(pm, newBacklog[|backlog|..])
      ensures ipOut == ConeIpv4(pm, newBacklog[|backlog|..])
      decreases Unvisited(cg, backlog), 1
    {
      var customers := node.customers;
      assert customers == cg[key];
      sum, ipPrefix, ipOut, newBacklog := 0, 0, 0, backlog;
      WalkProgressStart(cg, pm, key, backlog);
      var i := 0;
      while i < |customers|
        invariant 0 <= i <= |customers|
        invariant WalkProgress(cg, pm, key, backlog, customers[i..], newBacklog, sum, ipPrefix, ipOut)
      {
        var customer := customers[i];
        assert customers[i..][0] == customer && customers[i..][1..] == customers[i + 1..];
        if customer in newBacklog {
          WalkProgressSkip(cg, pm, key, backlog, customers[i..], newBacklog, sum, ipPrefix, ipOut);
        } else {
          WalkProgressVisit(cg, pm, key, backlog, customers[i..], newBacklog, sum, ipPrefix, ipOut);
          var s, p, o, b := VisitCustomer(customer, newBacklog, cg, pm);
          WalkProgressAdvance(cg, pm, key, backlog, customers[i..], newBacklog, sum, ipPrefix, ipOut, b);
          sum, ipPrefix, ipOut, newBacklog := sum + s, ipPrefix + p, ipOut + o, b;
        }
        i := i + 1;
      }
      assert customers[i..] == [];
    }

    /** The body of the customer loop for a customer not yet in the backlog: append it, count
        its own addresses and prefixes, and walk its customers. */
    method VisitCustomer(customer: int, backlog: seq<int>, ghost cg: CustomerGraph, ghost pm: PrefixMap)
        returns (sum: nat, ipPrefix: nat, ipOut: nat, newBacklog: seq<int>)
      requires Closed(cg) && Ipv4LengthsOkAll(pm) && cg.Keys == asData.Keys == pm.Keys
      requires forall k :: k in asData ==> asData[k].customers == cg[k] && asData[k].ipPrefixes == pm[k]
      requires customer in asData && customer !in backlog
      ensures newBacklog == Walk(cg, customer, backlog + [customer])
      ensures |backlog| < |newBacklog| && newBacklog[..|backlog|] == backlog
      ensures sum == |newBacklog| - |backlog|
      ensures ipPrefix == ConePrefixes(pm, newBacklog[|backlog|..])
      ensures ipOut == ConeIpv4(pm, newBacklog[|backlog|..])
      decreases Unvisited(cg, backlog), 0
    {
      var c := asData[customer];
      assert c.ipPrefixes == pm[customer];
      var v4 := c.NumberOfIpv4Addresses();
      UnvisitedShrinks(cg, backlog, customer);
      var s2, p2, o2, b2 := ConeWalk(c, customer, backlog + [customer], cg, pm);
      PrefixTrans(backlog, backlog + [customer], b2);
      WalkStepSums(pm, backlog, customer, b2);
      sum, ipPrefix, ipOut, newBacklog := 1 + s2, |c.ipPrefixes| + p2, v4 + o2, b2;
    }

    /** The per-node body of the cone loop for the node under `key`: walk its cone with an empty
        backlog, then store the count plus one, the prefix total plus its own prefixes, and the
        IPv4 total plus its own addresses. `s0` is the map before the cone loop. */
    method ConeTotalsAt(key: int, ghost s0: TopologyState)
      requires Injective() && CustomersAreKeys(s0) && Ipv4LengthsEverywhere(s0)
      requires asData.Keys == s0.nodes.Keys && key in asData && asData[key].View() == s0.nodes[key]
      requires forall k :: k in asData ==> asData[k].customers == s0.nodes[k].customers && asData[k].ipPrefixes == s0.nodes[k].ipPrefixes
      modifies asData[key]
      ensures asData[key].View() == ConeTotals(s0, key)
      ensures forall k :: k in asData ==> asData[k].customers == old(asData[k].customers) && asData[k].ipPrefixes == old(asData[k].ipPrefixes)
      ensures forall k :: k in asData && k != key ==> asData[k].View() == old(asData[k].View())
      ensures asData == old(asData)
    {
      var node := asData[key];
      ghost var cg, pm := CustomersOf(s0.nodes), PrefixesOf(s0.nodes);
      CustomerGraphClosed(s0);
      PrefixMapLengths(s0);
      var sum, ipPrefix, ipOut, backlog := ConeWalk(node, key, [], cg, pm);
      assert backlog == ConeOf(s0, key);
      assert backlog[0..] == backlog;
      var v4 := node.NumberOfIpv4Addresses();
      node.SetConeRanking(sum + 1);
      node.SetTotalIpPrefixOutreach(ipPrefix + |node.ipPrefixes|);
      node.SetIpv4Outreach(ipOut + v4);
      assert forall k :: k in asData && k != key ==> asData[k] != node;
    }

    /** Iteration `i` of the cone loop: the node under `order[i]` gets its totals. */
    method ConeLoopStep(i: nat, ghost s0: TopologyState)
      requires Injective() && CustomersAreKeys(s0) && Ipv4LengthsEverywhere(s0) && OrderMatches(s0)
      requires asData.Keys == s0.nodes.Keys && order == s0.order && i < |order|
      requires forall k :: k in asData ==> asData[k].View() == ConesUpTo(s0, i)[k]
      requires forall k :: k in asData ==> asData[k].customers == s0.nodes[k].customers && asData[k].ipPrefixes == s0.nodes[k].ipPrefixes
      modifies asData.Values
      ensures forall k :: k in asData ==> asData[k].View() == ConesUpTo(s0, i + 1)[k]
      ensures forall k :: k in asData ==> asData[k].customers == s0.nodes[k].customers && asData[k].ipPrefixes == s0.nodes[k].ipPrefixes
    {
      ConesUpToStep(s0, i);
      ConeTotalsAt(order[i], s0);
    }

    /** The cone loop of `run`: every node, in key order, gets its cone totals; customer lists and
        prefixes are only read, so each walk sees the map as the record passes left it. */
    method ComputeCones()
      requires Valid() && Ipv4LengthsEverywhere(State())
      modifies asData.Values
      ensures Valid() && State() == WithCones(old(State()))
    {
      ghost var s0 := State();
      for i := 0 to |order|
        invariant forall k :: k in asData ==> asData[k].View() == ConesUpTo(s0, i)[k]
        invariant forall k :: k in asData ==> asData[k].customers == s0.nodes[k].customers && asData[k].ipPrefixes == s0.nodes[k].ipPrefixes
      {
        ConeLoopStep(i, s0);
      }
      ConesUpToAll(s0);
      SameState(State(), WithCones(s0));
      WithConesWellFormed(s0);
    }

    /** `run` after the file reads: the record passes, then the degree sort and the clique scan
        (where `R[0]` on an empty map fails), then the cone loop; the clique's nodes are kept. */
    method Run(cls: seq<Line<Classification>>, rels: seq<Line<Relationship>>,
               v4: seq<PrefixRecord>, v6: seq<PrefixRecord>) returns (outcome: RunOutcome)
      requires Valid() && Ipv4LengthsEverywhere(State()) && Ipv4RecordLengthsOk(v4)
      modifies this, asData.Values
      ensures Valid()
      ensures var b := Build(old(State()), cls, rels, v4, v6);
        && (b.order == [] ==> outcome == NoNodes && State() == b)
        && (b.order != [] ==> WellFormed(b) && Ipv4LengthsEverywhere(b) && outcome == Completed(InferredTier1(b)) && State() == WithCones(b))
      ensures outcome == NoNodes ==> inferredT1 == old(inferredT1)
      ensures outcome.Completed? ==>
        && |inferredT1| == |outcome.tier1|
        && forall i :: 0 <= i < |inferredT1| ==> outcome.tier1[i] in asData && inferredT1[i] == asData[outcome.tier1[i]]
    {
      ghost var s0 := State();
      BuildKeepsIpv4Lengths(s0, cls, rels, v4, v6);
      BuildWellFormed(s0, cls, rels, v4, v6);
      BuildGraph(cls, rels, v4, v6);
      if order == [] {
        return NoNodes;
      }
      var s := CliqueAndCones();
      outcome := Completed(s);
    }

    /** The part of `run` after the record passes, on a non-empty map: the clique scan over the
        degree order, the cone loop, and the clique's nodes stored in `inferredT1`. */
    method CliqueAndCones() returns (s: seq<int>)
      requires Valid() && Ipv4LengthsEverywhere(State()) && |order| > 0
      modifies this`inferredT1, asData.Values
      ensures Valid() && s == InferredTier1(old(State())) && State() == WithCones(old(State()))
      ensures |inferredT1| == |s| && forall i :: 0 <= i < |s| ==> s[i] in asData && inferredT1[i] == asData[s[i]]
    {
      var st := State();
      s := Clique(st);
      assert State() == st;
      ComputeCones();
      assert State() == WithCones(st);
      StoreClique(s);
    }

    /** `self._inferred_T1 = S`: the clique's node objects, in clique order. */
    method StoreClique(s: seq<int>)
      requires forall i :: 0 <= i < |s| ==> s[i] in asData
      modifies this`inferredT1
      ensures |inferredT1| == |s| && forall i :: 0 <= i < |s| ==> inferredT1[i] == asData[s[i]]
      ensures State() == old(State()) && (old(Valid()) ==> Valid())
    {
      var nodes := asData;
      inferredT1 := seq(|s|, i requires 0 <= i < |s| => nodes[s[i]]);
    }

    /** `_show_node_degree`'s counts over the nodes in key order. */
    method NodeDegreeBins() returns (bins: seq<nat>)
      requires Valid()
      ensures bins == DegreeHistogram(Values(State()))
      ensures Sum6(bins) == |asData|
    {
      ghost var vs := Values(State());
      assert forall i :: 0 <= i < |order| ==> order[i] in order;
      bins := [0, 0, 0, 0, 0, 0];
      for i := 0 to |order|
        invariant |bins| == 6 && bins == DegreeHistogram(vs[..i])
      {
        assert vs[..i + 1][..i] == vs[..i];
        var degree := asData[order[i]].degree;
        assert degree == vs[i].degree;
        if degree == 1 {
          bins := bins[0 := bins[0] + 1];
        } else if degree <= 5 {
          bins := bins[1 := bins[1] + 1];
        } else if degree <= 100 {
          bins := bins[2 := bins[2] + 1];
        } else if degree <= 200 {
          bins := bins[3 := bins[3] + 1];
        } else if degree <= 1000 {
          bins := bins[4 := bins[4] + 1];
        } else {
          bins := bins[5 := bins[5] + 1];
        }
      }
      assert vs[..|order|] == vs;
      DegreeBinsPartition(vs);
      OrderCountsKeys(State());
    }

    /** `_show_modified_classification_distribution`'s counts over the nodes in key order. */
    method ClassificationDistributionBins() returns (bins: seq<nat>)
      requires Valid()
      ensures bins == ClassificationHistogram(Values(State()))
      ensures Sum6(bins) == ChartedCount(Values(State()))
    {
      ghost var vs := Values(State());
      assert forall i :: 0 <= i < |order| ==> order[i] in order;
      bins := [0, 0, 0, 0, 0, 0];
      for i := 0 to |order|
        invariant |bins| == 6 && bins == ClassificationHistogram(vs[..i])
      {
        assert vs[..i + 1][..i] == vs[..i];
        var item := asData[order[i]];
        assert item.View() == vs[i];
        if item.classification == Some("Content") {
          if item.degree > 0 && |item.customers| == 0 {
            bins := bins[0 := bins[0] + 1];
          } else {
            bins := bins[1 := bins[1] + 1];
          }
        } else if item.classification == Some("Transit/Access") {
          if |item.customers| > 0 {
            bins := bins[2 := bins[2] + 1];
          } else {
            bins := bins[3 := bins[3] + 1];
          }
        } else if item.classification == Some("Enterprise") {
          if |item.customers| == 0 && item.degree == 0 {
            bins := bins[4 := bins[4] + 1];
          } else {
            bins := bins[5 := bins[5] + 1];
          }
        }
      }
      assert vs[..|order|] == vs;
      ClassificationBinsPartition(vs);
    }
  }

  /** The degree sort of `run` and the clique scan over it. */
  method Clique(st: TopologyState) returns (s: seq<int>)
    requires WellFormed(st) && |st.order| > 0
    ensures s == InferredTier1(st) && forall i :: 0 <= i < |s| ==> s[i] in st.nodes
  {
    assert Tier1.AllIn(st.nodes, st.order);
    var r := Tier1.SortByDegree(st.nodes, st.order);
    assert |r| > 0 by {
      assert st.order[0] in multiset(st.order);
    }
    s := Tier1.InferTier1(st.nodes, r);
  }
}
