/**
 * The topology as a value: the AS map with its keys in insertion order (the
 * iteration order of the dictionary), the effect of each input record on it,
 * the cone totals every node receives, and the inferred Tier-1 clique.
 *
 * The record passes reproduce the source's labelling of synthesized nodes: a
 * relationship record (a, b, code) that first mentions b stores the new node
 * under key b but names it a, and a prefix record that first mentions its AS
 * names the new node by the prefix length.
 */
module TopologySpec {
  import opened Wrappers
  import opened Seqs
  import opened ASNode
  import opened CustomerCone
  import Tier1

  /** One input line after tokenizing; `text` is the raw line. */
  datatype Line<T> = Line(text: string, fields: T)

  /** The classification and relationship passes skip every line holding a '#'. */
  predicate IsComment<T>(l: Line<T>)
  {
    '#' in l.text
  }

  /** `as_number|source|classification` */
  datatype Classification = Classification(asn: int, classification: string)

  /** `as_a|as_b|code`; code -1 means as_a is the provider of as_b. */
  datatype Relationship = Relationship(asA: int, asB: int, code: int)

  /** `prefix length as_number` from the IPv4 or the IPv6 stream. */
  datatype PrefixRecord = PrefixRecord(prefix: string, length: int, asn: int)

  /** The AS map, and its keys in the order they were first inserted. */
  datatype TopologyState = TopologyState(nodes: map<int, NodeView>, order: seq<int>)

  const EMPTY: TopologyState := TopologyState(map[], [])

  ghost predicate OrderMatches(s: TopologyState)
  {
    && NoDup(s.order)
    && (forall k :: k in s.nodes ==> k in s.order)
    && (forall i :: 0 <= i < |s.order| ==> s.order[i] in s.nodes)
  }

  predicate DegreesMatch(s: TopologyState)
  {
    forall k :: k in s.nodes ==> s.nodes[k].Valid()
  }

  predicate CustomersAreKeys(s: TopologyState)
  {
    forall k, c :: k in s.nodes && c in s.nodes[k].customers ==> c in s.nodes
  }

  ghost predicate WellFormed(s: TopologyState)
  {
    OrderMatches(s) && DegreesMatch(s) && CustomersAreKeys(s)
  }

  /** `d[k] = v`: a new key goes to the end of the order, an existing one keeps its place. */
  function Assign(s: TopologyState, k: int, v: NodeView): TopologyState
  {
    TopologyState(s.nodes[k := v], if k in s.nodes then s.order else s.order + [k])
  }

  /** A classification line replaces any node under its AS number by a fresh classified one. */
  function ClassificationStep(s: TopologyState, l: Line<Classification>): TopologyState
  {
    if IsComment(l) then s
    else Assign(s, l.fields.asn, InitialView(l.fields.asn).WithClassification(l.fields.classification))
  }

  /** `add_degree(c)` on the node under `key`, first creating it, named `nameIfNew`, when absent. */
  function ConnectAt(s: TopologyState, key: int, nameIfNew: int, c: int): TopologyState
  {
    if key in s.nodes then Assign(s, key, s.nodes[key].WithConnection(c))
    else Assign(s, key, InitialView(nameIfNew).WithConnection(c))
  }

  /** A relationship line: both endpoints record each other, and a provider records its customer. */
  function RelationshipStep(s: TopologyState, l: Line<Relationship>): TopologyState
  {
    if IsComment(l) then s
    else
      var a, b := l.fields.asA, l.fields.asB;
      var s1 := ConnectAt(ConnectAt(s, a, a, b), b, a, a);
      if l.fields.code == -1 then Assign(s1, a, s1.nodes[a].WithCustomer(b)) else s1
  }

  /** `add_prefix` on the node under `key`, first creating it, named `nameIfNew`, when absent. */
  function PrefixAt(s: TopologyState, key: int, nameIfNew: int, p: Prefix): TopologyState
  {
    if key in s.nodes then Assign(s, key, s.nodes[key].WithPrefix(p))
    else Assign(s, key, InitialView(nameIfNew).WithPrefix(p))
  }

  /** A prefix line; prefix streams have no comment test. */
  function PrefixStep(s: TopologyState, r: PrefixRecord, isIpv6: bool): TopologyState
  {
    PrefixAt(s, r.asn, r.length, Prefix(r.prefix, r.length, isIpv6))
  }

  function IngestClassifications(s: TopologyState, ls: seq<Line<Classification>>): TopologyState
  {
    if ls == [] then s else ClassificationStep(IngestClassifications(s, ls[..|ls| - 1]), ls[|ls| - 1])
  }

  function IngestRelationships(s: TopologyState, ls: seq<Line<Relationship>>): TopologyState
  {
    if ls == [] then s else RelationshipStep(IngestRelationships(s, ls[..|ls| - 1]), ls[|ls| - 1])
  }

  function IngestPrefixes(s: TopologyState, rs: seq<PrefixRecord>, isIpv6: bool): TopologyState
  {
    if rs == [] then s else PrefixStep(IngestPrefixes(s, rs[..|rs| - 1], isIpv6), rs[|rs| - 1], isIpv6)
  }

  /** The four passes, in the order the source runs them. */
  function Build(s: TopologyState, cls: seq<Line<Classification>>, rels: seq<Line<Relationship>>,
                 v4: seq<PrefixRecord>, v6: seq<PrefixRecord>): TopologyState
  {
    IngestPrefixes(IngestPrefixes(IngestRelationships(IngestClassifications(s, cls), rels), v4, false), v6, true)
  }

  lemma AssignWellFormed(s: TopologyState, k: int, v: NodeView)
    requires WellFormed(s) && v.Valid()
    requires forall c :: c in v.customers ==> c in s.nodes || c == k
    ensures WellFormed(Assign(s, k, v))
  {
    var r := Assign(s, k, v);
    if k !in s.nodes {
      assert k !in s.order;
      forall i, j | 0 <= i < j < |r.order| ensures r.order[i] != r.order[j] {
        if j == |s.order| {
          assert r.order[i] == s.order[i];
        }
      }
    }
  }

  /** Every record pass keeps the map well formed: keys and order agree, degrees count
      neighbours, and every customer is a key. */
  lemma StepsPreserveWellFormed(s: TopologyState, cl: Line<Classification>, rl: Line<Relationship>,
                                pr: PrefixRecord, isIpv6: bool)
    requires WellFormed(s)
    ensures WellFormed(ClassificationStep(s, cl))
    ensures WellFormed(RelationshipStep(s, rl))
    ensures WellFormed(PrefixStep(s, pr, isIpv6))
  {
    if !IsComment(cl) {
      AssignWellFormed(s, cl.fields.asn, InitialView(cl.fields.asn).WithClassification(cl.fields.classification));
    }
    if !IsComment(rl) {
      var a, b := rl.fields.asA, rl.fields.asB;
      var s0 := ConnectAt(s, a, a, b);
      if a in s.nodes {
        AssignWellFormed(s, a, s.nodes[a].WithConnection(b));
      } else {
        AssignWellFormed(s, a, InitialView(a).WithConnection(b));
      }
      var s1 := ConnectAt(s0, b, a, a);
      if b in s0.nodes {
        AssignWellFormed(s0, b, s0.nodes[b].WithConnection(a));
      } else {
        AssignWellFormed(s0, b, InitialView(a).WithConnection(a));
      }
      if rl.fields.code == -1 {
        AssignWellFormed(s1, a, s1.nodes[a].WithCustomer(b));
      }
    }
    var p := Prefix(pr.prefix, pr.length, isIpv6);
    if pr.asn in s.nodes {
      AssignWellFormed(s, pr.asn, s.nodes[pr.asn].WithPrefix(p));
    } else {
      AssignWellFormed(s, pr.asn, InitialView(pr.length).WithPrefix(p));
    }
  }

  lemma {:induction false} IngestClassificationsWellFormed(s: TopologyState, ls: seq<Line<Classification>>)
    requires WellFormed(s)
    ensures WellFormed(IngestClassifications(s, ls))
  {
    if ls != [] {
      IngestClassificationsWellFormed(s, ls[..|ls| - 1]);
      StepsPreserveWellFormed(IngestClassifications(s, ls[..|ls| - 1]), ls[|ls| - 1], Line("#", Relationship(0, 0, 0)), PrefixRecord("", 0, 0), false);
    }
  }

  lemma {:induction false} IngestRelationshipsWellFormed(s: TopologyState, ls: seq<Line<Relationship>>)
    requires WellFormed(s)
    ensures WellFormed(IngestRelationships(s, ls))
  {
    if ls != [] {
      IngestRelationshipsWellFormed(s, ls[..|ls| - 1]);
      StepsPreserveWellFormed(IngestRelationships(s, ls[..|ls| - 1]), Line("#", Classification(0, "")), ls[|ls| - 1], PrefixRecord("", 0, 0), false);
    }
  }

  lemma {:induction false} IngestPrefixesWellFormed(s: TopologyState, rs: seq<PrefixRecord>, isIpv6: bool)
    requires WellFormed(s)
    ensures WellFormed(IngestPrefixes(s, rs, isIpv6))
  {
    if rs != [] {
      IngestPrefixesWellFormed(s, rs[..|rs| - 1], isIpv6);
      StepsPreserveWellFormed(IngestPrefixes(s, rs[..|rs| - 1], isIpv6), Line("#", Classification(0, "")), Line("#", Relationship(0, 0, 0)), rs[|rs| - 1], isIpv6);
    }
  }

  /** After the four passes every customer ID is a key, so the cone walk can look each one up. */
  lemma BuildWellFormed(s: TopologyState, cls: seq<Line<Classification>>, rels: seq<Line<Relationship>>,
                        v4: seq<PrefixRecord>, v6: seq<PrefixRecord>)
    requires WellFormed(s)
    ensures WellFormed(Build(s, cls, rels, v4, v6))
  {
    IngestClassificationsWellFormed(s, cls);
    var s1 := IngestClassifications(s, cls);
    IngestRelationshipsWellFormed(s1, rels);
    var s2 := IngestRelationships(s1, rels);
    IngestPrefixesWellFormed(s2, v4, false);
    IngestPrefixesWellFormed(IngestPrefixes(s2, v4, false), v6, true);
  }

  function ConnectionsOf(s: TopologyState, k: int): seq<int>
  {
    if k in s.nodes then s.nodes[k].connections else []
  }

  function DegreeOf(s: TopologyState, k: int): int
  {
    if k in s.nodes then s.nodes[k].degree else 0
  }

  function CustomerListOf(s: TopologyState, k: int): seq<int>
  {
    if k in s.nodes then s.nodes[k].customers else []
  }

  function PrefixListOf(s: TopologyState, k: int): seq<Prefix>
  {
    if k in s.nodes then s.nodes[k].ipPrefixes else []
  }

  /** One relationship record: a non-comment (a, b, code) makes `a` and `b` keys, appends `b` to
      a's neighbours and `a` to b's, appends `b` to a's customers iff code is -1, names a newly
      created `b` node `a`, and leaves every other node as it was. A comment line changes nothing. */
  lemma RelationshipStepEffect(s: TopologyState, l: Line<Relationship>)
    ensures IsComment(l) ==> RelationshipStep(s, l) == s
    ensures !IsComment(l) ==>
      var r, a, b := RelationshipStep(s, l), l.fields.asA, l.fields.asB;
      && r.nodes.Keys == s.nodes.Keys + {a, b}
      && ConnectionsOf(r, a) == ConnectionsOf(s, a) + (if a == b then [b, a] else [b])
      && (a != b ==> ConnectionsOf(r, b) == ConnectionsOf(s, b) + [a])
      && CustomerListOf(r, a) == CustomerListOf(s, a) + (if l.fields.code == -1 then [b] else [])
      && (a != b ==> CustomerListOf(r, b) == CustomerListOf(s, b))
      && (b !in s.nodes && a != b ==> r.nodes[b].name == a)
      && (forall k :: k in s.nodes && k != a && k != b ==> r.nodes[k] == s.nodes[k])
  {
  }

  /** One prefix record (prefix, length, asn): `asn` becomes a key, the prefix is appended to its
      list tagged with the stream's family, a newly created node is named by the prefix length
      and has no neighbours, customers or classification, and every other node is unchanged. */
  lemma PrefixStepEffect(s: TopologyState, pr: PrefixRecord, isIpv6: bool)
    ensures var r, k := PrefixStep(s, pr, isIpv6), pr.asn;
      && r.nodes.Keys == s.nodes.Keys + {k}
      && PrefixListOf(r, k) == PrefixListOf(s, k) + [Prefix(pr.prefix, pr.length, isIpv6)]
      && (k in s.nodes ==> r.nodes[k] == s.nodes[k].WithPrefix(Prefix(pr.prefix, pr.length, isIpv6)))
      && (k !in s.nodes ==> r.nodes[k] == InitialView(pr.length).WithPrefix(Prefix(pr.prefix, pr.length, isIpv6)))
      && (forall j :: j in s.nodes && j != k ==> r.nodes[j] == s.nodes[j])
  {
  }

  /** Connections a relationship stream contributes to AS `k`, in order: for each record (a, b),
      `b` when k is a, then `a` when k is b. Repeated records count each time. */
  function ConnectionsFrom(ls: seq<Line<Relationship>>, k: int): seq<int>
  {
    if ls == [] then []
    else
      var l := ls[|ls| - 1];
      ConnectionsFrom(ls[..|ls| - 1], k) +
        (if IsComment(l) then []
         else (if l.fields.asA == k then [l.fields.asB] else []) + (if l.fields.asB == k then [l.fields.asA] else []))
  }

  /** Customers a relationship stream contributes to AS `k`, in order. */
  function CustomersFrom(ls: seq<Line<Relationship>>, k: int): seq<int>
  {
    if ls == [] then []
    else
      var l := ls[|ls| - 1];
      CustomersFrom(ls[..|ls| - 1], k) +
        (if !IsComment(l) && l.fields.asA == k && l.fields.code == -1 then [l.fields.asB] else [])
  }

  /** What one `add_degree` contributes to AS `k`. */
  lemma ConnectAtAt(p: TopologyState, key: int, nameIfNew: int, c: int, k: int)
    ensures var r := ConnectAt(p, key, nameIfNew, c);
      && (k in r.nodes <==> k in p.nodes || k == key)
      && ConnectionsOf(r, k) == ConnectionsOf(p, k) + (if k == key then [c] else [])
      && DegreeOf(r, k) == DegreeOf(p, k) + (if k == key then 1 else 0)
      && CustomerListOf(r, k) == CustomerListOf(p, k)
      && PrefixListOf(r, k) == PrefixListOf(p, k)
  {
  }

  /** What one relationship record contributes to AS `k`. */
  lemma RelationshipStepAt(p: TopologyState, l: Line<Relationship>, k: int)
    ensures var r := RelationshipStep(p, l);
      var extra := if IsComment(l) then []
                   else (if l.fields.asA == k then [l.fields.asB] else []) + (if l.fields.asB == k then [l.fields.asA] else []);
      && (k in r.nodes <==> k in p.nodes || extra != [])
      && ConnectionsOf(r, k) == ConnectionsOf(p, k) + extra
      && DegreeOf(r, k) == DegreeOf(p, k) + |extra|
      && CustomerListOf(r, k) == CustomerListOf(p, k)
           + (if !IsComment(l) && l.fields.asA == k && l.fields.code == -1 then [l.fields.asB] else [])
      && PrefixListOf(r, k) == PrefixListOf(p, k)
  {
    if !IsComment(l) {
      var a, b := l.fields.asA, l.fields.asB;
      var p1 := ConnectAt(p, a, a, b);
      ConnectAtAt(p, a, a, b, k);
      ConnectAtAt(p1, b, a, a, k);
      ConnectAtAt(p, a, a, b, a);
      ConnectAtAt(p1, b, a, a, a);
    }
  }

  /** The relationship pass appends, per AS, exactly the neighbours and customers its records
      name, adds one degree per neighbour entry, and leaves the prefixes alone. */
  lemma {:induction false} RelationshipsAccumulate(s: TopologyState, ls: seq<Line<Relationship>>, k: int)
    ensures var r := IngestRelationships(s, ls);
      && (k in r.nodes <==> k in s.nodes || ConnectionsFrom(ls, k) != [])
      && ConnectionsOf(r, k) == ConnectionsOf(s, k) + ConnectionsFrom(ls, k)
      && DegreeOf(r, k) == DegreeOf(s, k) + |ConnectionsFrom(ls, k)|
      && CustomerListOf(r, k) == CustomerListOf(s, k) + CustomersFrom(ls, k)
      && PrefixListOf(r, k) == PrefixListOf(s, k)
  {
    RelationshipsAccumulateConnections(s, ls, k);
    RelationshipsAccumulateCustomers(s, ls, k);
  }

  lemma {:induction false} RelationshipsAccumulateConnections(s: TopologyState, ls: seq<Line<Relationship>>, k: int)
    ensures var r := IngestRelationships(s, ls);
      && (k in r.nodes <==> k in s.nodes || ConnectionsFrom(ls, k) != [])
      && ConnectionsOf(r, k) == ConnectionsOf(s, k) + ConnectionsFrom(ls, k)
      && DegreeOf(r, k) == DegreeOf(s, k) + |ConnectionsFrom(ls, k)|
  {
    if ls != [] {
      var init := ls[..|ls| - 1];
      RelationshipsAccumulateConnections(s, init, k);
      RelationshipStepAt(IngestRelationships(s, init), ls[|ls| - 1], k);
    }
  }

  lemma {:induction false} RelationshipsAccumulateCustomers(s: TopologyState, ls: seq<Line<Relationship>>, k: int)
    ensures var r := IngestRelationships(s, ls);
      && CustomerListOf(r, k) == CustomerListOf(s, k) + CustomersFrom(ls, k)
      && PrefixListOf(r, k) == PrefixListOf(s, k)
  {
    if ls != [] {
      var init := ls[..|ls| - 1];
      RelationshipsAccumulateCustomers(s, init, k);
      RelationshipStepAt(IngestRelationships(s, init), ls[|ls| - 1], k);
    }
  }

  /** Prefixes a prefix stream contributes to AS `k`, in order, tagged with the stream's family. */
  function PrefixesFrom(rs: seq<PrefixRecord>, isIpv6: bool, k: int): seq<Prefix>
  {
    if rs == [] then []
    else
      var r := rs[|rs| - 1];
      PrefixesFrom(rs[..|rs| - 1], isIpv6, k) + (if r.asn == k then [Prefix(r.prefix, r.length, isIpv6)] else [])
  }

  /** A prefix pass appends to each AS exactly its records' prefixes, tagged with the family, and
      leaves neighbours, degree and customers alone. */
  lemma {:induction false} PrefixesAccumulate(s: TopologyState, rs: seq<PrefixRecord>, isIpv6: bool, k: int)
    ensures var r := IngestPrefixes(s, rs, isIpv6);
      && (k in r.nodes <==> k in s.nodes || PrefixesFrom(rs, isIpv6, k) != [])
      && PrefixListOf(r, k) == PrefixListOf(s, k) + PrefixesFrom(rs, isIpv6, k)
      && ConnectionsOf(r, k) == ConnectionsOf(s, k)
      && DegreeOf(r, k) == DegreeOf(s, k)
      && CustomerListOf(r, k) == CustomerListOf(s, k)
  {
    if rs != [] {
      PrefixesAccumulate(s, rs[..|rs| - 1], isIpv6, k);
    }
  }

  /** The classification of the last non-comment line for `k`, if any. */
  function LastClassification(ls: seq<Line<Classification>>, k: int): Option<string>
  {
    if ls == [] then None
    else
      var l := ls[|ls| - 1];
      if !IsComment(l) && l.fields.asn == k then Some(l.fields.classification)
      else LastClassification(ls[..|ls| - 1], k)
  }

  /** The classification pass leaves under `k` a fresh node carrying k's last classification,
      or, when no line names k, whatever was there before. */
  lemma {:induction false} ClassificationsReplace(s: TopologyState, ls: seq<Line<Classification>>, k: int)
    ensures var r := IngestClassifications(s, ls);
      match LastClassification(ls, k)
      case Some(c) => k in r.nodes && r.nodes[k] == InitialView(k).WithClassification(c)
      case None => (k in r.nodes <==> k in s.nodes) && (k in s.nodes ==> r.nodes[k] == s.nodes[k])
  {
    if ls != [] {
      ClassificationsReplace(s, ls[..|ls| - 1], k);
    }
  }

  predicate Ipv4RecordLengthsOk(rs: seq<PrefixRecord>)
  {
    forall i :: 0 <= i < |rs| ==> rs[i].length <= 32
  }

  lemma {:induction false} PrefixesKeepIpv4Lengths(s: TopologyState, rs: seq<PrefixRecord>, isIpv6: bool)
    requires Ipv4LengthsEverywhere(s) && (isIpv6 || Ipv4RecordLengthsOk(rs))
    ensures Ipv4LengthsEverywhere(IngestPrefixes(s, rs, isIpv6))
  {
    if rs != [] {
      PrefixesKeepIpv4Lengths(s, rs[..|rs| - 1], isIpv6);
      var p := IngestPrefixes(s, rs[..|rs| - 1], isIpv6);
      var r := rs[|rs| - 1];
      forall k | k in PrefixStep(p, r, isIpv6).nodes
        ensures Ipv4LengthsOk(PrefixStep(p, r, isIpv6).nodes[k].ipPrefixes)
      {
        if k == r.asn {
          var ps := PrefixListOf(p, k) + [Prefix(r.prefix, r.length, isIpv6)];
          assert PrefixStep(p, r, isIpv6).nodes[k].ipPrefixes == ps;
          forall i | 0 <= i < |ps| && !ps[i].isIpv6 ensures ps[i].length <= 32 {
            if i < |ps| - 1 {
              assert ps[i] == PrefixListOf(p, k)[i];
            }
          }
        }
      }
    }
  }

  lemma {:induction false} RelationshipsKeepIpv4Lengths(s: TopologyState, ls: seq<Line<Relationship>>)
    requires Ipv4LengthsEverywhere(s)
    ensures Ipv4LengthsEverywhere(IngestRelationships(s, ls))
  {
    forall k | k in IngestRelationships(s, ls).nodes
      ensures Ipv4LengthsOk(IngestRelationships(s, ls).nodes[k].ipPrefixes)
    {
      RelationshipsAccumulate(s, ls, k);
    }
  }

  lemma {:induction false} ClassificationsKeepIpv4Lengths(s: TopologyState, ls: seq<Line<Classification>>)
    requires Ipv4LengthsEverywhere(s)
    ensures Ipv4LengthsEverywhere(IngestClassifications(s, ls))
  {
    forall k | k in IngestClassifications(s, ls).nodes
      ensures Ipv4LengthsOk(IngestClassifications(s, ls).nodes[k].ipPrefixes)
    {
      ClassificationsReplace(s, ls, k);
    }
  }

  /** With IPv4 prefix lengths of at most 32, every node's IPv4 address count is a whole number
      after the four passes. */
  lemma BuildKeepsIpv4Lengths(s: TopologyState, cls: seq<Line<Classification>>, rels: seq<Line<Relationship>>,
                              v4: seq<PrefixRecord>, v6: seq<PrefixRecord>)
    requires Ipv4LengthsEverywhere(s) && Ipv4RecordLengthsOk(v4)
    ensures Ipv4LengthsEverywhere(Build(s, cls, rels, v4, v6))
  {
    ClassificationsKeepIpv4Lengths(s, cls);
    var s1 := IngestClassifications(s, cls);
    RelationshipsKeepIpv4Lengths(s1, rels);
    var s2 := IngestRelationships(s1, rels);
    PrefixesKeepIpv4Lengths(s2, v4, false);
    PrefixesKeepIpv4Lengths(IngestPrefixes(s2, v4, false), v6, true);
  }

  /** AS -> customers of the map. */
  function CustomersOf(nodes: map<int, NodeView>): (cg: CustomerGraph)
    ensures cg.Keys == nodes.Keys
  {
    map k | k in nodes :: nodes[k].customers
  }

  /** AS -> announced prefixes of the map. */
  function PrefixesOf(nodes: map<int, NodeView>): (pm: PrefixMap)
    ensures pm.Keys == nodes.Keys
  {
    map k | k in nodes :: nodes[k].ipPrefixes
  }

  /** Every IPv4 entry of every node has a length of at most 32. */
  predicate Ipv4LengthsEverywhere(s: TopologyState)
  {
    forall k :: k in s.nodes ==> Ipv4LengthsOk(s.nodes[k].ipPrefixes)
  }

  lemma CustomerGraphClosed(s: TopologyState)
    requires CustomersAreKeys(s)
    ensures Closed(CustomersOf(s.nodes))
  {
  }

  lemma PrefixMapLengths(s: TopologyState)
    requires Ipv4LengthsEverywhere(s)
    ensures Ipv4LengthsOkAll(PrefixesOf(s.nodes))
  {
  }

  /** The walk from `k` with an empty backlog over the map's customer lists. */
  function ConeOf(s: TopologyState, k: int): (cone: seq<int>)
    requires CustomersAreKeys(s) && k in s.nodes
    ensures forall i :: 0 <= i < |cone| ==> cone[i] in s.nodes
  {
    CustomerGraphClosed(s);
    Cone(CustomersOf(s.nodes), k)
  }

  /** Node `k` after the cone pass: cone ranking = walked ASes + 1 (itself); prefix outreach =
      prefixes of the walked ASes + its own; IPv4 outreach = addresses of the walked ASes + its own. */
  function ConeTotals(s: TopologyState, k: int): NodeView
    requires CustomersAreKeys(s) && Ipv4LengthsEverywhere(s) && k in s.nodes
  {
    var cone := ConeOf(s, k);
    var pm := PrefixesOf(s.nodes);
    PrefixMapLengths(s);
    var v := s.nodes[k];
    v.WithConeTotals(|cone| + 1, ConePrefixes(pm, cone) + |v.ipPrefixes|, ConeIpv4(pm, cone) + Ipv4Addresses(v.ipPrefixes))
  }

  /** Every node with its cone totals. */
  function WithCones(s: TopologyState): TopologyState
    requires CustomersAreKeys(s) && Ipv4LengthsEverywhere(s)
  {
    TopologyState(map k | k in s.nodes :: ConeTotals(s, k), s.order)
  }

  /** The cone pass writes only the three cone fields, each from a walk over the unchanged
      customer lists; its coneRanking is one more than the size of the least customer-closed
      set holding the node's customers. */
  lemma ConeTotalsMeaning(s: TopologyState, k: int)
    requires CustomersAreKeys(s) && Ipv4LengthsEverywhere(s) && k in s.nodes
    ensures var r := WithCones(s);
      && r.nodes.Keys == s.nodes.Keys && r.order == s.order
      && r.nodes[k] == s.nodes[k].(coneRanking := r.nodes[k].coneRanking,
                                   prefixOutreach := r.nodes[k].prefixOutreach,
                                   ipv4Outreach := r.nodes[k].ipv4Outreach)
      && var cg := CustomersOf(s.nodes);
      && CustomerClosedSuperset(cg, k, Elems(ConeOf(s, k)))
      && (forall w :: CustomerClosedSuperset(cg, k, w) ==> Elems(ConeOf(s, k)) <= w)
      && r.nodes[k].coneRanking == |Elems(ConeOf(s, k))| + 1
  {
    var cg := CustomersOf(s.nodes);
    CustomerGraphClosed(s);
    forall w | CustomerClosedSuperset(cg, k, w) ensures Elems(ConeOf(s, k)) <= w {
      ConeIsLeastClosedSet(cg, k, w);
    }
    ConeIsLeastClosedSet(cg, k, {});
    ConeCountsEachMemberOnce(cg, k);
  }

  lemma WithConesWellFormed(s: TopologyState)
    requires WellFormed(s) && Ipv4LengthsEverywhere(s)
    ensures WellFormed(WithCones(s)) && Ipv4LengthsEverywhere(WithCones(s))
    ensures CustomersOf(WithCones(s).nodes) == CustomersOf(s.nodes)
    ensures PrefixesOf(WithCones(s).nodes) == PrefixesOf(s.nodes)
  {
    WithConesKeepsOrder(s);
    WithConesKeepsCustomers(s);
    WithConesKeepsPrefixes(s);
  }

  /** Running the cone pass a second time changes nothing: it reads only the customer lists and
      prefixes, which the first pass leaves alone, and overwrites the totals it wrote. */
  lemma WithConesIdempotent(s: TopologyState)
    requires WellFormed(s) && Ipv4LengthsEverywhere(s)
    ensures WellFormed(WithCones(s)) && Ipv4LengthsEverywhere(WithCones(s))
    ensures WithCones(WithCones(s)) == WithCones(s)
  {
    WithConesWellFormed(s);
    var w := WithCones(s);
    forall k | k in s.nodes ensures ConeTotals(w, k) == w.nodes[k] {
      ConeTotalsAgain(s, k);
    }
    assert WithCones(w).nodes == w.nodes;
  }

  /** One node of the second cone pass: the same walk, the same totals, written over equal ones. */
  lemma ConeTotalsAgain(s: TopologyState, k: int)
    requires WellFormed(s) && Ipv4LengthsEverywhere(s) && k in s.nodes
    ensures WellFormed(WithCones(s)) && Ipv4LengthsEverywhere(WithCones(s))
    ensures ConeTotals(WithCones(s), k) == WithCones(s).nodes[k]
  {
    WithConesWellFormed(s);
    var w := WithCones(s);
    assert CustomersOf(w.nodes) == CustomersOf(s.nodes);
    assert ConeOf(w, k) == ConeOf(s, k);
    assert PrefixesOf(w.nodes) == PrefixesOf(s.nodes);
    assert w.nodes[k] == ConeTotals(s, k);
    ConeTotalsKeeps(s, k);
  }

  lemma WithConesKeepsOrder(s: TopologyState)
    requires WellFormed(s) && Ipv4LengthsEverywhere(s)
    ensures OrderMatches(WithCones(s)) && DegreesMatch(WithCones(s))
  {
    WithConesKeepsLists(s);
  }

  lemma WithConesKeepsCustomers(s: TopologyState)
    requires CustomersAreKeys(s) && Ipv4LengthsEverywhere(s)
    ensures CustomersAreKeys(WithCones(s)) && CustomersOf(WithCones(s).nodes) == CustomersOf(s.nodes)
  {
    WithConesKeepsLists(s);
    var r := WithCones(s);
    assert CustomersOf(r.nodes) == CustomersOf(s.nodes);
  }

  lemma WithConesKeepsPrefixes(s: TopologyState)
    requires CustomersAreKeys(s) && Ipv4LengthsEverywhere(s)
    ensures Ipv4LengthsEverywhere(WithCones(s)) && PrefixesOf(WithCones(s).nodes) == PrefixesOf(s.nodes)
  {
    WithConesKeepsLists(s);
    var r := WithCones(s);
    assert PrefixesOf(r.nodes) == PrefixesOf(s.nodes);
  }

  lemma WithConesKeepsLists(s: TopologyState)
    requires CustomersAreKeys(s) && Ipv4LengthsEverywhere(s)
    ensures var r := WithCones(s);
      && r.nodes.Keys == s.nodes.Keys && r.order == s.order
      && forall k :: k in s.nodes ==>
        && r.nodes[k].degree == s.nodes[k].degree && r.nodes[k].connections == s.nodes[k].connections
        && r.nodes[k].customers == s.nodes[k].customers && r.nodes[k].ipPrefixes == s.nodes[k].ipPrefixes
  {
    forall k | k in s.nodes
      ensures WithCones(s).nodes[k] == ConeTotals(s, k)
    {
    }
    forall k | k in s.nodes {
      ConeTotalsKeeps(s, k);
    }
  }

  /** The cone totals leave the neighbour lists, customers and prefixes alone. */
  lemma ConeTotalsKeeps(s: TopologyState, k: int)
    requires CustomersAreKeys(s) && Ipv4LengthsEverywhere(s) && k in s.nodes
    ensures var v := ConeTotals(s, k);
      && v.degree == s.nodes[k].degree && v.connections == s.nodes[k].connections
      && v.customers == s.nodes[k].customers && v.ipPrefixes == s.nodes[k].ipPrefixes
  {
  }

  /** The node map with the first `i` keys of the order given their cone totals. */
  function ConesUpTo(s: TopologyState, i: nat): (m: map<int, NodeView>)
    requires CustomersAreKeys(s) && Ipv4LengthsEverywhere(s) && OrderMatches(s) && i <= |s.order|
    ensures m.Keys == s.nodes.Keys
  {
    if i == 0 then s.nodes
    else
      assert s.order[i - 1] in s.order;
      ConesUpTo(s, i - 1)[s.order[i - 1] := ConeTotals(s, s.order[i - 1])]
  }

  /** One more step of the cone loop: key `order[i]` is still as the record passes left it, and
      afterwards carries its totals while every other key keeps its value. */
  lemma ConesUpToStep(s: TopologyState, i: nat)
    requires CustomersAreKeys(s) && Ipv4LengthsEverywhere(s) && OrderMatches(s) && i < |s.order|
    ensures s.order[i] in s.nodes && ConesUpTo(s, i)[s.order[i]] == s.nodes[s.order[i]]
    ensures ConesUpTo(s, i + 1) == ConesUpTo(s, i)[s.order[i] := ConeTotals(s, s.order[i])]
  {
    assert s.order[i] in s.order;
    ConesUpToUntouched(s, i, s.order[i]);
  }

  /** Keys not among the first `i` of the order are untouched. */
  lemma {:induction false} ConesUpToUntouched(s: TopologyState, i: nat, k: int)
    requires CustomersAreKeys(s) && Ipv4LengthsEverywhere(s) && OrderMatches(s) && i <= |s.order|
    requires k in s.nodes && k !in s.order[..i]
    ensures ConesUpTo(s, i)[k] == s.nodes[k]
  {
    if i > 0 {
      var key := s.order[i - 1];
      assert key in s.order[..i];
      assert key != k;
      assert s.order[..i - 1] == s.order[..i][..i - 1];
      assert k !in s.order[..i - 1];
      ConesUpToUntouched(s, i - 1, k);
      assert ConesUpTo(s, i) == ConesUpTo(s, i - 1)[key := ConeTotals(s, key)];
    }
  }

  /** Keys among the first `i` of the order carry their cone totals. */
  lemma {:induction false} ConesUpToTouched(s: TopologyState, i: nat, k: int)
    requires CustomersAreKeys(s) && Ipv4LengthsEverywhere(s) && OrderMatches(s) && i <= |s.order|
    requires k in s.order[..i]
    ensures k in s.nodes && ConesUpTo(s, i)[k] == ConeTotals(s, k)
  {
    InShorterPrefix(s.order, i, k);
    if s.order[i - 1] != k {
      ConesUpToTouched(s, i - 1, k);
    }
  }

  /** A key among the first `i` of `o` is in `o`, and is among the first `i - 1` unless it is `o[i - 1]`. */
  lemma InShorterPrefix(o: seq<int>, i: nat, k: int)
    requires i <= |o| && k in o[..i]
    ensures 0 < i && k in o
    ensures o[i - 1] != k ==> k in o[..i - 1]
  {
    var j :| 0 <= j < i && o[..i][j] == k;
    assert o[j] == k;
    if o[i - 1] != k {
      assert o[..i - 1][j] == k;
    }
  }

  /** After the whole order every key carries its totals: the loop computes `WithCones`. */
  lemma ConesUpToAll(s: TopologyState)
    requires CustomersAreKeys(s) && Ipv4LengthsEverywhere(s) && OrderMatches(s)
    ensures ConesUpTo(s, |s.order|) == WithCones(s).nodes
  {
    var m := ConesUpTo(s, |s.order|);
    assert s.order[..|s.order|] == s.order;
    forall k | k in s.nodes ensures m[k] == ConeTotals(s, k) {
      ConesUpToTouched(s, |s.order|, k);
    }
    WithConesAt(s, m);
  }

  /** A map holding every node's cone totals is the node map of `WithCones`. */
  lemma WithConesAt(s: TopologyState, m: map<int, NodeView>)
    requires CustomersAreKeys(s) && Ipv4LengthsEverywhere(s)
    requires m.Keys == s.nodes.Keys && forall k :: k in m ==> m[k] == ConeTotals(s, k)
    ensures WithCones(s).nodes == m
  {
  }

  /** Two states with the same keys, nodes and order are equal. */
  lemma SameState(a: TopologyState, b: TopologyState)
    requires a.nodes.Keys == b.nodes.Keys && a.order == b.order
    requires forall k :: k in a.nodes ==> a.nodes[k] == b.nodes[k]
    ensures a == b
  {
    var m, n := a.nodes, b.nodes;
    assert m.Keys == n.Keys;
    assert forall k :: k in m ==> m[k] == n[k];
    assert m == n;
  }

  /** The order lists every key once. */
  lemma OrderCountsKeys(s: TopologyState)
    requires OrderMatches(s)
    ensures |s.order| == |s.nodes.Keys|
  {
    NoDupCardinality(s.order);
    forall x | x in Elems(s.order) ensures x in s.nodes {
      var i :| 0 <= i < |s.order| && s.order[i] == x;
    }
    forall x | x in s.nodes ensures x in Elems(s.order) {
      assert x in s.order;
    }
    assert Elems(s.order) == s.nodes.Keys;
  }

  /** The node values in key order, as the dictionary's `values()` yields them. */
  function Values(s: TopologyState): (vs: seq<NodeView>)
    requires OrderMatches(s)
    ensures |vs| == |s.order|
  {
    seq(|s.order|, i requires 0 <= i < |s.order| => s.nodes[s.order[i]])
  }

  /** The Tier-1 clique inferred from the degree order of the map. */
  function InferredTier1(s: TopologyState): seq<int>
    requires OrderMatches(s) && |s.order| > 0
  {
    Tier1.InferredClique(s.nodes, Tier1.SortByDegree(s.nodes, s.order))
  }

  /** Three relationship records: 1 provides for 2 and for 3, and 2 and 3 are peers. */
  const TRIANGLE: seq<Line<Relationship>> :=
    [Line("1|2|-1", Relationship(1, 2, -1)), Line("1|3|-1", Relationship(1, 3, -1)), Line("2|3|0", Relationship(2, 3, 0))]

  /** The triangle's state after its first `n` records. */
  function TriangleAfter(n: nat): TopologyState
  {
    if n == 0 then EMPTY
    else if n == 1 then TopologyState(map[
      1 := NodeView(1, 1, [2], [2], [], None, 0, 0, 0),
      2 := NodeView(1, 1, [1], [], [], None, 0, 0, 0)], [1, 2])
    else if n == 2 then TopologyState(map[
      1 := NodeView(1, 2, [2, 3], [2, 3], [], None, 0, 0, 0),
      2 := NodeView(1, 1, [1], [], [], None, 0, 0, 0),
      3 := NodeView(1, 1, [1], [], [], None, 0, 0, 0)], [1, 2, 3])
    else TopologyState(map[
      1 := NodeView(1, 2, [2, 3], [2, 3], [], None, 0, 0, 0),
      2 := NodeView(1, 2, [1, 3], [], [], None, 0, 0, 0),
      3 := NodeView(1, 2, [1, 2], [], [], None, 0, 0, 0)], [1, 2, 3])
  }

  lemma TriangleStep(n: nat)
    requires n < 3
    ensures RelationshipStep(TriangleAfter(n), TRIANGLE[n]) == TriangleAfter(n + 1)
  {
    if n == 0 { TriangleFirst(); } else if n == 1 { TriangleSecond(); } else { TriangleThird(); }
  }

  /** (1,2,-1) on the empty map creates both ASes, 2 under the name 1. */
  lemma TriangleFirst()
    ensures RelationshipStep(EMPTY, TRIANGLE[0]) == TriangleAfter(1)
  {
    var l := TRIANGLE[0];
    assert !IsComment(l);
    var s0 := ConnectAt(EMPTY, 1, 1, 2);
    var s1 := ConnectAt(s0, 2, 1, 1);
    assert [] + [1] == [1] && [1] + [2] == [1, 2] && [] + [2] == [2];
    assert s0 == TopologyState(map[1 := NodeView(1, 1, [2], [], [], None, 0, 0, 0)], [1]);
    assert s1.nodes.Keys == {1, 2} && s1.order == [1, 2];
    var f := RelationshipStep(EMPTY, l);
    var r := TriangleAfter(1);
    assert f.nodes.Keys == r.nodes.Keys;
    assert f.nodes[1] == r.nodes[1] && f.nodes[2] == r.nodes[2];
    assert f.nodes == r.nodes;
  }

  /** (1,3,-1) extends 1 and creates 3 under the name 1. */
  lemma TriangleSecond()
    ensures RelationshipStep(TriangleAfter(1), TRIANGLE[1]) == TriangleAfter(2)
  {
    var s := TriangleAfter(1);
    var l := TRIANGLE[1];
    assert !IsComment(l);
    var s0 := ConnectAt(s, 1, 1, 3);
    var s1 := ConnectAt(s0, 3, 1, 1);
    assert [2] + [3] == [2, 3] && [] + [1] == [1] && [1, 2] + [3] == [1, 2, 3];
    assert s0.nodes.Keys == {1, 2} && s0.order == [1, 2];
    assert s0.nodes[1] == NodeView(1, 2, [2, 3], [2], [], None, 0, 0, 0);
    assert s1.nodes.Keys == {1, 2, 3} && s1.order == [1, 2, 3];
    var f := RelationshipStep(s, l);
    var r := TriangleAfter(2);
    assert f.nodes.Keys == r.nodes.Keys;
    assert f.nodes[1] == r.nodes[1] && f.nodes[2] == r.nodes[2] && f.nodes[3] == r.nodes[3];
    assert f.nodes == r.nodes;
  }

  /** (2,3,0) connects the two peers and adds no customer. */
  lemma TriangleThird()
    ensures RelationshipStep(TriangleAfter(2), TRIANGLE[2]) == TriangleAfter(3)
  {
    var s := TriangleAfter(2);
    var l := TRIANGLE[2];
    assert !IsComment(l);
    var s0 := ConnectAt(s, 2, 2, 3);
    var s1 := ConnectAt(s0, 3, 2, 2);
    assert [1] + [3] == [1, 3] && [1] + [2] == [1, 2];
    assert s0.nodes.Keys == {1, 2, 3} && s0.order == [1, 2, 3];
    assert s0.nodes[2] == NodeView(1, 2, [1, 3], [], [], None, 0, 0, 0);
    var f := RelationshipStep(s, l);
    var r := TriangleAfter(3);
    assert f == s1;
    assert f.nodes.Keys == r.nodes.Keys;
    assert f.nodes[1] == r.nodes[1] && f.nodes[2] == r.nodes[2] && f.nodes[3] == r.nodes[3];
    assert f.nodes == r.nodes;
  }

  /** After the triangle every AS has degree 2; 2 and 3 are created by records naming 1 first,
      so both carry the name 1. */
  lemma TriangleIngest()
    ensures IngestRelationships(EMPTY, TRIANGLE) == TopologyState(map[
      1 := NodeView(1, 2, [2, 3], [2, 3], [], None, 0, 0, 0),
      2 := NodeView(1, 2, [1, 3], [], [], None, 0, 0, 0),
      3 := NodeView(1, 2, [1, 2], [], [], None, 0, 0, 0)], [1, 2, 3])
  {
    forall n: nat | n <= 3 ensures IngestRelationships(EMPTY, TRIANGLE[..n]) == TriangleAfter(n) {
      TriangleUpTo(n);
    }
    assert TRIANGLE[..3] == TRIANGLE;
  }

  lemma {:induction false} TriangleUpTo(n: nat)
    requires n <= 3
    ensures IngestRelationships(EMPTY, TRIANGLE[..n]) == TriangleAfter(n)
  {
    if n > 0 {
      TriangleUpTo(n - 1);
      assert TRIANGLE[..n][..n - 1] == TRIANGLE[..n - 1];
      TriangleStep(n - 1);
    }
  }

  /** The walks of the triangle's customer graph: 1 reaches 2 and 3, the others reach nothing. */
  lemma TriangleWalks()
    ensures Closed(map[1 := [2, 3], 2 := [], 3 := []])
    ensures Cone(map[1 := [2, 3], 2 := [], 3 := []], 1) == [2, 3]
    ensures Cone(map[1 := [2, 3], 2 := [], 3 := []], 2) == []
    ensures Cone(map[1 := [2, 3], 2 := [], 3 := []], 3) == []
  {
    var cg := map[1 := [2, 3], 2 := [], 3 := []];
    assert [2, 3][1..] == [3] && [3][1..] == [];
    assert Walk(cg, 3, [2, 3]) == [2, 3];
    assert 3 !in [2] && [2] + [3] == [2, 3];
    assert WalkList(cg, [3], [2]) == [2, 3];
    assert Walk(cg, 2, [2]) == [2];
    assert [] + [2] == [2];
    assert WalkList(cg, [2, 3], []) == [2, 3];
  }

  /** The triangle's final map: its customers are keys, it holds no prefixes, and its customer
      graph is 1 -> [2, 3]. */
  lemma TriangleGraph()
    ensures var s := TriangleAfter(3);
      && CustomersAreKeys(s) && Ipv4LengthsEverywhere(s) && s.nodes.Keys == {1, 2, 3}
      && CustomersOf(s.nodes) == map[1 := [2, 3], 2 := [], 3 := []]
  {
    var s := TriangleAfter(3);
    var cg := map[1 := [2, 3], 2 := [], 3 := []];
    assert s.nodes.Keys == {1, 2, 3};
    assert CustomersOf(s.nodes).Keys == cg.Keys;
    assert CustomersOf(s.nodes) == cg;
  }

  /** The cone ranking the pass gives a node is its walk's length plus one. */
  lemma ConeRankingOf(s: TopologyState, k: int)
    requires CustomersAreKeys(s) && Ipv4LengthsEverywhere(s) && k in s.nodes
    ensures k in WithCones(s).nodes && WithCones(s).nodes[k].coneRanking == |ConeOf(s, k)| + 1
  {
    assert WithCones(s).nodes[k] == ConeTotals(s, k);
  }

  /** The triangle's cone rankings: 1 counts both of its customers and itself, 2 and 3 only
      themselves. */
  lemma TriangleCones()
    ensures var s := IngestRelationships(EMPTY, TRIANGLE);
      && CustomersAreKeys(s) && Ipv4LengthsEverywhere(s) && s.nodes.Keys == {1, 2, 3}
      && WithCones(s).nodes[1].coneRanking == 3
      && WithCones(s).nodes[2].coneRanking == 1
      && WithCones(s).nodes[3].coneRanking == 1
  {
    TriangleIngest();
    TriangleWalks();
    TriangleGraph();
    var s := TriangleAfter(3);
    assert IngestRelationships(EMPTY, TRIANGLE) == s;
    ConeRankingOf(s, 1);
    ConeRankingOf(s, 2);
    ConeRankingOf(s, 3);
  }
}
