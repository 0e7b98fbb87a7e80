/**
 * The customer-cone walk as a pure definition.
 *
 * `Walk(cg, root, b)` is the backlog list after a depth-first walk from
 * `root` that starts with backlog `b`: each direct customer not yet in the
 * backlog is appended and then walked in turn. The root itself is not put into
 * the backlog first, so a customer cycle that leads back to the root appends
 * the root as well.
 *
 * The lemmas below show that the walk only appends, never repeats an AS
 * number, and that from an empty backlog it visits exactly the least set that
 * contains the root's customers and is closed under taking customers: the
 * transitive customer cone.
 */
module CustomerCone {
  import opened Seqs
  import opened ASNode

  /** Provider -> customers, for every AS of the topology. */
  type CustomerGraph = map<int, seq<int>>

  /** Every customer is itself an AS of the graph. */
  predicate Closed(cg: CustomerGraph)
  {
    forall k, c :: k in cg && c in cg[k] ==> c in cg
  }

  /** ASes of the graph not yet in the backlog: the walk's termination measure. */
  function Unvisited(cg: CustomerGraph, b: seq<int>): nat
  {
    |cg.Keys - Elems(b)|
  }

  lemma UnvisitedShrinks(cg: CustomerGraph, b: seq<int>, c: int)
    requires c in cg && c !in b
    ensures Unvisited(cg, b + [c]) < Unvisited(cg, b)
  {
    assert Elems(b + [c]) == Elems(b) + {c};
    assert cg.Keys - Elems(b + [c]) == (cg.Keys - Elems(b)) - {c};
  }

  lemma UnvisitedMonotone(cg: CustomerGraph, b: seq<int>, r: seq<int>)
    requires |b| <= |r| && r[..|b|] == b
    ensures Unvisited(cg, r) <= Unvisited(cg, b)
  {
    assert Elems(b) <= Elems(r) by {
      forall x | x in b ensures x in r {
        var i :| 0 <= i < |b| && b[i] == x;
        assert r[i] == x;
      }
    }
    SubsetCardinality(cg.Keys - Elems(r), cg.Keys - Elems(b));
  }

  /** `r` is `b` followed by duplicate-free new ASes of the graph. */
  predicate Extends(cg: CustomerGraph, b: seq<int>, r: seq<int>)
  {
    && |b| <= |r| && r[..|b|] == b
    && (NoDup(b) ==> NoDup(r))
    && forall i :: |b| <= i < |r| ==> r[i] in cg
  }

  /** Every AS number of `cs` is an AS of the graph. */
  predicate AllIn(cg: CustomerGraph, cs: seq<int>)
  {
    forall c :: c in cs ==> c in cg
  }

  /** The backlog after walking the customers of `root`. */
  function Walk(cg: CustomerGraph, root: int, b: seq<int>): (r: seq<int>)
    requires Closed(cg) && root in cg
    ensures |b| <= |r| && r[..|b|] == b
    decreases Unvisited(cg, b), |cg[root]| + 1
  {
    WalkList(cg, cg[root], b)
  }

  /** The backlog after walking each of `cs` in turn, skipping those already in the backlog. */
  function WalkList(cg: CustomerGraph, cs: seq<int>, b: seq<int>): (r: seq<int>)
    requires Closed(cg) && AllIn(cg, cs)
    ensures |b| <= |r| && r[..|b|] == b
    decreases Unvisited(cg, b), |cs|
  {
    if cs == [] then b
    else
      assert cs[0] in cs && forall c :: c in cs[1..] ==> c in cs;
      if cs[0] in b then WalkList(cg, cs[1..], b)
    else
      var b1 := b + [cs[0]];
      UnvisitedShrinks(cg, b, cs[0]);
      var b2 := Walk(cg, cs[0], b1);
      UnvisitedMonotone(cg, b1, b2);
      var r := WalkList(cg, cs[1..], b2);
      assert r[..|b|] == r[..|b2|][..|b1|][..|b|];
      r
  }

  /** The walk appends only ASes of the graph, and never one already in the backlog. */
  lemma {:induction false} WalkExtends(cg: CustomerGraph, root: int, b: seq<int>)
    requires Closed(cg) && root in cg
    ensures Extends(cg, b, Walk(cg, root, b))
    decreases Unvisited(cg, b), |cg[root]| + 1
  {
    WalkListExtends(cg, cg[root], b);
  }

  lemma {:induction false} WalkListExtends(cg: CustomerGraph, cs: seq<int>, b: seq<int>)
    requires Closed(cg) && AllIn(cg, cs)
    ensures Extends(cg, b, WalkList(cg, cs, b))
    decreases Unvisited(cg, b), |cs|
  {
    assert cs != [] ==> cs[0] in cs && forall c :: c in cs[1..] ==> c in cs;
    if cs != [] {
      if cs[0] in b {
        WalkListExtends(cg, cs[1..], b);
      } else {
        var b1 := b + [cs[0]];
        UnvisitedShrinks(cg, b, cs[0]);
        var b2 := Walk(cg, cs[0], b1);
        UnvisitedMonotone(cg, b1, b2);
        WalkExtends(cg, cs[0], b1);
        WalkListExtends(cg, cs[1..], b2);
        ExtendsChain(cg, b, cs[0], b2, WalkList(cg, cs, b));
      }
    }
  }

  lemma ExtendsChain(cg: CustomerGraph, b: seq<int>, c: int, b2: seq<int>, r: seq<int>)
    requires c in cg && c !in b
    requires Extends(cg, b + [c], b2) && Extends(cg, b2, r)
    ensures Extends(cg, b, r)
  {
    var b1 := b + [c];
    assert r[..|b|] == b2[..|b1|][..|b|];
    if NoDup(b) {
      assert NoDup(b1);
    }
    forall i | |b| <= i < |r| ensures r[i] in cg {
      if i < |b2| {
        assert r[i] == b2[i];
        if i == |b| {
          assert b2[i] == b1[i] == c;
        }
      }
    }
  }

  /** Every AS appended after position `from` has all its customers in `r`. */
  predicate ClosedFrom(cg: CustomerGraph, r: seq<int>, from: nat)
  {
    forall i, c :: from <= i < |r| && r[i] in cg && c in cg[r[i]] ==> c in r
  }

  /** Each AS appended after position `from` is one of `cs` or a customer of an earlier appended AS. */
  predicate Justified(cg: CustomerGraph, cs: seq<int>, r: seq<int>, from: nat)
  {
    forall i :: from <= i < |r| ==>
      r[i] in cs || exists j :: from <= j < i && r[j] in cg && r[i] in cg[r[j]]
  }

  /** At return, the root's customers are in the backlog and every newly appended AS has its customers there too. */
  lemma {:induction false} WalkCloses(cg: CustomerGraph, root: int, b: seq<int>)
    requires Closed(cg) && root in cg
    ensures var r := Walk(cg, root, b);
      (forall c :: c in cg[root] ==> c in r) && ClosedFrom(cg, r, |b|)
    decreases Unvisited(cg, b), |cg[root]| + 1
  {
    WalkListCloses(cg, cg[root], b);
  }

  lemma {:induction false} WalkListCloses(cg: CustomerGraph, cs: seq<int>, b: seq<int>)
    requires Closed(cg) && AllIn(cg, cs)
    ensures var r := WalkList(cg, cs, b);
      (forall c :: c in cs ==> c in r) && ClosedFrom(cg, r, |b|)
    decreases Unvisited(cg, b), |cs|
  {
    assert cs != [] ==> cs[0] in cs && forall c :: c in cs[1..] ==> c in cs;
    if cs == [] {
    } else if cs[0] in b {
      WalkListCloses(cg, cs[1..], b);
      var r := WalkList(cg, cs, b);
      assert cs[0] in r by {
        var i :| 0 <= i < |b| && b[i] == cs[0];
        assert r[i] == cs[0];
      }
    } else {
      var b1 := b + [cs[0]];
      UnvisitedShrinks(cg, b, cs[0]);
      var b2 := Walk(cg, cs[0], b1);
      UnvisitedMonotone(cg, b1, b2);
      WalkCloses(cg, cs[0], b1);
      WalkListCloses(cg, cs[1..], b2);
      var r := WalkList(cg, cs, b);
      assert r == WalkList(cg, cs[1..], b2);
      assert b2[|b|] == b1[|b|] == cs[0];
      ClosedFromChain(cg, b, cs[0], b2, r);
    }
  }

  lemma ClosedFromChain(cg: CustomerGraph, b: seq<int>, c: int, b2: seq<int>, r: seq<int>)
    requires c in cg
    requires |b| < |b2| && b2[|b|] == c
    requires |b2| <= |r| && r[..|b2|] == b2
    requires (forall x :: x in cg[c] ==> x in b2) && ClosedFrom(cg, b2, |b| + 1)
    requires ClosedFrom(cg, r, |b2|)
    ensures ClosedFrom(cg, r, |b|) && c in r
  {
    assert InR: forall x :: x in b2 ==> x in r by {
      forall x | x in b2 ensures x in r {
        var i :| 0 <= i < |b2| && b2[i] == x;
        assert r[i] == x;
      }
    }
    assert r[|b|] == c;
    forall i, x | |b| <= i < |r| && r[i] in cg && x in cg[r[i]] ensures x in r {
      if i == |b| {
        assert x in b2;
      } else if i < |b2| {
        assert r[i] == b2[i];
        assert x in b2;
      }
    }
  }

  /** Every AS the walk appends is reachable from the root through customers. */
  lemma {:induction false} WalkJustified(cg: CustomerGraph, root: int, b: seq<int>)
    requires Closed(cg) && root in cg
    ensures Justified(cg, cg[root], Walk(cg, root, b), |b|)
    decreases Unvisited(cg, b), |cg[root]| + 1
  {
    WalkListJustified(cg, cg[root], b);
  }

  lemma {:induction false} WalkListJustified(cg: CustomerGraph, cs: seq<int>, b: seq<int>)
    requires Closed(cg) && AllIn(cg, cs)
    ensures Justified(cg, cs, WalkList(cg, cs, b), |b|)
    decreases Unvisited(cg, b), |cs|
  {
    assert cs != [] ==> cs[0] in cs && forall c :: c in cs[1..] ==> c in cs;
    if cs == [] {
    } else if cs[0] in b {
      WalkListJustified(cg, cs[1..], b);
    } else {
      var c := cs[0];
      var b1 := b + [c];
      UnvisitedShrinks(cg, b, c);
      var b2 := Walk(cg, c, b1);
      UnvisitedMonotone(cg, b1, b2);
      WalkJustified(cg, c, b1);
      WalkListJustified(cg, cs[1..], b2);
      var r := WalkList(cg, cs, b);
      assert r == WalkList(cg, cs[1..], b2);
      assert b2[|b|] == b1[|b|] == c;
      JustifiedChain(cg, cs, b, b2, r);
    }
  }

  lemma JustifiedChain(cg: CustomerGraph, cs: seq<int>, b: seq<int>, b2: seq<int>, r: seq<int>)
    requires cs != [] && cs[0] in cg
    requires |b| < |b2| && b2[|b|] == cs[0]
    requires |b2| <= |r| && r[..|b2|] == b2
    requires Justified(cg, cg[cs[0]], b2, |b| + 1)
    requires Justified(cg, cs[1..], r, |b2|)
    ensures Justified(cg, cs, r, |b|)
  {
    var c := cs[0];
    forall i | |b| <= i < |r|
      ensures r[i] in cs || exists j :: |b| <= j < i && r[j] in cg && r[i] in cg[r[j]]
    {
      if i == |b| {
        assert r[i] == b2[i] == c;
      } else if i < |b2| {
        assert r[i] == b2[i];
        if r[i] in cg[c] {
          assert r[|b|] == c;
        } else {
          var j :| |b| + 1 <= j < i && b2[j] in cg && b2[i] in cg[b2[j]];
          assert r[j] == b2[j];
        }
      } else if r[i] !in cs[1..] {
        var j :| |b2| <= j < i && r[j] in cg && r[i] in cg[r[j]];
      } else {
        assert r[i] in cs;
      }
    }
  }

  /** The cone of `root`: the AS numbers the walk from an empty backlog appends. */
  function Cone(cg: CustomerGraph, root: int): (r: seq<int>)
    requires Closed(cg) && root in cg
    ensures NoDup(r) && forall i :: 0 <= i < |r| ==> r[i] in cg
  {
    WalkExtends(cg, root, []);
    Walk(cg, root, [])
  }

  /** A set that holds the root's customers and the customers of each of its ASes. */
  predicate CustomerClosedSuperset(cg: CustomerGraph, root: int, w: set<int>)
    requires root in cg
  {
    (forall c :: c in cg[root] ==> c in w) && forall k, c :: k in w && k in cg && c in cg[k] ==> c in w
  }

  /** The cone is the least customer-closed set holding the root's customers. */
  lemma {:induction false} ConeIsLeastClosedSet(cg: CustomerGraph, root: int, w: set<int>)
    requires Closed(cg) && root in cg
    ensures CustomerClosedSuperset(cg, root, Elems(Cone(cg, root)))
    ensures CustomerClosedSuperset(cg, root, w) ==> Elems(Cone(cg, root)) <= w
  {
    var r := Cone(cg, root);
    WalkCloses(cg, root, []);
    WalkJustified(cg, root, []);
    if CustomerClosedSuperset(cg, root, w) {
      ConePrefixInSet(cg, root, w, r, |r|);
    }
  }

  lemma {:induction false} ConePrefixInSet(cg: CustomerGraph, root: int, w: set<int>, r: seq<int>, n: nat)
    requires root in cg && CustomerClosedSuperset(cg, root, w)
    requires Justified(cg, cg[root], r, 0) && n <= |r|
    ensures forall i :: 0 <= i < n ==> r[i] in w
  {
    assert forall c :: c in cg[root] ==> c in w;
    assert forall k, c :: k in w && k in cg && c in cg[k] ==> c in w;
    if n > 0 {
      ConePrefixInSet(cg, root, w, r, n - 1);
      var i := n - 1;
      assert r[i] in cg[root] || exists j :: 0 <= j < i && r[j] in cg && r[i] in cg[r[j]];
      if r[i] !in cg[root] {
        var j :| 0 <= j < i && r[j] in cg && r[i] in cg[r[j]];
        assert r[j] in w;
      }
      assert r[i] in w;
    }
  }

  /** Cone sizes as the traversal counts them: each member of the cone is counted once. */
  lemma ConeCountsEachMemberOnce(cg: CustomerGraph, root: int)
    requires Closed(cg) && root in cg
    ensures |Elems(Cone(cg, root))| == |Cone(cg, root)|
  {
    NoDupCardinality(Cone(cg, root));
  }

  /** Provider -> prefixes, for every AS of the topology. */
  type PrefixMap = map<int, seq<Prefix>>

  predicate Ipv4LengthsOkAll(pm: PrefixMap)
  {
    forall k :: k in pm ==> Ipv4LengthsOk(pm[k])
  }

  /** The prefixes of AS `k`; none for a number that is not an AS of the map. */
  function Owned(pm: PrefixMap, k: int): seq<Prefix>
  {
    if k in pm then pm[k] else []
  }

  /** Sum of the IPv4 address counts of the ASes `ks`. */
  function ConeIpv4(pm: PrefixMap, ks: seq<int>): nat
    requires Ipv4LengthsOkAll(pm)
  {
    if ks == [] then 0
    else ConeIpv4(pm, ks[..|ks| - 1]) + Ipv4Addresses(Owned(pm, ks[|ks| - 1]))
  }

  /** Sum of the prefix counts (both families) of the ASes `ks`. */
  function ConePrefixes(pm: PrefixMap, ks: seq<int>): nat
  {
    if ks == [] then 0
    else ConePrefixes(pm, ks[..|ks| - 1]) + |Owned(pm, ks[|ks| - 1])|
  }

  lemma {:induction false} ConeSumsAppend(pm: PrefixMap, xs: seq<int>, ys: seq<int>)
    requires Ipv4LengthsOkAll(pm)
    ensures ConeIpv4(pm, xs + ys) == ConeIpv4(pm, xs) + ConeIpv4(pm, ys)
    ensures ConePrefixes(pm, xs + ys) == ConePrefixes(pm, xs) + ConePrefixes(pm, ys)
  {
    if ys == [] {
      assert xs + ys == xs;
    } else {
      var init := ys[..|ys| - 1];
      assert (xs + ys)[..|xs + ys| - 1] == xs + init;
      ConeSumsAppend(pm, xs, init);
    }
  }

  /** One step of the walk over a customer list whose head is not yet in the backlog `cur`
      (which extends `backlog`): the walk continues from the head's own walk. */
  lemma WalkListStep(cg: CustomerGraph, cs: seq<int>, backlog: seq<int>, cur: seq<int>)
    requires Closed(cg) && AllIn(cg, cs) && cs != [] && cs[0] !in cur
    requires |backlog| <= |cur| && cur[..|backlog|] == backlog
    ensures cs[0] in cg && AllIn(cg, cs[1..])
    ensures Unvisited(cg, cur + [cs[0]]) < Unvisited(cg, backlog)
    ensures WalkList(cg, cs, cur) == WalkList(cg, cs[1..], Walk(cg, cs[0], cur + [cs[0]]))
  {
    assert cs[0] in cs && forall x :: x in cs[1..] ==> x in cs;
    UnvisitedMonotone(cg, backlog, cur);
    UnvisitedShrinks(cg, cur, cs[0]);
  }

  /** A customer already in the backlog is skipped. */
  lemma WalkListSkip(cg: CustomerGraph, cs: seq<int>, cur: seq<int>)
    requires Closed(cg) && AllIn(cg, cs) && cs != [] && cs[0] in cur
    ensures cs[0] in cg && AllIn(cg, cs[1..])
    ensures WalkList(cg, cs, cur) == WalkList(cg, cs[1..], cur)
  {
    var c := cs[0];
    assert c in cs && c in cg;
    assert forall x :: x in cs[1..] ==> x in cs;
  }
  /** Where the customer loop of the walk from `root`, started on backlog `b`, stands with the
      customers `rest` still to go, backlog `cur`, and the three running totals. */
  predicate WalkProgress(cg: CustomerGraph, pm: PrefixMap, root: int, b: seq<int>, rest: seq<int>,
                         cur: seq<int>, sum: nat, prefixes: nat, addresses: nat)
  {
    && Closed(cg) && Ipv4LengthsOkAll(pm) && root in cg && AllIn(cg, rest)
    && |b| <= |cur| && cur[..|b|] == b
    && WalkList(cg, rest, cur) == Walk(cg, root, b)
    && sum == |cur| - |b|
    && prefixes == ConePrefixes(pm, cur[|b|..])
    && addresses == ConeIpv4(pm, cur[|b|..])
  }

  lemma WalkProgressStart(cg: CustomerGraph, pm: PrefixMap, root: int, b: seq<int>)
    requires Closed(cg) && Ipv4LengthsOkAll(pm) && root in cg
    ensures WalkProgress(cg, pm, root, b, cg[root], b, 0, 0, 0)
  {
    assert b[|b|..] == [];
  }

  lemma WalkProgressSkip(cg: CustomerGraph, pm: PrefixMap, root: int, b: seq<int>, rest: seq<int>,
                         cur: seq<int>, sum: nat, prefixes: nat, addresses: nat)
    requires WalkProgress(cg, pm, root, b, rest, cur, sum, prefixes, addresses)
    requires rest != [] && rest[0] in cur
    ensures WalkProgress(cg, pm, root, b, rest[1..], cur, sum, prefixes, addresses)
  {
    WalkListSkip(cg, rest, cur);
  }

  /** A customer not yet in the backlog is an AS of the graph, and walking it makes progress. */
  lemma WalkProgressVisit(cg: CustomerGraph, pm: PrefixMap, root: int, b: seq<int>, rest: seq<int>,
                          cur: seq<int>, sum: nat, prefixes: nat, addresses: nat)
    requires WalkProgress(cg, pm, root, b, rest, cur, sum, prefixes, addresses)
    requires rest != [] && rest[0] !in cur
    ensures rest[0] in cg && Unvisited(cg, cur) <= Unvisited(cg, b)
  {
    WalkListStep(cg, rest, b, cur);
    UnvisitedMonotone(cg, b, cur);
  }

  lemma WalkProgressAdvance(cg: CustomerGraph, pm: PrefixMap, root: int, b: seq<int>, rest: seq<int>,
                            cur: seq<int>, sum: nat, prefixes: nat, addresses: nat, r: seq<int>)
    requires WalkProgress(cg, pm, root, b, rest, cur, sum, prefixes, addresses)
    requires rest != [] && rest[0] !in cur && rest[0] in cg
    requires r == Walk(cg, rest[0], cur + [rest[0]]) && |cur| <= |r| && r[..|cur|] == cur
    ensures WalkProgress(cg, pm, root, b, rest[1..], r, sum + (|r| - |cur|),
                         prefixes + ConePrefixes(pm, r[|cur|..]), addresses + ConeIpv4(pm, r[|cur|..]))
  {
    WalkListStep(cg, rest, b, cur);
    WalkSumsSplit(pm, b, cur, r);
    PrefixTrans(b, cur, r);
  }

  /** The cone sums over what was appended since `a` split at the intermediate backlog `b`. */
  lemma WalkSumsSplit(pm: PrefixMap, a: seq<int>, b: seq<int>, c: seq<int>)
    requires Ipv4LengthsOkAll(pm)
    requires |a| <= |b| <= |c| && c[..|b|] == b
    ensures ConePrefixes(pm, c[|a|..]) == ConePrefixes(pm, b[|a|..]) + ConePrefixes(pm, c[|b|..])
    ensures ConeIpv4(pm, c[|a|..]) == ConeIpv4(pm, b[|a|..]) + ConeIpv4(pm, c[|b|..])
  {
    assert c[|a|..] == b[|a|..] + c[|b|..] by {
      assert b == c[..|b|];
    }
    ConeSumsAppend(pm, b[|a|..], c[|b|..]);
  }

  /** The cone sums over the ASes appended after `b`, the first of which is `c`. */
  lemma WalkStepSums(pm: PrefixMap, b: seq<int>, c: int, b2: seq<int>)
    requires Ipv4LengthsOkAll(pm)
    requires |b| + 1 <= |b2| && b2[..|b| + 1] == b + [c]
    ensures ConePrefixes(pm, b2[|b|..]) == |Owned(pm, c)| + ConePrefixes(pm, b2[|b| + 1..])
    ensures ConeIpv4(pm, b2[|b|..]) == Ipv4Addresses(Owned(pm, c)) + ConeIpv4(pm, b2[|b| + 1..])
  {
    assert b2[|b|..] == [c] + b2[|b| + 1..];
    ConeSumsAppend(pm, [c], b2[|b| + 1..]);
    assert [c][..0] == [];
  }

  /** A customer cycle 1 -> 2 -> 3 -> 1: the walk from 1 terminates, and since 1 is not in the
      backlog at the start it is appended once when the cycle closes. */
  lemma CycleWalkAppendsRootOnce()
    ensures Cone(map[1 := [2], 2 := [3], 3 := [1]], 1) == [2, 3, 1]
  {
    var cg := map[1 := [2], 2 := [3], 3 := [1]];
    var full := [2, 3, 1];
    assert [1][1..] == [] && [2][1..] == [] && [3][1..] == [];
    assert WalkList(cg, [2], full) == full;
    assert Walk(cg, 1, full) == full;
    assert 1 !in [2, 3] && [2, 3] + [1] == full;
    assert WalkList(cg, [1], [2, 3]) == full;
    assert Walk(cg, 3, [2, 3]) == full;
    assert 3 !in [2] && [2] + [3] == [2, 3];
    assert WalkList(cg, [3], [2]) == full;
    assert Walk(cg, 2, [2]) == full;
    assert [] + [2] == [2];
    assert WalkList(cg, [2], []) == full;
  }

  /** A diamond 1 -> {2, 3}, 2 -> 4, 3 -> 4: the shared customer 4 is appended once. */
  lemma DiamondWalkAppendsSharedCustomerOnce()
    ensures Cone(map[1 := [2, 3], 2 := [4], 3 := [4], 4 := []], 1) == [2, 4, 3]
  {
    var cg := map[1 := [2, 3], 2 := [4], 3 := [4], 4 := []];
    assert [4][1..] == [] && [3][1..] == [] && [2, 3][1..] == [3];
    assert WalkList(cg, [], [2, 4]) == [2, 4];
    assert Walk(cg, 4, [2, 4]) == [2, 4];
    assert 4 !in [2] && [2] + [4] == [2, 4];
    assert WalkList(cg, [4], [2]) == [2, 4];
    assert Walk(cg, 2, [2]) == [2, 4];
    assert WalkList(cg, [4], [2, 4, 3]) == [2, 4, 3];
    assert Walk(cg, 3, [2, 4, 3]) == [2, 4, 3];
    assert 3 !in [2, 4] && [2, 4] + [3] == [2, 4, 3];
    assert WalkList(cg, [3], [2, 4]) == [2, 4, 3];
    assert [] + [2] == [2];
    assert WalkList(cg, [2, 3], []) == [2, 4, 3];
  }
}
