/**
 * Tier-1 inference: the nodes sorted by degree, highest first (a stable sort,
 * as Python's `sorted(..., reverse=True)` is), seed a clique with the first
 * node; each later candidate joins iff the name of every current member is in
 * its neighbour list. A rejection decrements a tolerance counter that starts
 * at 50; a rejection seen when the counter is already 0 ends the scan.
 */
module Tier1 {
  import opened Seqs
  import opened ASNode

  type Graph = map<int, NodeView>

  /** Rejections tolerated before the scan stops. */
  const TOLERANCE: nat := 50

  predicate AllIn(g: Graph, ks: seq<int>)
  {
    forall i :: 0 <= i < |ks| ==> ks[i] in g
  }

  /** Place `k` after the nodes of strictly higher degree and before the rest. */
  function InsertByDegree(g: Graph, k: int, ks: seq<int>): (r: seq<int>)
    requires k in g && AllIn(g, ks)
    ensures multiset(r) == multiset(ks) + multiset{k} && AllIn(g, r)
  {
    if ks == [] || g[ks[0]].degree <= g[k].degree then [k] + ks
    else
      var rest := InsertByDegree(g, k, ks[1..]);
      assert ks == [ks[0]] + ks[1..];
      [ks[0]] + rest
  }

  /** The node keys sorted by degree, highest first, keeping the input order among equal degrees. */
  function SortByDegree(g: Graph, ks: seq<int>): (r: seq<int>)
    requires AllIn(g, ks)
    ensures multiset(r) == multiset(ks) && AllIn(g, r)
  {
    if ks == [] then []
    else
      assert ks == [ks[0]] + ks[1..];
      InsertByDegree(g, ks[0], SortByDegree(g, ks[1..]))
  }

  predicate DegreeDescending(g: Graph, r: seq<int>)
    requires AllIn(g, r)
  {
    forall i, j :: 0 <= i < j < |r| ==> g[r[i]].degree >= g[r[j]].degree
  }

  lemma {:induction false} InsertKeepsDescending(g: Graph, k: int, ks: seq<int>)
    requires k in g && AllIn(g, ks) && DegreeDescending(g, ks)
    ensures DegreeDescending(g, InsertByDegree(g, k, ks))
  {
    if ks != [] && g[ks[0]].degree > g[k].degree {
      var rest := InsertByDegree(g, k, ks[1..]);
      InsertKeepsDescending(g, k, ks[1..]);
      var r := [ks[0]] + rest;
      forall j | 1 <= j < |r| ensures g[r[0]].degree >= g[r[j]].degree {
        InsertedBelowHead(g, k, ks, j - 1);
      }
      assert forall i, j :: 1 <= i < j < |r| ==> r[i] == rest[i - 1] && r[j] == rest[j - 1];
    }
  }

  /** Every key of the insertion into the tail of `ks` has degree at most that of the head. */
  lemma InsertedBelowHead(g: Graph, k: int, ks: seq<int>, j: nat)
    requires k in g && AllIn(g, ks) && DegreeDescending(g, ks)
    requires ks != [] && g[ks[0]].degree > g[k].degree
    requires j < |InsertByDegree(g, k, ks[1..])|
    ensures g[ks[0]].degree >= g[InsertByDegree(g, k, ks[1..])[j]].degree
  {
    var x := InsertByDegree(g, k, ks[1..])[j];
    assert x in multiset(InsertByDegree(g, k, ks[1..]));
    if x != k {
      assert x in multiset(ks[1..]);
      var m :| 0 <= m < |ks[1..]| && ks[1..][m] == x;
      assert ks[m + 1] == x;
    }
  }

  /** The sort puts the nodes in non-increasing degree order. */
  lemma {:induction false} SortIsDescending(g: Graph, ks: seq<int>)
    requires AllIn(g, ks)
    ensures DegreeDescending(g, SortByDegree(g, ks))
  {
    if ks != [] {
      SortIsDescending(g, ks[1..]);
      InsertKeepsDescending(g, ks[0], SortByDegree(g, ks[1..]));
    }
  }

  /** The keys of `ks` whose node has degree `d`, in order. */
  function OfDegree(g: Graph, ks: seq<int>, d: int): seq<int>
    requires AllIn(g, ks)
  {
    if ks == [] then []
    else (if g[ks[0]].degree == d then [ks[0]] else []) + OfDegree(g, ks[1..], d)
  }

  lemma {:induction false} InsertOfDegree(g: Graph, k: int, ks: seq<int>, d: int)
    requires k in g && AllIn(g, ks)
    ensures OfDegree(g, InsertByDegree(g, k, ks), d) == (if g[k].degree == d then [k] else []) + OfDegree(g, ks, d)
  {
    var r := InsertByDegree(g, k, ks);
    if ks == [] || g[ks[0]].degree <= g[k].degree {
      assert r == [k] + ks;
      assert r[0] == k && r[1..] == ks;
    } else {
      var rest := InsertByDegree(g, k, ks[1..]);
      InsertOfDegree(g, k, ks[1..], d);
      assert r == [ks[0]] + rest;
      assert r[0] == ks[0] && r[1..] == rest;
    }
  }

  /** Stability: among nodes of one degree the sort keeps the input order. */
  lemma {:induction false} SortIsStable(g: Graph, ks: seq<int>, d: int)
    requires AllIn(g, ks)
    ensures OfDegree(g, SortByDegree(g, ks), d) == OfDegree(g, ks, d)
  {
    if ks != [] {
      SortIsStable(g, ks[1..], d);
      InsertOfDegree(g, ks[0], SortByDegree(g, ks[1..]), d);
    }
  }

  /** Every member's name is in the candidate's neighbour list. */
  predicate Admits(g: Graph, clique: seq<int>, c: int)
    requires c in g && AllIn(g, clique)
  {
    forall m :: 0 <= m < |clique| ==> g[clique[m]].name in g[c].connections
  }

  /** Each member's neighbour list holds the names of all members admitted before it. */
  predicate IsClique(g: Graph, clique: seq<int>)
    requires AllIn(g, clique)
  {
    forall i, j :: 0 <= i < j < |clique| ==> g[clique[i]].name in g[clique[j]].connections
  }

  /** What a scan produced: the clique, how many candidates it rejected, and whether it stopped early. */
  datatype ScanResult = ScanResult(clique: seq<int>, rejected: nat, stopped: bool)

  /** The clique scan over `cands`, starting from `clique` with `counter` rejections left to tolerate. */
  function Scan(g: Graph, cands: seq<int>, clique: seq<int>, counter: nat): (r: ScanResult)
    requires AllIn(g, cands) && AllIn(g, clique)
    ensures AllIn(g, r.clique)
    decreases |cands|
  {
    if cands == [] then ScanResult(clique, 0, false)
    else if Admits(g, clique, cands[0]) then Scan(g, cands[1..], clique + [cands[0]], counter)
    else if counter == 0 then ScanResult(clique, 1, true)
    else
      var r := Scan(g, cands[1..], clique, counter - 1);
      r.(rejected := r.rejected + 1)
  }

  /** The inferred Tier-1 clique from the degree-sorted keys `r`. */
  function InferredClique(g: Graph, r: seq<int>): seq<int>
    requires |r| > 0 && AllIn(g, r)
  {
    Scan(g, r[1..], [r[0]], TOLERANCE).clique
  }

  /** The scan only appends candidates, in their order, and keeps the clique property. */
  lemma {:induction false} ScanShape(g: Graph, cands: seq<int>, clique: seq<int>, counter: nat)
    requires AllIn(g, cands) && AllIn(g, clique)
    ensures var r := Scan(g, cands, clique, counter).clique;
      && |clique| <= |r| && r[..|clique|] == clique && AllIn(g, r)
      && IsSubsequence(r[|clique|..], cands)
      && (IsClique(g, clique) ==> IsClique(g, r))
    decreases |cands|
  {
    if cands == [] {
    } else if Admits(g, clique, cands[0]) {
      var c := cands[0];
      var next := clique + [c];
      ScanShape(g, cands[1..], next, counter);
      var r := Scan(g, cands, clique, counter).clique;
      assert r[..|next|][..|clique|] == clique;
      assert r[|clique|..][0] == c && r[|clique|..][1..] == r[|next|..];
      assert r[|clique|..] == [c] + r[|next|..];
      if IsClique(g, clique) {
        assert IsClique(g, next);
      }
    } else if counter > 0 {
      ScanShape(g, cands[1..], clique, counter - 1);
    }
  }

  /** Tolerance: at most `counter + 1` rejections; the scan stops early exactly at rejection
      number `counter + 1`; otherwise every candidate was either admitted or rejected. */
  lemma {:induction false} ScanTolerance(g: Graph, cands: seq<int>, clique: seq<int>, counter: nat)
    requires AllIn(g, cands) && AllIn(g, clique)
    ensures var r := Scan(g, cands, clique, counter);
      && |clique| <= |r.clique|
      && r.rejected <= counter + 1
      && (r.stopped <==> r.rejected == counter + 1)
      && (!r.stopped ==> |r.clique| - |clique| + r.rejected == |cands|)
      && (r.stopped ==> |r.clique| - |clique| + r.rejected <= |cands|)
    decreases |cands|
  {
    if cands == [] {
    } else if Admits(g, clique, cands[0]) {
      ScanTolerance(g, cands[1..], clique + [cands[0]], counter);
    } else if counter > 0 {
      ScanTolerance(g, cands[1..], clique, counter - 1);
    }
  }

  /** A candidate that fails the connection test is never added: neither when the scan stops
      on it nor later (keys are distinct, so it does not come round again). */
  lemma RejectedNeverJoins(g: Graph, cands: seq<int>, clique: seq<int>, counter: nat)
    requires AllIn(g, cands) && AllIn(g, clique)
    requires cands != [] && !Admits(g, clique, cands[0])
    requires cands[0] !in clique && cands[0] !in cands[1..]
    ensures cands[0] !in Scan(g, cands, clique, counter).clique
  {
    if counter > 0 {
      ScanShape(g, cands[1..], clique, counter - 1);
      var r := Scan(g, cands[1..], clique, counter - 1).clique;
      assert r == clique + r[|clique|..];
      SubsequenceElems(r[|clique|..], cands[1..]);
    }
  }

  /** The inferred clique: seeded by a node of maximum degree, a subsequence of the degree order,
      and each member connected by name to every member admitted before it. */
  lemma Tier1Properties(g: Graph, ks: seq<int>)
    requires |ks| > 0 && AllIn(g, ks)
    ensures var r := SortByDegree(g, ks);
      var s := InferredClique(g, r);
      && |r| == |ks| && |s| > 0 && s[0] == r[0]
      && (forall k :: k in ks ==> g[s[0]].degree >= g[k].degree)
      && IsSubsequence(s, r)
      && AllIn(g, s) && IsClique(g, s)
  {
    var r := SortByDegree(g, ks);
    SortHeadIsMaximum(g, ks);
    ScanShape(g, r[1..], [r[0]], TOLERANCE);
    var s := InferredClique(g, r);
    assert s[..1] == [r[0]];
    assert s == [r[0]] + s[1..];
    assert r == [r[0]] + r[1..];
  }

  /** The first key of the sorted order has the largest degree. */
  lemma SortHeadIsMaximum(g: Graph, ks: seq<int>)
    requires |ks| > 0 && AllIn(g, ks)
    ensures var r := SortByDegree(g, ks);
      |r| == |ks| && forall k :: k in ks ==> g[r[0]].degree >= g[k].degree
  {
    var r := SortByDegree(g, ks);
    assert |r| == |multiset(r)| == |multiset(ks)| == |ks|;
    SortIsDescending(g, ks);
    forall k | k in ks ensures g[r[0]].degree >= g[k].degree {
      assert k in multiset(ks);
      assert k in multiset(r);
      var j :| 0 <= j < |r| && r[j] == k;
      if j > 0 {
        assert g[r[0]].degree >= g[r[j]].degree;
      }
    }
  }

  /** The clique loop: candidates are the keys after the first, each checked against every member. */
  method InferTier1(g: Graph, r: seq<int>) returns (s: seq<int>)
    requires |r| > 0 && AllIn(g, r)
    ensures s == InferredClique(g, r)
    ensures |s| > 0 && s[0] == r[0] && IsSubsequence(s, r) && AllIn(g, s) && IsClique(g, s)
  {
    s := [r[0]];
    var counter: nat := TOLERANCE;
    var i := 1;
    while i < |r|
      invariant 1 <= i <= |r| && AllIn(g, s)
      invariant Scan(g, r[i..], s, counter).clique == InferredClique(g, r)
    {
      var candidate := r[i];
      var addToList := true;
      for j := 0 to |s|
        invariant addToList <==> forall m :: 0 <= m < j ==> g[s[m]].name in g[candidate].connections
      {
        if g[s[j]].name !in g[candidate].connections {
          addToList := false;
        }
      }
      assert r[i..][1..] == r[i + 1..];
      if addToList {
        s := s + [candidate];
      } else if counter == 0 {
        break;
      } else {
        counter := counter - 1;
      }
      i := i + 1;
    }
    ScanShape(g, r[1..], [r[0]], TOLERANCE);
    assert s[..1] == [r[0]];
    assert s == [r[0]] + s[1..];
    assert r == [r[0]] + r[1..];
  }
}
