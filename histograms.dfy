/**
 * The counting behind the two distribution charts: six degree bins, and six
 * bins splitting the Content, Transit/Access and Enterprise classifications
 * by customers and peers. Plotting is not modelled.
 */
module Histograms {
  import opened Wrappers
  import opened ASNode

  /** Degree bins "1", "2-5", "6-100", "101-200", "201-1000", ">1000"; the second test is
      `<= 5`, so degree 0 lands in "2-5". */
  function DegreeBin(degree: int): (i: nat)
    ensures i < 6
  {
    if degree == 1 then 0
    else if degree <= 5 then 1
    else if degree <= 100 then 2
    else if degree <= 200 then 3
    else if degree <= 1000 then 4
    else 5
  }

  /** A node with no neighbours is counted in the "2-5" bin. */
  lemma ZeroDegreeInSecondBin()
    ensures DegreeBin(0) == 1
  {
  }

  /** Number of nodes of `vs` in degree bin `i`. */
  function DegreeBinCount(vs: seq<NodeView>, i: nat): nat
  {
    if vs == [] then 0
    else DegreeBinCount(vs[..|vs| - 1], i) + (if DegreeBin(vs[|vs| - 1].degree) == i then 1 else 0)
  }

  function Sum6(b: seq<nat>): nat
    requires |b| == 6
  {
    b[0] + b[1] + b[2] + b[3] + b[4] + b[5]
  }

  /** The six degree counts. */
  function DegreeHistogram(vs: seq<NodeView>): (b: seq<nat>)
    ensures |b| == 6
  {
    seq(6, i requires 0 <= i < 6 => DegreeBinCount(vs, i))
  }

  /** The degree bins partition the nodes: the six counts add up to the number of nodes. */
  lemma {:induction false} DegreeBinsPartition(vs: seq<NodeView>)
    ensures Sum6(DegreeHistogram(vs)) == |vs|
  {
    if vs != [] {
      DegreeBinsPartition(vs[..|vs| - 1]);
    }
  }

  /** The classification bin of a node, or None for a node with another or no classification:
      0 Content with peers and no customers, 1 other Content, 2 Transit/Access with customers,
      3 other Transit/Access, 4 Enterprise without customers or peers, 5 other Enterprise. */
  function ClassificationBin(v: NodeView): (i: Option<nat>)
    ensures i.Some? ==> i.value < 6
  {
    if v.classification == Some("Content") then
      if v.degree > 0 && |v.customers| == 0 then Some(0) else Some(1)
    else if v.classification == Some("Transit/Access") then
      if |v.customers| > 0 then Some(2) else Some(3)
    else if v.classification == Some("Enterprise") then
      if |v.customers| == 0 && v.degree == 0 then Some(4) else Some(5)
    else None
  }

  /** Classified as one of the three categories the chart shows. */
  predicate IsCharted(v: NodeView)
  {
    v.classification in {Some("Content"), Some("Transit/Access"), Some("Enterprise")}
  }

  function ClassificationBinCount(vs: seq<NodeView>, i: nat): nat
  {
    if vs == [] then 0
    else ClassificationBinCount(vs[..|vs| - 1], i) + (if ClassificationBin(vs[|vs| - 1]) == Some(i) then 1 else 0)
  }

  function ChartedCount(vs: seq<NodeView>): nat
  {
    if vs == [] then 0
    else ChartedCount(vs[..|vs| - 1]) + (if IsCharted(vs[|vs| - 1]) then 1 else 0)
  }

  /** The six classification counts. */
  function ClassificationHistogram(vs: seq<NodeView>): (b: seq<nat>)
    ensures |b| == 6
  {
    seq(6, i requires 0 <= i < 6 => ClassificationBinCount(vs, i))
  }

  /** Exactly the charted nodes are counted, each once. */
  lemma {:induction false} ClassificationBinsPartition(vs: seq<NodeView>)
    ensures Sum6(ClassificationHistogram(vs)) == ChartedCount(vs)
  {
    if vs != [] {
      ClassificationBinsPartition(vs[..|vs| - 1]);
    }
  }
}
