/**
 * One Autonomous System of the topology: the accumulators that the record
 * passes fill in (neighbours, customers, announced prefixes, classification),
 * the three cone totals written once by the cone computation, and the address
 * and prefix counters derived from the announced prefixes.
 *
 * Address counts follow the CIDR rule of section 3.1 of RFC 4632: a prefix of
 * length L covers 2^(32 - L) IPv4 addresses, or 2^(128 - L) IPv6 addresses.
 */
module ASNode {
  import opened Wrappers

  /** One announced prefix: its text, its length, and whether it came from the IPv6 stream. */
  datatype Prefix = Prefix(prefix: string, length: int, isIpv6: bool)

  /** 2^e */
  function Pow2(e: nat): (r: nat)
    ensures r >= 1
  {
    if e == 0 then 1 else 2 * Pow2(e - 1)
  }

  /** Every IPv4 entry has a length of at most 32, so 2^(32 - L) is a whole number of addresses.
      A negative length is allowed: as in the source, it counts more than 2^32 addresses. */
  predicate Ipv4LengthsOk(ps: seq<Prefix>)
  {
    forall i :: 0 <= i < |ps| && !ps[i].isIpv6 ==> ps[i].length <= 32
  }

  /** Every IPv6 entry has a length of at most 128, so 2^(128 - L) is a whole number of addresses.
      A negative length is allowed: as in the source, it counts more than 2^128 addresses. */
  predicate Ipv6LengthsOk(ps: seq<Prefix>)
  {
    forall i :: 0 <= i < |ps| && ps[i].isIpv6 ==> ps[i].length <= 128
  }

  /** Addresses covered by the IPv4 entries of `ps`. */
  function Ipv4Addresses(ps: seq<Prefix>): nat
    requires Ipv4LengthsOk(ps)
  {
    if ps == [] then 0
    else
      var last := ps[|ps| - 1];
      Ipv4Addresses(ps[..|ps| - 1]) + (if last.isIpv6 then 0 else Pow2(32 - last.length))
  }

  /** Number of IPv4 entries of `ps`. */
  function Ipv4Prefixes(ps: seq<Prefix>): nat
  {
    if ps == [] then 0
    else Ipv4Prefixes(ps[..|ps| - 1]) + (if ps[|ps| - 1].isIpv6 then 0 else 1)
  }

  /** Addresses covered by the IPv6 entries of `ps`. */
  function Ipv6Addresses(ps: seq<Prefix>): nat
    requires Ipv6LengthsOk(ps)
  {
    if ps == [] then 0
    else
      var last := ps[|ps| - 1];
      Ipv6Addresses(ps[..|ps| - 1]) + (if last.isIpv6 then Pow2(128 - last.length) else 0)
  }

  /** The IPv4 entries of `ps`, in order. */
  function Ipv4Entries(ps: seq<Prefix>): (r: seq<Prefix>)
    ensures forall i :: 0 <= i < |r| ==> !r[i].isIpv6 && r[i] in ps
  {
    if ps == [] then []
    else
      var last := ps[|ps| - 1];
      Ipv4Entries(ps[..|ps| - 1]) + (if last.isIpv6 then [] else [last])
  }

  /** The IPv6 entries of `ps`, in order. */
  function Ipv6Entries(ps: seq<Prefix>): (r: seq<Prefix>)
    ensures forall i :: 0 <= i < |r| ==> r[i].isIpv6 && r[i] in ps
  {
    if ps == [] then []
    else
      var last := ps[|ps| - 1];
      Ipv6Entries(ps[..|ps| - 1]) + (if last.isIpv6 then [last] else [])
  }

  /** No IPv4-tagged entry is dropped by `Ipv4Entries`. */
  lemma {:induction false} Ipv4EntriesComplete(ps: seq<Prefix>)
    ensures forall i :: 0 <= i < |ps| && !ps[i].isIpv6 ==> ps[i] in Ipv4Entries(ps)
  {
    if ps != [] {
      var init := ps[..|ps| - 1];
      Ipv4EntriesComplete(init);
      assert forall i :: 0 <= i < |ps| - 1 ==> ps[i] == init[i];
    }
  }

  /** No IPv6-tagged entry is dropped by `Ipv6Entries`. */
  lemma {:induction false} Ipv6EntriesComplete(ps: seq<Prefix>)
    ensures forall i :: 0 <= i < |ps| && ps[i].isIpv6 ==> ps[i] in Ipv6Entries(ps)
  {
    if ps != [] {
      var init := ps[..|ps| - 1];
      Ipv6EntriesComplete(init);
      assert forall i :: 0 <= i < |ps| - 1 ==> ps[i] == init[i];
    }
  }

  /** The counters add up over a concatenation: prefixes of two families accumulate independently. */
  lemma {:induction false} CountsAppend(ps: seq<Prefix>, qs: seq<Prefix>)
    requires Ipv4LengthsOk(ps) && Ipv4LengthsOk(qs) && Ipv6LengthsOk(ps) && Ipv6LengthsOk(qs)
    ensures Ipv4LengthsOk(ps + qs) && Ipv6LengthsOk(ps + qs)
    ensures Ipv4Addresses(ps + qs) == Ipv4Addresses(ps) + Ipv4Addresses(qs)
    ensures Ipv6Addresses(ps + qs) == Ipv6Addresses(ps) + Ipv6Addresses(qs)
    ensures Ipv4Prefixes(ps + qs) == Ipv4Prefixes(ps) + Ipv4Prefixes(qs)
  {
    if qs != [] {
      var init := qs[..|qs| - 1];
      assert (ps + qs)[..|ps + qs| - 1] == ps + init;
      CountsAppend(ps, init);
    } else {
      assert ps + qs == ps;
    }
  }

  /** The IPv4 entries keep the length bound of the list they come from. */
  lemma Ipv4EntriesLengthsOk(ps: seq<Prefix>)
    requires Ipv4LengthsOk(ps)
    ensures Ipv4LengthsOk(Ipv4Entries(ps))
  {
    var es := Ipv4Entries(ps);
    forall i | 0 <= i < |es| ensures es[i].length <= 32 {
      var j :| 0 <= j < |ps| && ps[j] == es[i];
    }
  }

  /** The IPv6 entries keep the length bound of the list they come from. */
  lemma Ipv6EntriesLengthsOk(ps: seq<Prefix>)
    requires Ipv6LengthsOk(ps)
    ensures Ipv6LengthsOk(Ipv6Entries(ps))
  {
    var es := Ipv6Entries(ps);
    forall i | 0 <= i < |es| && es[i].isIpv6 ensures es[i].length <= 128 {
      var j :| 0 <= j < |ps| && ps[j] == es[i];
    }
  }

  /** Extending the list by one entry extends the IPv4 address count of its IPv4 entries by that entry's share. */
  lemma Ipv4EntriesAddressesStep(ps: seq<Prefix>)
    requires ps != [] && Ipv4LengthsOk(ps)
    ensures Ipv4LengthsOk(Ipv4Entries(ps)) && Ipv4LengthsOk(Ipv4Entries(ps[..|ps| - 1]))
    ensures var last := ps[|ps| - 1];
      Ipv4Addresses(Ipv4Entries(ps))
        == Ipv4Addresses(Ipv4Entries(ps[..|ps| - 1])) + (if last.isIpv6 then 0 else Pow2(32 - last.length))
  {
    var init := ps[..|ps| - 1];
    var last := ps[|ps| - 1];
    assert Ipv4LengthsOk(init) by {
      forall i | 0 <= i < |init| ensures init[i] == ps[i] {}
    }
    Ipv4EntriesLengthsOk(ps);
    Ipv4EntriesLengthsOk(init);
    var es := Ipv4Entries(ps);
    var ei := Ipv4Entries(init);
    if !last.isIpv6 {
      assert es == ei + [last];
      assert es[..|es| - 1] == ei && es[|es| - 1] == last;
      assert Ipv4Addresses(es) == Ipv4Addresses(ei) + Pow2(32 - last.length);
    } else {
      assert es == ei;
    }
  }

  /** The IPv4 address counter sees only the IPv4 entries. */
  lemma {:induction false} Ipv4AddressesSeeOnlyIpv4(ps: seq<Prefix>)
    requires Ipv4LengthsOk(ps)
    ensures Ipv4LengthsOk(Ipv4Entries(ps))
    ensures Ipv4Addresses(ps) == Ipv4Addresses(Ipv4Entries(ps))
  {
    Ipv4EntriesLengthsOk(ps);
    if ps != [] {
      var init := ps[..|ps| - 1];
      assert Ipv4LengthsOk(init) by {
        forall i | 0 <= i < |init| ensures init[i] == ps[i] {}
      }
      Ipv4AddressesSeeOnlyIpv4(init);
      Ipv4EntriesAddressesStep(ps);
    }
  }

  /** The IPv4 prefix counter counts exactly the IPv4 entries. */
  lemma {:induction false} Ipv4PrefixesCountIpv4(ps: seq<Prefix>)
    ensures Ipv4Prefixes(ps) == |Ipv4Entries(ps)|
  {
    if ps != [] {
      Ipv4PrefixesCountIpv4(ps[..|ps| - 1]);
    }
  }

  /** Only IPv4-tagged entries reach the IPv4 counters: they see exactly `Ipv4Entries(ps)`. */
  lemma Ipv4CountersSeeOnlyIpv4(ps: seq<Prefix>)
    requires Ipv4LengthsOk(ps)
    ensures Ipv4LengthsOk(Ipv4Entries(ps))
    ensures Ipv4Addresses(ps) == Ipv4Addresses(Ipv4Entries(ps))
    ensures Ipv4Prefixes(ps) == |Ipv4Entries(ps)|
  {
    Ipv4AddressesSeeOnlyIpv4(ps);
    Ipv4PrefixesCountIpv4(ps);
  }

  /** Only IPv6-tagged entries reach the IPv6 counter: it sees exactly `Ipv6Entries(ps)`. */
  lemma {:induction false} Ipv6CounterSeesOnlyIpv6(ps: seq<Prefix>)
    requires Ipv6LengthsOk(ps)
    ensures Ipv6LengthsOk(Ipv6Entries(ps))
    ensures Ipv6Addresses(ps) == Ipv6Addresses(Ipv6Entries(ps))
  {
    var es := Ipv6Entries(ps);
    Ipv6EntriesLengthsOk(ps);
    if ps != [] {
      var init := ps[..|ps| - 1];
      var last := ps[|ps| - 1];
      assert Ipv6LengthsOk(init) by {
        forall i | 0 <= i < |init| ensures init[i] == ps[i] {}
      }
      Ipv6CounterSeesOnlyIpv6(init);
      var ei := Ipv6Entries(init);
      if last.isIpv6 {
        assert es == ei + [last];
        assert es[..|es| - 1] == ei && es[|es| - 1] == last;
      } else {
        assert es == ei;
      }
    }
  }

  /** Every IPv4 prefix covers at least one address. */
  lemma {:induction false} Ipv4AddressesAtLeastPrefixes(ps: seq<Prefix>)
    requires Ipv4LengthsOk(ps)
    ensures Ipv4Addresses(ps) >= Ipv4Prefixes(ps)
  {
    if ps != [] {
      Ipv4AddressesAtLeastPrefixes(ps[..|ps| - 1]);
    }
  }

  /** The value of a node: every field of `ASTopologyNode`, as one datatype. */
  datatype NodeView = NodeView(
    name: int,
    degree: int,
    connections: seq<int>,
    customers: seq<int>,
    ipPrefixes: seq<Prefix>,
    classification: Option<string>,
    coneRanking: int,
    ipv4Outreach: int,
    prefixOutreach: int)
  {
    /** The degree counts the entries of the neighbour list. */
    predicate Valid()
    {
      degree == |connections|
    }

    /** `add_degree(c)`: one more neighbour entry, one more degree. */
    function WithConnection(c: int): NodeView
    {
      this.(connections := connections + [c], degree := degree + 1)
    }

    /** `add_customer(c)` */
    function WithCustomer(c: int): NodeView
    {
      this.(customers := customers + [c])
    }

    /** `add_prefix(prefix, length, isIpv6)` */
    function WithPrefix(p: Prefix): NodeView
    {
      this.(ipPrefixes := ipPrefixes + [p])
    }

    /** `add_classification(c)` */
    function WithClassification(c: string): NodeView
    {
      this.(classification := Some(c))
    }

    /** The three cone totals written by the cone computation. */
    function WithConeTotals(rank: int, prefixes: int, outreach: int): NodeView
    {
      this.(coneRanking := rank, prefixOutreach := prefixes, ipv4Outreach := outreach)
    }
  }

  /** A node as the constructor leaves it. */
  function InitialView(asName: int): (v: NodeView)
  {
    NodeView(asName, 0, [], [], [], None, 0, 0, 0)
  }

  /** Adding a neighbour keeps the degree equal to the neighbour count, and changes nothing else. */
  lemma AddDegreeKeepsValid(v: NodeView, c: int)
    requires v.Valid()
    ensures v.WithConnection(c).Valid()
    ensures v.WithConnection(c).customers == v.customers && v.WithConnection(c).ipPrefixes == v.ipPrefixes
  {
  }

  /** Adding a prefix moves exactly one counter of its family by one prefix's worth of addresses. */
  lemma AddPrefixCounts(v: NodeView, p: Prefix)
    requires Ipv4LengthsOk(v.ipPrefixes) && Ipv6LengthsOk(v.ipPrefixes)
    requires if p.isIpv6 then p.length <= 128 else p.length <= 32
    ensures var w := v.WithPrefix(p);
      && Ipv4LengthsOk(w.ipPrefixes) && Ipv6LengthsOk(w.ipPrefixes)
      && Ipv4Addresses(w.ipPrefixes) == Ipv4Addresses(v.ipPrefixes) + (if p.isIpv6 then 0 else Pow2(32 - p.length))
      && Ipv6Addresses(w.ipPrefixes) == Ipv6Addresses(v.ipPrefixes) + (if p.isIpv6 then Pow2(128 - p.length) else 0)
      && Ipv4Prefixes(w.ipPrefixes) == Ipv4Prefixes(v.ipPrefixes) + (if p.isIpv6 then 0 else 1)
  {
    assert v.WithPrefix(p).ipPrefixes[..|v.ipPrefixes|] == v.ipPrefixes;
  }

  /** A mutable AS record; `View()` is its whole value. */
  class ASTopologyNode {
    const name: int
    var degree: int
    var connections: seq<int>
    var customers: seq<int>
    var ipPrefixes: seq<Prefix>
    var classification: Option<string>
    var coneRanking: int
    var ipv4Outreach: int
    var prefixOutreach: int

    function View(): NodeView
      reads this
    {
      NodeView(name, degree, connections, customers, ipPrefixes, classification,
               coneRanking, ipv4Outreach, prefixOutreach)
    }

    constructor (asName: int)
      ensures View() == InitialView(asName)
    {
      name := asName;
      degree := 0;
      connections := [];
      customers := [];
      ipPrefixes := [];
      classification := None;
      coneRanking := 0;
      ipv4Outreach := 0;
      prefixOutreach := 0;
    }

    method AddDegree(connection: int)
      modifies this
      ensures View() == old(View()).WithConnection(connection)
      ensures old(View()).Valid() ==> View().Valid()
    {
      connections := connections + [connection];
      degree := degree + 1;
    }

    method AddCustomer(customer: int)
      modifies this
      ensures View() == old(View()).WithCustomer(customer)
    {
      customers := customers + [customer];
    }

    method AddPrefix(prefix: string, prefixLength: int, isIpv6: bool)
      modifies this
      ensures View() == old(View()).WithPrefix(Prefix(prefix, prefixLength, isIpv6))
    {
      ipPrefixes := ipPrefixes + [Prefix(prefix, prefixLength, isIpv6)];
    }

    method AddClassification(c: string)
      modifies this
      ensures View() == old(View()).WithClassification(c)
    {
      classification := Some(c);
    }

    method SetConeRanking(rank: int)
      modifies this
      ensures View() == old(View()).(coneRanking := rank)
    {
      coneRanking := rank;
    }

    method SetTotalIpPrefixOutreach(prefixes: int)
      modifies this
      ensures View() == old(View()).(prefixOutreach := prefixes)
    {
      prefixOutreach := prefixes;
    }

    method SetIpv4Outreach(outreach: int)
      modifies this
      ensures View() == old(View()).(ipv4Outreach := outreach)
    {
      ipv4Outreach := outreach;
    }

    /** Sum of 2^(32 - L) over the IPv4 entries. */
    method NumberOfIpv4Addresses() returns (count: nat)
      requires Ipv4LengthsOk(ipPrefixes)
      ensures count == Ipv4Addresses(ipPrefixes)
    {
      count := 0;
      for i := 0 to |ipPrefixes|
        invariant count == Ipv4Addresses(ipPrefixes[..i])
      {
        assert ipPrefixes[..i + 1][..i] == ipPrefixes[..i];
        var p := ipPrefixes[i];
        if !p.isIpv6 {
          count := count + Pow2(32 - p.length);
        }
      }
      assert ipPrefixes[..|ipPrefixes|] == ipPrefixes;
    }

    /** Number of IPv4 entries. */
    method NumberOfIpv4Prefixes() returns (count: nat)
      ensures count == Ipv4Prefixes(ipPrefixes)
    {
      count := 0;
      for i := 0 to |ipPrefixes|
        invariant count == Ipv4Prefixes(ipPrefixes[..i])
      {
        assert ipPrefixes[..i + 1][..i] == ipPrefixes[..i];
        if !ipPrefixes[i].isIpv6 {
          count := count + 1;
        }
      }
      assert ipPrefixes[..|ipPrefixes|] == ipPrefixes;
    }

    /** Sum of 2^(128 - L) over the IPv6 entries. */
    method NumberOfIpv6Addresses() returns (count: nat)
      requires Ipv6LengthsOk(ipPrefixes)
      ensures count == Ipv6Addresses(ipPrefixes)
    {
      count := 0;
      for i := 0 to |ipPrefixes|
        invariant count == Ipv6Addresses(ipPrefixes[..i])
      {
        assert ipPrefixes[..i + 1][..i] == ipPrefixes[..i];
        var p := ipPrefixes[i];
        if p.isIpv6 {
          count := count + Pow2(128 - p.length);
        }
      }
      assert ipPrefixes[..|ipPrefixes|] == ipPrefixes;
    }
  }
}
