/** How much of the ring each instance gets, and how wide its keys are. */
module RingShares {
  import opened RingKeys
  import opened HashRing

  /** How many virtual nodes of the ring belong to `x`. */
  function Entries(ring: seq<VirtualNode>, x: RealNode): nat {
    if ring == [] then 0 else Entries(ring[..|ring| - 1], x) + if ring[|ring| - 1].node == x then 1 else 0
  }

  lemma {:induction false} EntriesConcat(a: seq<VirtualNode>, b: seq<VirtualNode>, x: RealNode)
    ensures Entries(a + b, x) == Entries(a, x) + Entries(b, x)
  {
    if b == [] {
      assert a + b == a;
    } else {
      EntriesConcat(a, b[..|b| - 1], x);
      assert (a + b)[..|a + b| - 1] == a + b[..|b| - 1];
    }
  }

  lemma Removed(b: seq<VirtualNode>, i: nat, x: RealNode)
    requires i < |b|
    ensures multiset(b) == multiset(b[..i] + b[i + 1..]) + multiset{b[i]}
    ensures Entries(b, x) == Entries(b[..i] + b[i + 1..], x) + if b[i].node == x then 1 else 0
  {
    assert b == b[..i] + ([b[i]] + b[i + 1..]);
    EntriesConcat(b[..i], [b[i]] + b[i + 1..], x);
    EntriesConcat([b[i]], b[i + 1..], x);
    EntriesConcat(b[..i], b[i + 1..], x);
    assert [b[i]][..0] == [];
  }

  lemma CancelOne(m: multiset<VirtualNode>, n: multiset<VirtualNode>, v: VirtualNode)
    requires m + multiset{v} == n + multiset{v}
    ensures m == n
  {
    assert m == (m + multiset{v}) - multiset{v};
  }

  /** The order of the ring does not matter. */
  lemma {:induction false} EntriesPermuted(a: seq<VirtualNode>, b: seq<VirtualNode>, x: RealNode)
    requires multiset(a) == multiset(b)
    ensures Entries(a, x) == Entries(b, x)
    decreases |a|
  {
    if a == [] {
      assert |multiset(b)| == 0 && b == [];
    } else {
      var init, last := a[..|a| - 1], a[|a| - 1];
      assert a == init + [last];
      assert last in multiset(b);
      var i :| 0 <= i < |b| && b[i] == last;
      Removed(b, i, x);
      var rest := b[..i] + b[i + 1..];
      CancelOne(multiset(init), multiset(rest), last);
      EntriesPermuted(init, rest, x);
    }
  }

  lemma {:induction false} EntriesOfSerials(h: Hash, node: RealNode, l: nat, n: nat, x: RealNode)
    requires |node.addr| < l
    ensures Entries(Serials(h, node, l, n), x) == if node == x then n else 0
  {
    if n > 0 {
      EntriesOfSerials(h, node, l, n - 1, x);
      assert Serials(h, node, l, n)[..n - 1] == Serials(h, node, l, n - 1);
    }
  }

  /** Nodes with other addresses contribute nothing. */
  lemma {:induction false} EntriesOfOthers(h: Hash, opt: Options, nodes: seq<RealNode>, l: nat, x: RealNode)
    requires AllShorter(nodes, l) && forall i :: 0 <= i < |nodes| ==> nodes[i] != x
    ensures Entries(VirtualNodes(h, opt, nodes, l), x) == 0
  {
    hide SerialCount, Serials;
    if nodes != [] {
      var init, last := nodes[..|nodes| - 1], nodes[|nodes| - 1];
      EntriesOfOthers(h, opt, init, l, x);
      EntriesOfSerials(h, last, l, SerialCount(opt, last), x);
      EntriesConcat(VirtualNodes(h, opt, init, l), Serials(h, last, l, SerialCount(opt, last)), x);
    }
  }

  lemma {:induction false} EntriesOfNode(h: Hash, opt: Options, nodes: seq<RealNode>, l: nat, i: nat)
    requires AllShorter(nodes, l) && DistinctNodes(nodes) && i < |nodes|
    ensures Entries(VirtualNodes(h, opt, nodes, l), nodes[i]) == SerialCount(opt, nodes[i])
  {
    hide SerialCount, Serials;
    var init, last := nodes[..|nodes| - 1], nodes[|nodes| - 1];
    EntriesOfSerials(h, last, l, SerialCount(opt, last), nodes[i]);
    EntriesConcat(VirtualNodes(h, opt, init, l), Serials(h, last, l, SerialCount(opt, last)), nodes[i]);
    if i == |nodes| - 1 {
      EntriesOfOthers(h, opt, init, l, last);
    } else {
      EntriesOfNode(h, opt, init, l, i);
    }
  }

  /**
  Every instance has `factor` virtual nodes on the ring, or `weight * factor` when weights count;
  none at all for a weight that is not positive.
  */
  lemma EntriesOnRing(h: Hash, opt: Options, nodes: seq<RealNode>, ring: seq<VirtualNode>, i: nat)
    requires IsRing(h, opt, nodes, ring) && DistinctNodes(nodes) && i < |nodes|
    ensures !opt.weighted ==> Entries(ring, nodes[i]) == opt.factor
    ensures opt.weighted && nodes[i].weight >= 0 ==> Entries(ring, nodes[i]) == nodes[i].weight * opt.factor
    ensures opt.weighted && nodes[i].weight <= 0 ==> Entries(ring, nodes[i]) == 0
  {
    hide VirtualNodes, Width, Entries;
    var l := Width(opt, nodes);
    EntriesPermuted(ring, VirtualNodes(h, opt, nodes, l), nodes[i]);
    EntriesOfNode(h, opt, nodes, l, i);
    CountByOption(opt, nodes[i]);
  }

  lemma CountByOption(opt: Options, node: RealNode)
    ensures !opt.weighted ==> SerialCount(opt, node) == opt.factor
    ensures opt.weighted && node.weight >= 0 ==> SerialCount(opt, node) == node.weight * opt.factor
    ensures opt.weighted && node.weight <= 0 ==> SerialCount(opt, node) == 0
  {
  }

  // The key width is no larger than it has to be.

  lemma {:induction false} LongestAddress(nodes: seq<RealNode>) returns (i: nat)
    requires nodes != []
    ensures i < |nodes| && |nodes[i].addr| == MaxLen(nodes)
  {
    i := |nodes| - 1;
    if |nodes[i].addr| < MaxLen(nodes) {
      var init := nodes[..|nodes| - 1];
      if init != [] { i := LongestAddress(init); }
    }
  }

  lemma {:induction false} LargestCount(opt: Options, nodes: seq<RealNode>) returns (i: nat)
    requires nodes != []
    ensures i < |nodes| && SerialCount(opt, nodes[i]) == MaxSerial(opt, nodes)
  {
    i := |nodes| - 1;
    if VirtualNodeLen(opt, nodes[i]) < MaxSerial(opt, nodes) && |nodes| > 1 {
      var init := nodes[..|nodes| - 1];
      if MaxSerial(opt, init) > 0 || SerialCount(opt, nodes[i]) != MaxSerial(opt, nodes) { i := LargestCount(opt, init); }
    }
  }

  /** The width is that of the longest address, a '#', and the digits of the largest number of virtual nodes. */
  lemma WidthExact(opt: Options, nodes: seq<RealNode>) returns (i: nat, j: nat)
    requires nodes != []
    ensures i < |nodes| && j < |nodes|
    ensures Width(opt, nodes) == |nodes[i].addr| + 1 + UIntLen(SerialCount(opt, nodes[j]))
    ensures forall k :: 0 <= k < |nodes| ==>
              |nodes[k].addr| <= |nodes[i].addr| && SerialCount(opt, nodes[k]) <= SerialCount(opt, nodes[j])
  {
    hide MaxLen, MaxSerial, VirtualNodeLen, UIntLen;
    i := LongestAddress(nodes);
    j := LargestCount(opt, nodes);
    forall k | 0 <= k < |nodes|
      ensures |nodes[k].addr| <= |nodes[i].addr| && SerialCount(opt, nodes[k]) <= SerialCount(opt, nodes[j])
    {
      MaxBounds(opt, nodes, k);
    }
  }
}
