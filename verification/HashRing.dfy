/**
The consistent-hash ring: what `buildVirtualNodes` puts on it, whom a lookup finds, and exactly
when removing an instance leaves the keys of all other instances where they were.
*/
module HashRing {
  import opened Discovery
  import opened RingKeys

  datatype RealNode = RealNode(addr: seq<nat>, weight: int)

  datatype VirtualNode = VirtualNode(hash: nat, node: RealNode)

  datatype Options = Options(factor: nat, weighted: bool)

  type Hash = seq<nat> -> nat

  /** What `getVirtualNodeLen` says, which is negative for a negative weight. */
  function VirtualNodeLen(opt: Options, node: RealNode): int {
    if opt.weighted then node.weight * opt.factor else opt.factor
  }

  /** How many serials the loop over that length hashes. */
  function SerialCount(opt: Options, node: RealNode): nat {
    var n := VirtualNodeLen(opt, node);
    if n < 0 then 0 else n
  }

  // The key width, from the longest address and the largest serial count.

  function MaxLen(nodes: seq<RealNode>): nat {
    if nodes == [] then 0 else
    var m, last := MaxLen(nodes[..|nodes| - 1]), |nodes[|nodes| - 1].addr|;
    if last > m then last else m
  }

  function MaxSerial(opt: Options, nodes: seq<RealNode>): nat {
    if nodes == [] then 0 else
    var m, last := MaxSerial(opt, nodes[..|nodes| - 1]), VirtualNodeLen(opt, nodes[|nodes| - 1]);
    if last > m then last else m
  }

  function Width(opt: Options, nodes: seq<RealNode>): nat {
    MaxLen(nodes) + 1 + UIntLen(MaxSerial(opt, nodes))
  }

  lemma {:induction false} MaxBounds(opt: Options, nodes: seq<RealNode>, i: nat)
    requires i < |nodes|
    ensures |nodes[i].addr| <= MaxLen(nodes) && VirtualNodeLen(opt, nodes[i]) <= MaxSerial(opt, nodes)
  {
    if i < |nodes| - 1 { MaxBounds(opt, nodes[..|nodes| - 1], i); }
  }

  /** Every serial of every node fits behind its '#'. */
  lemma SerialsFit(opt: Options, nodes: seq<RealNode>, i: nat, j: nat)
    requires i < |nodes| && j < VirtualNodeLen(opt, nodes[i])
    ensures |nodes[i].addr| < Width(opt, nodes)
    ensures Shift(j, Width(opt, nodes) - 1 - |nodes[i].addr|) == 0
  {
    MaxBounds(opt, nodes, i);
    SerialFits(j, MaxSerial(opt, nodes), Width(opt, nodes) - 1 - |nodes[i].addr|);
  }

  /** Within one build, distinct (address, serial) pairs are hashed from distinct keys. */
  lemma BuildKeysInjective(opt: Options, nodes: seq<RealNode>, i: nat, j: nat, i': nat, j': nat)
    requires i < |nodes| && j < VirtualNodeLen(opt, nodes[i])
    requires i' < |nodes| && j' < VirtualNodeLen(opt, nodes[i'])
    requires nodes[i].addr != nodes[i'].addr || j != j'
    ensures |nodes[i].addr| < Width(opt, nodes) && |nodes[i'].addr| < Width(opt, nodes)
    ensures Key(nodes[i].addr, j, Width(opt, nodes)) != Key(nodes[i'].addr, j', Width(opt, nodes))
  {
    SerialsFit(opt, nodes, i, j);
    SerialsFit(opt, nodes, i', j');
    if Key(nodes[i].addr, j, Width(opt, nodes)) == Key(nodes[i'].addr, j', Width(opt, nodes)) {
      KeysInjective(nodes[i].addr, j, nodes[i'].addr, j', Width(opt, nodes));
    }
  }

  // The virtual nodes before sorting.

  /** The first `n` virtual nodes of one real node. */
  function Serials(h: Hash, node: RealNode, l: nat, n: nat): (s: seq<VirtualNode>)
    requires |node.addr| < l
    ensures |s| == n && forall j :: 0 <= j < n ==> s[j] == VirtualNode(h(Key(node.addr, j, l)), node)
  {
    seq(n, j requires 0 <= j < n => VirtualNode(h(Key(node.addr, j, l)), node))
  }

  ghost predicate AllShorter(nodes: seq<RealNode>, l: nat) {
    forall i :: 0 <= i < |nodes| ==> |nodes[i].addr| < l
  }

  function VirtualNodes(h: Hash, opt: Options, nodes: seq<RealNode>, l: nat): seq<VirtualNode>
    requires forall i :: 0 <= i < |nodes| ==> |nodes[i].addr| < l
  {
    if nodes == [] then [] else
    var last := nodes[|nodes| - 1];
    VirtualNodes(h, opt, nodes[..|nodes| - 1], l) + Serials(h, last, l, SerialCount(opt, last))
  }

  lemma WidthFits(opt: Options, nodes: seq<RealNode>)
    ensures AllShorter(nodes, Width(opt, nodes))
  {
    forall i | 0 <= i < |nodes| ensures |nodes[i].addr| < Width(opt, nodes) { MaxBounds(opt, nodes, i); }
  }

  /** A virtual node is serial `j` of some real node. */
  ghost predicate IsSerial(h: Hash, opt: Options, node: RealNode, l: nat, v: VirtualNode, j: nat) {
    |node.addr| < l && j < VirtualNodeLen(opt, node) && v == VirtualNode(h(Key(node.addr, j, l)), node)
  }

  lemma {:induction false} VirtualNodesSound(h: Hash, opt: Options, nodes: seq<RealNode>, l: nat, v: VirtualNode)
      returns (i: nat, j: nat)
    requires AllShorter(nodes, l) && v in VirtualNodes(h, opt, nodes, l)
    ensures i < |nodes| && IsSerial(h, opt, nodes[i], l, v, j)
  {
    var init, last := nodes[..|nodes| - 1], nodes[|nodes| - 1];
    if v in VirtualNodes(h, opt, init, l) {
      i, j := VirtualNodesSound(h, opt, init, l, v);
    } else {
      var s := Serials(h, last, l, SerialCount(opt, last));
      assert v in s;
      var k :| 0 <= k < |s| && s[k] == v;
      i, j := |nodes| - 1, k;
    }
  }

  lemma {:induction false} VirtualNodesComplete(h: Hash, opt: Options, nodes: seq<RealNode>, l: nat, i: nat, j: nat)
    requires AllShorter(nodes, l) && i < |nodes| && j < VirtualNodeLen(opt, nodes[i])
    ensures VirtualNode(h(Key(nodes[i].addr, j, l)), nodes[i]) in VirtualNodes(h, opt, nodes, l)
  {
    var init, last := nodes[..|nodes| - 1], nodes[|nodes| - 1];
    if i < |nodes| - 1 {
      VirtualNodesComplete(h, opt, init, l, i, j);
    } else {
      var s := Serials(h, last, l, SerialCount(opt, last));
      assert s[j] in s;
    }
  }

  // Rings: the virtual nodes in some order of ascending hash.

  ghost predicate Ascending(ring: seq<VirtualNode>) {
    forall i, j :: 0 <= i < j < |ring| ==> ring[i].hash <= ring[j].hash
  }

  ghost predicate IsRing(h: Hash, opt: Options, nodes: seq<RealNode>, ring: seq<VirtualNode>) {
    && Ascending(ring)
    && AllShorter(nodes, Width(opt, nodes))
    && multiset(ring) == multiset(VirtualNodes(h, opt, nodes, Width(opt, nodes)))
  }

  lemma RingMember(h: Hash, opt: Options, nodes: seq<RealNode>, ring: seq<VirtualNode>, v: VirtualNode)
    requires IsRing(h, opt, nodes, ring)
    ensures v in ring <==> v in VirtualNodes(h, opt, nodes, Width(opt, nodes))
  {
    assert v in ring <==> v in multiset(ring);
  }

  // Lookup.

  /** `v` is the nearest virtual node above the key, or the lowest one if none is above it. */
  ghost predicate Owns(ring: seq<VirtualNode>, key: nat, v: VirtualNode) {
    && v in ring
    && if key < v.hash
       then forall u :: u in ring && key < u.hash ==> v.hash <= u.hash
       else forall u :: u in ring ==> u.hash <= key && v.hash <= u.hash
  }

  /** The binary search of `sort.Search`, then the wrap to the head; there is nothing to index in an empty ring. */
  method BuildConsistResult(ring: seq<VirtualNode>, key: nat) returns (v: Option<VirtualNode>)
    requires Ascending(ring)
    ensures v.None? <==> ring == []
    ensures v.Some? ==> Owns(ring, key, v.value)
  {
    var i, j := 0, |ring|;
    while i < j
      invariant 0 <= i <= j <= |ring|
      invariant forall k :: 0 <= k < i ==> ring[k].hash <= key
      invariant forall k :: j <= k < |ring| ==> key < ring[k].hash
    {
      var m := (i + j) / 2;
      if ring[m].hash > key {
        j := m;
      } else {
        i := m + 1;
      }
    }
    var index := if i == |ring| then 0 else i;
    v := if index < |ring| then Some(ring[index]) else None;
  }

  datatype Outcome = Nil | IndexPanic | Picked(node: RealNode)

  /** `consistPicker.Next` on the ring built for `nodes`. */
  method Next(nodes: seq<RealNode>, ring: seq<VirtualNode>, keyIsEmpty: bool, key: nat) returns (r: Outcome)
    requires Ascending(ring)
    ensures r.Nil? <==> nodes == [] || keyIsEmpty
    ensures r.IndexPanic? <==> nodes != [] && !keyIsEmpty && ring == []
    ensures r.Picked? ==> exists v :: Owns(ring, key, v) && r.node == v.node
  {
    if nodes == [] || keyIsEmpty { return Nil; }
    var v := BuildConsistResult(ring, key);
    match v
    case None => return IndexPanic;
    case Some(found) => return Picked(found.node);
  }

  /** A ring is empty, and a lookup on it out of range, exactly when no instance has a virtual node. */
  lemma EmptyRing(h: Hash, opt: Options, nodes: seq<RealNode>, ring: seq<VirtualNode>)
    requires IsRing(h, opt, nodes, ring)
    ensures ring == [] <==> forall i :: 0 <= i < |nodes| ==> VirtualNodeLen(opt, nodes[i]) <= 0
  {
    hide VirtualNodes, Width;
    var l := Width(opt, nodes);
    if ring == [] {
      forall i | 0 <= i < |nodes| ensures VirtualNodeLen(opt, nodes[i]) <= 0 {
        if VirtualNodeLen(opt, nodes[i]) > 0 {
          RingMember(h, opt, nodes, ring, VirtualNode(h(Key(nodes[i].addr, 0, l)), nodes[i]));
          VirtualNodesComplete(h, opt, nodes, l, i, 0);
        }
      }
    } else {
      RingMember(h, opt, nodes, ring, ring[0]);
      var i, j := VirtualNodesSound(h, opt, nodes, l, ring[0]);
    }
  }

  /** No two instances share a hash. */
  ghost predicate Separate(ring: seq<VirtualNode>) {
    forall u, v :: u in ring && v in ring && u.hash == v.hash ==> u.node == v.node
  }

  /** The owner's hash is determined by the ring and the key. */
  lemma OwnerHashUnique(ring: seq<VirtualNode>, key: nat, v: VirtualNode, u: VirtualNode)
    requires Owns(ring, key, v) && Owns(ring, key, u)
    ensures v.hash == u.hash
  {
  }

  // Removing an instance.

  function Without(nodes: seq<RealNode>, x: nat): seq<RealNode>
    requires x < |nodes|
  {
    nodes[..x] + nodes[x + 1..]
  }

  ghost predicate DistinctNodes(nodes: seq<RealNode>) {
    forall i, j :: 0 <= i < j < |nodes| ==> nodes[i].addr != nodes[j].addr
  }

  /** With the key width unchanged, the ring keeps exactly the other instances' virtual nodes. */
  lemma RemainingRing(h: Hash, opt: Options, nodes: seq<RealNode>, x: nat, l: nat, v: VirtualNode)
    requires x < |nodes| && DistinctNodes(nodes) && AllShorter(nodes, l)
    ensures AllShorter(Without(nodes, x), l)
    ensures v in VirtualNodes(h, opt, Without(nodes, x), l) <==>
              v in VirtualNodes(h, opt, nodes, l) && v.node != nodes[x]
  {
    hide VirtualNodes;
    var less := Without(nodes, x);
    assert AllShorter(less, l);
    if v in VirtualNodes(h, opt, less, l) {
      var i, j := VirtualNodesSound(h, opt, less, l, v);
      VirtualNodesComplete(h, opt, nodes, l, if i < x then i else i + 1, j);
    }
    if v in VirtualNodes(h, opt, nodes, l) && v.node != nodes[x] {
      var i, j := VirtualNodesSound(h, opt, nodes, l, v);
      var i' := if i < x then i else i - 1;
      assert less[i'] == nodes[i];
      VirtualNodesComplete(h, opt, less, l, i', j);
    }
  }

  /** In a ring that only lost nodes, an owner that is still there stays the owner. */
  lemma OwnerStays(ring: seq<VirtualNode>, less: seq<VirtualNode>, key: nat, v: VirtualNode, u: VirtualNode)
    requires Separate(ring) && Owns(ring, key, v) && v in less && Owns(less, key, u)
    requires forall w :: w in less ==> w in ring
    ensures u.node == v.node
  {
    assert Owns(less, key, v);
    OwnerHashUnique(less, key, u, v);
  }

  /**
  Minimal disruption: if removing an instance leaves the key width unchanged and no hash is
  shared between instances, only keys owned by the removed instance change owner.
  */
  lemma OnlyItsKeysMove(h: Hash, opt: Options, nodes: seq<RealNode>, x: nat,
                        ring: seq<VirtualNode>, less: seq<VirtualNode>, key: nat, v: VirtualNode, u: VirtualNode)
    requires x < |nodes| && DistinctNodes(nodes)
    requires IsRing(h, opt, nodes, ring) && IsRing(h, opt, Without(nodes, x), less)
    requires Width(opt, Without(nodes, x)) == Width(opt, nodes) && Separate(ring)
    requires Owns(ring, key, v) && Owns(less, key, u) && v.node != nodes[x]
    ensures u.node == v.node
  {
    hide VirtualNodes, Width;
    forall w ensures w in less <==> w in ring && w.node != nodes[x] {
      RemainingRing(h, opt, nodes, x, Width(opt, nodes), w);
      RingMember(h, opt, nodes, ring, w);
      RingMember(h, opt, Without(nodes, x), less, w);
    }
    OwnerStays(ring, less, key, v, u);
  }
}
