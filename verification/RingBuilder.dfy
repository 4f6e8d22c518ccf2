/** `buildVirtualNodes`, with its preallocated result and its reused byte buffer. */
module RingBuilder {
  import opened Discovery
  import opened RingKeys
  import opened HashRing
  import opened Arith
  import opened Sums

  // Sorting by hash; nothing is said about the order of equal hashes.

  function InsertByHash(v: VirtualNode, s: seq<VirtualNode>): seq<VirtualNode> {
    if s == [] || v.hash <= s[0].hash then [v] + s else [s[0]] + InsertByHash(v, s[1..])
  }

  function SortByHash(s: seq<VirtualNode>): seq<VirtualNode> {
    if s == [] then [] else InsertByHash(s[0], SortByHash(s[1..]))
  }

  lemma {:induction false} InsertAdds(v: VirtualNode, s: seq<VirtualNode>)
    ensures multiset(InsertByHash(v, s)) == multiset(s) + multiset{v}
  {
    if s != [] && v.hash > s[0].hash {
      InsertAdds(v, s[1..]);
      assert s == [s[0]] + s[1..];
    }
  }

  lemma InsertedMember(v: VirtualNode, s: seq<VirtualNode>, u: VirtualNode)
    ensures u in InsertByHash(v, s) <==> u == v || u in s
  {
    hide InsertByHash;
    InsertAdds(v, s);
    assert u in InsertByHash(v, s) <==> u in multiset(InsertByHash(v, s));
    assert u in s <==> u in multiset(s);
  }

  lemma {:induction false} InsertAscends(v: VirtualNode, s: seq<VirtualNode>)
    requires Ascending(s)
    ensures Ascending(InsertByHash(v, s))
  {
    if s != [] && v.hash > s[0].hash {
      var t := InsertByHash(v, s[1..]);
      InsertAscends(v, s[1..]);
      forall j | 0 <= j < |t| ensures s[0].hash <= t[j].hash { InsertedMember(v, s[1..], t[j]); }
      PrependAscends(s[0], t);
    }
  }

  lemma PrependAscends(v: VirtualNode, s: seq<VirtualNode>)
    requires Ascending(s) && forall j :: 0 <= j < |s| ==> v.hash <= s[j].hash
    ensures Ascending([v] + s)
  {
  }

  lemma {:induction false} SortKeeps(s: seq<VirtualNode>)
    ensures Ascending(SortByHash(s)) && multiset(SortByHash(s)) == multiset(s)
  {
    hide InsertByHash;
    if s != [] {
      SortKeeps(s[1..]);
      InsertAdds(s[0], SortByHash(s[1..]));
      InsertAscends(s[0], SortByHash(s[1..]));
      assert s == [s[0]] + s[1..];
    }
  }

  method Sort(s: seq<VirtualNode>) returns (ring: seq<VirtualNode>)
    ensures Ascending(ring) && multiset(ring) == multiset(s)
  {
    SortKeeps(s);
    ring := SortByHash(s);
  }

  /** The width loop. */
  method KeyWidth(opt: Options, nodes: seq<RealNode>) returns (l: nat)
    ensures l == Width(opt, nodes)
  {
    var maxLen, maxSerial := 0, 0;
    for i := 0 to |nodes|
      invariant maxLen == MaxLen(nodes[..i]) && maxSerial == MaxSerial(opt, nodes[..i])
    {
      assert nodes[..i + 1][..i] == nodes[..i];
      if |nodes[i].addr| > maxLen { maxLen := |nodes[i].addr|; }
      var vNodeLen := VirtualNodeLen(opt, nodes[i]);
      if vNodeLen > maxSerial { maxSerial := vNodeLen; }
    }
    assert nodes[..|nodes|] == nodes;
    var digits := GetUIntLen(maxSerial);
    l := maxLen + 1 + digits;
  }

  /**
  Puts the serials of one node into `ret` from index `cur` on: each hash is of that serial's own
  key, whatever the buffer held before. It fails when an index is out of range.
  */
  method FillSerials(h: Hash, opt: Options, node: RealNode, b: array<nat>, ghost max: nat,
                     ret: array<VirtualNode>, cur: int) returns (ok: bool)
    requires |node.addr| < b.Length
    requires VirtualNodeLen(opt, node) <= max && UIntLen(max) <= b.Length - 1 - |node.addr|
    modifies b, ret
    ensures var n := SerialCount(opt, node);
            && (ok <==> n == 0 || (0 <= cur && cur + n <= ret.Length))
            && (n == 0 ==> ret[..] == old(ret[..]))
            && (ok && n > 0 ==> ret[..] == old(ret[..cur]) + Serials(h, node, b.Length, n) + old(ret[cur + n..]))
  {
    hide UIntLen, Shift, Key, VirtualNodeLen;
    WriteAddress(b, node.addr);
    var vLen := VirtualNodeLen(opt, node);
    ghost var prev := 0;
    ghost var before := ret[..];
    var i := 0;
    while i < vLen
      invariant 0 <= i && (i <= vLen || i == 0) && prev <= i && b[..] == Key(node.addr, prev, b.Length)
      invariant i == 0 ==> ret[..] == before
      invariant i > 0 ==> 0 <= cur && cur + i <= ret.Length
      invariant i > 0 ==> ret[..] == before[..cur] + Serials(h, node, b.Length, i) + before[cur + i..]
    {
      SerialFits(i, max, b.Length - 1 - |node.addr|);
      WriteSerial(b, node.addr, prev, i);
      prev := i;
      var index := cur + i;
      if index < 0 || index >= ret.Length { return false; }
      ret[index] := VirtualNode(h(b[..]), node);
      i := i + 1;
      Filled(h, node, b.Length, before, ret[..], cur, i);
    }
    return true;
  }

  /** One more serial in its place. */
  lemma Filled(h: Hash, node: RealNode, l: nat, before: seq<VirtualNode>, after: seq<VirtualNode>, cur: nat, i: nat)
    requires |node.addr| < l && i > 0 && cur + i <= |before| == |after|
    requires forall k :: 0 <= k < |after| ==>
               after[k] == if cur <= k < cur + i then VirtualNode(h(Key(node.addr, k - cur, l)), node) else before[k]
    ensures after == before[..cur] + Serials(h, node, l, i) + before[cur + i..]
  {
  }

  /** The length of the preallocated result. */
  function TotalLen(opt: Options, nodes: seq<RealNode>): int {
    if nodes == [] then 0 else TotalLen(opt, nodes[..|nodes| - 1]) + VirtualNodeLen(opt, nodes[|nodes| - 1])
  }

  ghost predicate NoneNegative(opt: Options, nodes: seq<RealNode>) {
    forall i :: 0 <= i < |nodes| ==> VirtualNodeLen(opt, nodes[i]) >= 0
  }

  /** Negative lengths make the result too short for the virtual nodes there are. */
  lemma {:induction false} TotalIsCount(h: Hash, opt: Options, nodes: seq<RealNode>, l: nat)
    requires AllShorter(nodes, l)
    ensures TotalLen(opt, nodes) <= |VirtualNodes(h, opt, nodes, l)|
    ensures TotalLen(opt, nodes) == |VirtualNodes(h, opt, nodes, l)| <==> NoneNegative(opt, nodes)
  {
    hide VirtualNodeLen, Serials;
    if nodes != [] {
      var init := nodes[..|nodes| - 1];
      TotalIsCount(h, opt, init, l);
      assert NoneNegative(opt, nodes) <==> NoneNegative(opt, init) && VirtualNodeLen(opt, nodes[|nodes| - 1]) >= 0;
    }
  }

  function WeightsOf(nodes: seq<RealNode>): (w: seq<int>)
    ensures |w| == |nodes| && forall i :: 0 <= i < |w| ==> w[i] == nodes[i].weight
  {
    seq(|nodes|, i requires 0 <= i < |nodes| => nodes[i].weight)
  }

  /** The total: the factor per instance, or per unit of weight when weights count. */
  lemma {:induction false} TotalByOption(opt: Options, nodes: seq<RealNode>)
    ensures TotalLen(opt, nodes) == opt.factor * if opt.weighted then Sum(WeightsOf(nodes)) else |nodes|
  {
    if nodes != [] {
      var init, last := nodes[..|nodes| - 1], nodes[|nodes| - 1];
      TotalByOption(opt, init);
      assert WeightsOf(nodes)[..|nodes| - 1] == WeightsOf(init);
      Distribute(opt.factor, Sum(WeightsOf(init)), last.weight);
      Distribute(opt.factor, |init|, 1);
    }
  }

  lemma {:induction false} TotalOfPrefix(opt: Options, nodes: seq<RealNode>, i: nat)
    requires i <= |nodes| && NoneNegative(opt, nodes)
    ensures TotalLen(opt, nodes[..i]) <= TotalLen(opt, nodes)
  {
    hide VirtualNodeLen;
    if i == |nodes| {
      assert nodes[..i] == nodes;
    } else {
      var init := nodes[..|nodes| - 1];
      TotalOfPrefix(opt, init, i);
      assert init[..i] == nodes[..i];
    }
  }

  /** One more node's serials, which fit behind the earlier ones. */
  lemma NextNode(h: Hash, opt: Options, nodes: seq<RealNode>, l: nat, i: nat)
    requires AllShorter(nodes, l) && i < |nodes|
    ensures AllShorter(nodes[..i], l) && AllShorter(nodes[..i + 1], l)
    ensures VirtualNodes(h, opt, nodes[..i + 1], l) ==
              VirtualNodes(h, opt, nodes[..i], l) + Serials(h, nodes[i], l, SerialCount(opt, nodes[i]))
    ensures NoneNegative(opt, nodes) ==>
              |VirtualNodes(h, opt, nodes[..i], l)| + SerialCount(opt, nodes[i]) <= TotalLen(opt, nodes)
  {
    hide VirtualNodeLen, Serials;
    assert nodes[..i + 1][..i] == nodes[..i];
    TotalIsCount(h, opt, nodes[..i + 1], l);
    if NoneNegative(opt, nodes) { TotalOfPrefix(opt, nodes, i + 1); }
  }

  method SumLens(opt: Options, nodes: seq<RealNode>) returns (totalLen: int)
    ensures totalLen == TotalLen(opt, nodes)
  {
    totalLen := 0;
    for i := 0 to |nodes|
      invariant totalLen == TotalLen(opt, nodes[..i])
    {
      assert nodes[..i + 1][..i] == nodes[..i];
      totalLen := totalLen + VirtualNodeLen(opt, nodes[i]);
    }
    assert nodes[..|nodes|] == nodes;
  }

  /** Fills the preallocated result; without negative lengths it ends up with all virtual nodes in order. */
  method FillNodes(h: Hash, opt: Options, nodes: seq<RealNode>, ret: array<VirtualNode>) returns (ok: bool)
    requires ret.Length == TotalLen(opt, nodes)
    modifies ret
    ensures AllShorter(nodes, Width(opt, nodes))
    ensures NoneNegative(opt, nodes) ==> ok && ret[..] == VirtualNodes(h, opt, nodes, Width(opt, nodes))
  {
    hide Serials, UIntLen, MaxLen, MaxSerial, VirtualNodeLen, SerialCount, VirtualNodes, TotalLen;
    WidthFits(opt, nodes);
    var l := KeyWidth(opt, nodes);
    var b := new nat[l](_ => 0);
    ghost var max := MaxSerial(opt, nodes);
    var cur := 0;
    NoVirtualNodes(h, opt, nodes[..0], l);
    for i := 0 to |nodes|
      invariant AllShorter(nodes[..i], l)
      invariant NoneNegative(opt, nodes) ==>
                  0 <= cur <= ret.Length && ret[..cur] == VirtualNodes(h, opt, nodes[..i], l)
    {
      MaxBounds(opt, nodes, i);
      NextNode(h, opt, nodes, l, i);
      CountIsLen(opt, nodes, i);
      var fits := FillSerials(h, opt, nodes[i], b, max, ret, cur);
      if !fits { return false; }
      cur := cur + VirtualNodeLen(opt, nodes[i]);
    }
    assert nodes[..|nodes|] == nodes;
    TotalIsCount(h, opt, nodes, l);
    return true;
  }

  lemma NoVirtualNodes(h: Hash, opt: Options, nodes: seq<RealNode>, l: nat)
    requires nodes == []
    ensures AllShorter(nodes, l) && VirtualNodes(h, opt, nodes, l) == []
  {
  }

  lemma CountIsLen(opt: Options, nodes: seq<RealNode>, i: nat)
    requires i < |nodes|
    ensures NoneNegative(opt, nodes) ==> SerialCount(opt, nodes[i]) == VirtualNodeLen(opt, nodes[i])
  {
  }

  /**
  The result is the ring of these nodes exactly when no length is negative. Otherwise the result
  is too short: the allocation or an index is out of range, or virtual nodes are overwritten.
  */
  method BuildVirtualNodes(h: Hash, opt: Options, nodes: seq<RealNode>) returns (ring: Option<seq<VirtualNode>>)
    ensures NoneNegative(opt, nodes) <==> ring.Some? && IsRing(h, opt, nodes, ring.value)
    ensures ring.Some? ==> Ascending(ring.value)
    ensures ring.Some? ==> |ring.value| == opt.factor * if opt.weighted then Sum(WeightsOf(nodes)) else |nodes|
  {
    hide TotalLen, VirtualNodes, Width, NoneNegative, Sum, WeightsOf;
    ghost var l := Width(opt, nodes);
    WidthFits(opt, nodes);
    TotalIsCount(h, opt, nodes, l);
    TotalByOption(opt, nodes);
    var totalLen := SumLens(opt, nodes);
    if totalLen < 0 { return None; }
    var ret := new VirtualNode[totalLen](_ => VirtualNode(0, RealNode([], 0)));
    if totalLen == 0 {
      assert ret[..] == [];
      assert NoneNegative(opt, nodes) ==> VirtualNodes(h, opt, nodes, l) == [];
      if IsRing(h, opt, nodes, ret[..]) { SameSize(ret[..], VirtualNodes(h, opt, nodes, l)); }
      return Some(ret[..]);
    }
    var ok := FillNodes(h, opt, nodes, ret);
    if !ok { return None; }
    var sorted := Sort(ret[..]);
    SameSize(sorted, ret[..]);
    if IsRing(h, opt, nodes, sorted) { SameSize(sorted, VirtualNodes(h, opt, nodes, l)); }
    return Some(sorted);
  }

  lemma SameSize(a: seq<VirtualNode>, b: seq<VirtualNode>)
    requires multiset(a) == multiset(b)
    ensures |a| == |b|
  {
    assert |multiset(a)| == |a| && |multiset(b)| == |b|;
  }

  /** Every hash has a ring. */
  lemma SomeRing(h: Hash, opt: Options, nodes: seq<RealNode>) returns (ring: seq<VirtualNode>)
    ensures IsRing(h, opt, nodes, ring)
  {
    hide VirtualNodes, Width, SortByHash;
    WidthFits(opt, nodes);
    ring := SortByHash(VirtualNodes(h, opt, nodes, Width(opt, nodes)));
    SortKeeps(VirtualNodes(h, opt, nodes, Width(opt, nodes)));
  }

  // The converse of minimal disruption.

  /** `b` is laid out as a key of this address. */
  ghost predicate KeyOf(b: seq<nat>, addr: seq<nat>) {
    && |addr| < |b|
    && b[..|addr|] == addr && b[|addr|] == HASH_SIGN
    && forall k :: |addr| < k < |b| ==> b[k] < 10
  }

  lemma KeyIsKeyOf(addr: seq<nat>, j: nat, l: nat)
    requires |addr| < l
    ensures KeyOf(Key(addr, j, l), addr)
  {
    forall k | |addr| < k < l ensures Key(addr, j, l)[k] < 10 { KeyAt(addr, j, l, k); }
  }

  lemma KeyOfUnique(b: seq<nat>, addr: seq<nat>, addr': seq<nat>)
    requires KeyOf(b, addr) && KeyOf(b, addr')
    ensures addr == addr'
  {
  }

  /** The position of the instance a key belongs to. */
  ghost function Owner(nodes: seq<RealNode>, b: seq<nat>): nat {
    if nodes == [] then 0
    else if KeyOf(b, nodes[|nodes| - 1].addr) then |nodes| - 1
    else Owner(nodes[..|nodes| - 1], b)
  }

  lemma {:induction false} OwnerOfKey(nodes: seq<RealNode>, b: seq<nat>, i: nat)
    requires i < |nodes| && DistinctNodes(nodes) && KeyOf(b, nodes[i].addr)
    ensures Owner(nodes, b) == i
  {
    if KeyOf(b, nodes[|nodes| - 1].addr) {
      KeyOfUnique(b, nodes[i].addr, nodes[|nodes| - 1].addr);
    } else {
      OwnerOfKey(nodes[..|nodes| - 1], b, i);
    }
  }

  /** A hash that puts instance `first` lowest and `second` next, and every other instance above them. */
  ghost function Rank(i: nat, first: nat, second: nat): nat {
    if i == first then 0 else if i == second then 1 else i + 2
  }

  /** Keys of length `l` rank `a` before `c`, all other keys rank `c` before `a`. */
  ghost function FlippingHash(nodes: seq<RealNode>, l: nat, a: nat, c: nat): Hash {
    (b: seq<nat>) => if |b| == l then Rank(Owner(nodes, b), a, c) else Rank(Owner(nodes, b), c, a)
  }

  /** Every hash of a part of the nodes is the rank of its own instance. */
  lemma RankedRing(nodes: seq<RealNode>, h: Hash, opt: Options, part: seq<RealNode>, ring: seq<VirtualNode>,
                   first: nat, second: nat, v: VirtualNode) returns (i: nat)
    requires DistinctNodes(nodes) && IsRing(h, opt, part, ring) && v in ring
    requires forall k :: 0 <= k < |part| ==> part[k] in nodes
    requires forall b :: |b| == Width(opt, part) ==> h(b) == Rank(Owner(nodes, b), first, second)
    ensures i < |nodes| && v.node == nodes[i] && v.hash == Rank(i, first, second)
  {
    hide VirtualNodes, Width, Owner;
    var l := Width(opt, part);
    RingMember(h, opt, part, ring, v);
    var k, j := VirtualNodesSound(h, opt, part, l, v);
    i :| 0 <= i < |nodes| && nodes[i] == part[k];
    var b := Key(part[k].addr, j, l);
    KeyIsKeyOf(part[k].addr, j, l);
    OwnerOfKey(nodes, b, i);
    assert |b| == l;
  }

  /** With every hash a rank, a key above all ranks belongs to the lowest-ranked instance present. */
  lemma LowestOwns(nodes: seq<RealNode>, h: Hash, opt: Options, part: seq<RealNode>, ring: seq<VirtualNode>,
                   first: nat, second: nat, key: nat, k: nat) returns (v: VirtualNode)
    requires DistinctNodes(nodes) && IsRing(h, opt, part, ring) && key > |nodes| + 2
    requires forall m :: 0 <= m < |part| ==> part[m] in nodes
    requires forall b :: |b| == Width(opt, part) ==> h(b) == Rank(Owner(nodes, b), first, second)
    requires first < |nodes| && k < |part| && part[k] == nodes[first] && VirtualNodeLen(opt, part[k]) > 0
    requires second < |nodes|
    ensures Separate(ring) && Owns(ring, key, v) && v.node == nodes[first]
  {
    hide VirtualNodes, Width, Owner, VirtualNodeLen;
    var l := Width(opt, part);
    VirtualNodesComplete(h, opt, part, l, k, 0);
    v := VirtualNode(h(Key(part[k].addr, 0, l)), part[k]);
    RingMember(h, opt, part, ring, v);
    var i := RankedRing(nodes, h, opt, part, ring, first, second, v);
    assert i == first;
    forall u | u in ring ensures v.hash <= u.hash <= key {
      var i' := RankedRing(nodes, h, opt, part, ring, first, second, u);
    }
    forall u, w | u in ring && w in ring && u.hash == w.hash ensures u.node == w.node {
      var i' := RankedRing(nodes, h, opt, part, ring, first, second, u);
      var j' := RankedRing(nodes, h, opt, part, ring, first, second, w);
    }
  }

  /**
  The condition on the key width cannot be dropped: if removing instance `x` changes the width
  and two other instances have virtual nodes, some hash without any collision between instances
  makes a key move from one of the two to the other.
  */
  lemma OtherKeysMove(opt: Options, nodes: seq<RealNode>, x: nat, a: nat, c: nat)
      returns (h: Hash, ring: seq<VirtualNode>, less: seq<VirtualNode>, key: nat, v: VirtualNode, u: VirtualNode)
    requires DistinctNodes(nodes) && x < |nodes| && a < |nodes| && c < |nodes| && a != c && x != a && x != c
    requires VirtualNodeLen(opt, nodes[a]) > 0 && VirtualNodeLen(opt, nodes[c]) > 0
    requires Width(opt, Without(nodes, x)) != Width(opt, nodes)
    ensures IsRing(h, opt, nodes, ring) && IsRing(h, opt, Without(nodes, x), less)
    ensures Separate(ring) && Separate(less) && Owns(ring, key, v) && Owns(less, key, u)
    ensures v.node != nodes[x] && u.node != v.node
  {
    hide VirtualNodes, Width, Owner, VirtualNodeLen, Rank, IsRing;
    var part := Without(nodes, x);
    h, key := FlippingHash(nodes, Width(opt, nodes), a, c), |nodes| + 3;
    ring := SomeRing(h, opt, nodes);
    less := SomeRing(h, opt, part);
    v := LowestOwns(nodes, h, opt, nodes, ring, a, c, key, a);
    var k := if c < x then c else c - 1;
    assert part[k] == nodes[c];
    u := LowestOwns(nodes, h, opt, part, less, c, a, key, k);
  }

  /** With at most one other instance on the ring there is nowhere else for its keys to go. */
  lemma LoneInstanceKeepsKeys(h: Hash, opt: Options, nodes: seq<RealNode>, x: nat, a: nat,
                              ring: seq<VirtualNode>, less: seq<VirtualNode>, key: nat, v: VirtualNode, u: VirtualNode)
    requires x < |nodes| && a < |nodes|
    requires forall i :: 0 <= i < |nodes| && i != x && i != a ==> VirtualNodeLen(opt, nodes[i]) <= 0
    requires IsRing(h, opt, nodes, ring) && IsRing(h, opt, Without(nodes, x), less)
    requires Owns(ring, key, v) && Owns(less, key, u) && v.node != nodes[x]
    ensures u.node == v.node
  {
    hide VirtualNodes, Width, VirtualNodeLen;
    RingMember(h, opt, nodes, ring, v);
    var i, j := VirtualNodesSound(h, opt, nodes, Width(opt, nodes), v);
    var part := Without(nodes, x);
    RingMember(h, opt, part, less, u);
    var k, j' := VirtualNodesSound(h, opt, part, Width(opt, part), u);
    assert part[k] == nodes[if k < x then k else k + 1];
  }

  /** A key and its owners before and after removing instance `x`, under a hash without collisions between instances. */
  ghost predicate Removal(h: Hash, opt: Options, nodes: seq<RealNode>, x: nat, ring: seq<VirtualNode>,
                          less: seq<VirtualNode>, key: nat, v: VirtualNode, u: VirtualNode)
    requires x < |nodes|
  {
    && IsRing(h, opt, nodes, ring) && IsRing(h, opt, Without(nodes, x), less) && Separate(ring)
    && Owns(ring, key, v) && Owns(less, key, u)
  }

  /** Whatever the collision-free hash, removing instance `x` moves only its own keys. */
  ghost predicate MovesOnlyItsKeys(opt: Options, nodes: seq<RealNode>, x: nat)
    requires x < |nodes|
  {
    forall h: Hash, ring, less, key, v, u ::
      Removal(h, opt, nodes, x, ring, less, key, v, u) && v.node != nodes[x] ==> u.node == v.node
  }

  /** At most one instance besides `x` has virtual nodes. */
  ghost predicate AtMostOneOther(opt: Options, nodes: seq<RealNode>, x: nat) {
    forall a, c :: 0 <= a < c < |nodes| && a != x && c != x ==>
      VirtualNodeLen(opt, nodes[a]) <= 0 || VirtualNodeLen(opt, nodes[c]) <= 0
  }

  /** Minimal disruption, exactly: the key width stays the same, or there is nowhere else for a key to go. */
  lemma MinimalDisruption(opt: Options, nodes: seq<RealNode>, x: nat)
    requires x < |nodes| && DistinctNodes(nodes)
    ensures MovesOnlyItsKeys(opt, nodes, x) <==>
              Width(opt, Without(nodes, x)) == Width(opt, nodes) || AtMostOneOther(opt, nodes, x)
  {
    hide Width, VirtualNodeLen, IsRing, Owns, Separate, DistinctNodes, Without;
    if Width(opt, Without(nodes, x)) == Width(opt, nodes) || AtMostOneOther(opt, nodes, x) {
      forall h: Hash, ring, less, key, v, u
        | Removal(h, opt, nodes, x, ring, less, key, v, u) && v.node != nodes[x]
        ensures u.node == v.node
      {
        OwnerKept(h, opt, nodes, x, ring, less, key, v, u);
      }
    } else {
      var a, c :| 0 <= a < c < |nodes| && a != x && c != x
                  && VirtualNodeLen(opt, nodes[a]) > 0 && VirtualNodeLen(opt, nodes[c]) > 0;
      var h, ring, less, key, v, u := OtherKeysMove(opt, nodes, x, a, c);
      assert Removal(h, opt, nodes, x, ring, less, key, v, u);
    }
  }

  lemma OwnerKept(h: Hash, opt: Options, nodes: seq<RealNode>, x: nat, ring: seq<VirtualNode>,
                  less: seq<VirtualNode>, key: nat, v: VirtualNode, u: VirtualNode)
    requires x < |nodes| && DistinctNodes(nodes) && Removal(h, opt, nodes, x, ring, less, key, v, u) && v.node != nodes[x]
    requires Width(opt, Without(nodes, x)) == Width(opt, nodes) || AtMostOneOther(opt, nodes, x)
    ensures u.node == v.node
  {
    hide Width, VirtualNodeLen, Separate, DistinctNodes, VirtualNodes;
    if Width(opt, Without(nodes, x)) == Width(opt, nodes) {
      OnlyItsKeysMove(h, opt, nodes, x, ring, less, key, v, u);
    } else {
      var a := LoneOther(h, opt, nodes, x, ring, v);
      LoneInstanceKeepsKeys(h, opt, nodes, x, a, ring, less, key, v, u);
    }
  }

  /** The owner of a virtual node that is not on the removed instance is the one other instance there is. */
  lemma LoneOther(h: Hash, opt: Options, nodes: seq<RealNode>, x: nat, ring: seq<VirtualNode>, v: VirtualNode)
      returns (a: nat)
    requires x < |nodes| && AtMostOneOther(opt, nodes, x) && IsRing(h, opt, nodes, ring) && v in ring && v.node != nodes[x]
    ensures a < |nodes|
    ensures forall i :: 0 <= i < |nodes| && i != x && i != a ==> VirtualNodeLen(opt, nodes[i]) <= 0
  {
    hide VirtualNodes, Width, VirtualNodeLen;
    RingMember(h, opt, nodes, ring, v);
    var i, j := VirtualNodesSound(h, opt, nodes, Width(opt, nodes), v);
    a := i;
  }
}
