/** `WeightedRoundRobinPicker` with its nodes and table updated in place, against `WrrCache`. */
module WrrPicker {
  import opened Arith
  import opened Discovery
  import opened Gcd
  import opened Sums
  import opened SmoothWrr
  import opened WrrCache

  /** The ticket counter behind the round-robin pickers. */
  class Round {
    var state: nat

    ghost predicate Valid() reads this { state < TWO_64 }

    constructor (start: nat)
      requires start < TWO_64
      ensures Valid() && state == start
    {
      state := start;
    }

    method Next() returns (ticket: nat)
      requires Valid()
      modifies this
      ensures Valid() && ticket == state == (old(state) + 1) % TWO_64
    {
      state := (state + 1) % TWO_64;
      ticket := state;
    }
  }

  class WrrNode {
    const instance: Instance
    var current: int

    constructor (instance: Instance)
      ensures this.instance == instance && current == 0
    {
      this.instance := instance;
      current := 0;
    }
  }

  ghost predicate DistinctNodes(nodes: seq<WrrNode>) {
    forall i, j :: 0 <= i < j < |nodes| ==> nodes[i] != nodes[j]
  }

  ghost function Instances(nodes: seq<WrrNode>): (ins: seq<Instance>)
    ensures |ins| == |nodes| && forall i :: 0 <= i < |ins| ==> ins[i] == nodes[i].instance
  {
    seq(|nodes|, i requires 0 <= i < |nodes| => nodes[i].instance)
  }

  ghost function Currents(nodes: seq<WrrNode>): (cur: seq<int>)
    reads nodes
    ensures |cur| == |nodes| && forall i :: 0 <= i < |cur| ==> cur[i] == nodes[i].current
  {
    seq(|nodes|, i requires 0 <= i < |nodes| reads nodes => nodes[i].current)
  }

  // What the loop of `NextWrrNode` accumulates, one node at a time.

  lemma ArgMaxPrefix(b: seq<int>, k: nat)
    requires k < |b|
    ensures k == 0 ==> ArgMax(b[..1]) == 0
    ensures k > 0 ==> ArgMax(b[..k + 1]) == if b[k] > b[ArgMax(b[..k])] then k else ArgMax(b[..k])
  {
    assert b[..k + 1][..k] == b[..k];
  }

  lemma SumPrefix(w: seq<int>, k: nat)
    requires k < |w|
    ensures Sum(w[..k + 1]) == Sum(w[..k]) + w[k]
  {
    assert w[..k + 1][..k] == w[..k];
  }

  lemma StepFromParts(before: seq<int>, w: seq<nat>, after: seq<int>, m: nat)
    requires |before| == |w| == |after| > 0 && m == ArgMax(Bump(before, w)[..|w|])
    requires forall j :: 0 <= j < |w| ==> after[j] == Bump(before, w)[j] - if j == m then Sum(w[..|w|]) else 0
    ensures m == ArgMax(Bump(before, w)) && after == Step(before, w)
  {
    assert w[..|w|] == w && Bump(before, w)[..|w|] == Bump(before, w);
  }

  /** The loop: every node is bumped; the first largest one and the total weight are found on the way. */
  method BumpAll(nodes: seq<WrrNode>, ghost w: seq<nat>) returns (selected: WrrNode?, totalWeight: int)
    requires DistinctNodes(nodes)
    requires |w| == |nodes| && forall j :: 0 <= j < |w| ==> w[j] == nodes[j].instance.weight
    modifies nodes
    ensures var b := Bump(old(Currents(nodes)), w);
            && (forall j :: 0 <= j < |nodes| ==> nodes[j].current == b[j])
            && totalWeight == Sum(w[..|w|])
            && (nodes == [] <==> selected == null) && (nodes != [] ==> selected == nodes[ArgMax(b[..|w|])])
  {
    hide ArgMax, Sum;
    ghost var before := Currents(nodes);
    ghost var b := Bump(before, w);
    ghost var m := 0;
    selected := null;
    var maxCurrent := 0;
    totalWeight := 0;
    assert Sum(w[..0]) == 0 by { SumZeros(w[..0]); }
    for k := 0 to |nodes|
      invariant totalWeight == Sum(w[..k])
      invariant forall j :: 0 <= j < |nodes| ==> nodes[j].current == if j < k then b[j] else before[j]
      invariant k == 0 <==> selected == null
      invariant k > 0 ==> m < k && m == ArgMax(b[..k]) && selected == nodes[m] && maxCurrent == b[m]
    {
      var node := nodes[k];
      node.current := node.current + node.instance.weight;
      totalWeight := totalWeight + node.instance.weight;
      SumPrefix(w, k);
      ArgMaxPrefix(b, k);
      if selected == null || node.current > maxCurrent {
        selected := node;
        maxCurrent := node.current;
        m := k;
      }
    }
  }

  /** Selects the next node in place; no nodes give no node. */
  method NextWrrNode(nodes: seq<WrrNode>) returns (selected: WrrNode?)
    requires DistinctNodes(nodes) && (nodes != [] ==> PositiveWeights(Instances(nodes)))
    modifies nodes
    ensures nodes == [] <==> selected == null
    ensures nodes != [] ==>
              var w, before := Weights(Instances(nodes)), old(Currents(nodes));
              selected == nodes[ArgMax(Bump(before, w))] && Currents(nodes) == Step(before, w)
  {
    hide ArgMax, Sum, Step, Bump;
    ghost var w, before := if nodes == [] then [] else Weights(Instances(nodes)), Currents(nodes);
    var totalWeight;
    selected, totalWeight := BumpAll(nodes, w);
    if selected == null { return; }
    selected.current := selected.current - totalWeight;
    StepFromParts(before, w, Currents(nodes), ArgMax(Bump(before, w)[..|w|]));
  }

  // What the constructor's loop accumulates over the weights.

  lemma EmptyFold()
    ensures Sum([]) == 0 && GcdOf([]) == 0
  {
  }

  lemma FoldStep(w: seq<nat>, k: nat)
    requires k < |w|
    ensures Sum(w[..k + 1]) == Sum(w[..k]) + w[k]
    ensures GcdOf(w[..k + 1]) == Euclid(GcdOf(w[..k]), w[k])
  {
    assert w[..k + 1][..k] == w[..k];
  }

  lemma FoldEnd(w: seq<nat>)
    requires Positive(w)
    ensures GcdOf(w[..|w|]) > 0 && Sum(w[..|w|]) / GcdOf(w[..|w|]) == Cycle(w)
  {
    assert w[..|w|] == w;
    GcdDividesAll(w);
  }

  /** The constructor's loop: the rotated nodes, all at zero, and the length of the table. */
  method NewNodes(instances: seq<Instance>, offset: nat) returns (nodes: seq<WrrNode>, capacity: nat)
    requires PositiveWeights(instances) && offset < |instances|
    ensures fresh(nodes) && DistinctNodes(nodes) && Instances(nodes) == Rotate(instances, offset)
    ensures forall j :: 0 <= j < |nodes| ==> nodes[j].current == 0
    ensures capacity == Cycle(Weights(Rotate(instances, offset)))
  {
    hide Sum, GcdOf, Euclid, Cycle, RotatedAt, Rotate;
    RotatePositive(instances, offset);
    ghost var ins := Rotate(instances, offset);
    ghost var w := Weights(ins);
    var totalWeight, gcd: nat := 0, 0;
    nodes := [];
    EmptyFold();
    for idx := 0 to |instances|
      invariant |nodes| == idx && totalWeight == Sum(w[..idx]) && gcd == GcdOf(w[..idx])
      invariant forall j :: 0 <= j < idx ==> fresh(nodes[j]) && nodes[j].instance == ins[j] && nodes[j].current == 0
      invariant DistinctNodes(nodes)
    {
      var instance := RotatedAt(instances, offset, idx);
      FoldStep(w, idx);
      totalWeight := totalWeight + instance.weight;
      gcd := GcdInt(gcd, instance.weight);
      var node := new WrrNode(instance);
      nodes := nodes + [node];
    }
    FoldEnd(w);
    capacity := totalWeight / gcd;
    assert Instances(nodes) == ins;
  }

  class WeightedRoundRobinPicker {
    var nodes: seq<WrrNode>
    var size: nat
    var tickets: Round
    var vsize: nat
    var vcapacity: nat
    var vnodes: array<Option<Instance>>

    ghost function Ins(): seq<Instance> reads this { Instances(nodes) }

    /** The node weights, the filled size and the table, as one value. */
    ghost function Abstract(): Cache
      reads this, nodes, vnodes
    {
      Cache(Currents(nodes), vsize, vnodes[..])
    }

    ghost predicate Valid()
      reads this, nodes, vnodes, tickets
    {
      && DistinctNodes(nodes)
      && size == |nodes|
      && vcapacity == vnodes.Length
      && tickets.Valid()
      && WellFormed(Ins(), Abstract())
      && Faithful(Ins(), Abstract())
    }

    constructor (instances: seq<Instance>, offset: nat)
      requires PositiveWeights(instances) && offset < |instances|
      ensures Valid() && fresh(nodes) && fresh(vnodes) && fresh(tickets)
      ensures Ins() == Rotate(instances, offset) && tickets.state == 0
      ensures Abstract() == Init(Ins()).cache
    {
      hide Faithful, Build, Cycle, Currents, RotatedAt, Rotate, Weights, Instances;
      RotatePositive(instances, offset);
      tickets := new Round(0);
      size := |instances|;
      ghost var ins := Rotate(instances, offset);
      var list, capacity := NewNodes(instances, offset);
      nodes := list;
      vcapacity := capacity;
      vnodes := new Option<Instance>[capacity](_ => None);
      vsize := 0;
      new;
      assert Ins() == ins;
      assert Abstract() == EmptyCache(ins);
      EmptyFaithful(ins);
      BuildVirtualWrrNodes(BATCH_SIZE);
    }

    /** One round of the filling loop: the next virtual node. */
    method FillNext()
      requires Valid() && vsize < vcapacity
      modifies this`vsize, nodes, vnodes
      ensures Valid() && vsize == old(vsize) + 1 && Abstract() == FillOne(Ins(), old(Abstract()))
    {
      hide Faithful, Step, ArgMax, Bump, Currents, Instances, Weights;
      ghost var c := Abstract();
      BuildStep(Ins(), c, vsize + 1);
      var node := NextWrrNode(nodes);
      vnodes[vsize] := Some(node.instance);
      vsize := vsize + 1;
      assert vnodes[..] == c.vnodes[c.vsize := Some(node.instance)];
    }

    /** Fills the table up to `vtarget` or to its end. */
    method BuildVirtualWrrNodes(vtarget: nat)
      requires Valid() && vsize <= vtarget
      modifies this`vsize, nodes, vnodes
      ensures Valid() && Abstract() == Build(Ins(), old(Abstract()), vtarget)
    {
      hide Faithful, Build, Step, ArgMax, Bump, Currents;
      var target := if vtarget > vcapacity then vcapacity else vtarget;
      ghost var ins, start := Ins(), Abstract();
      BuildCapped(ins, start, vtarget, target);
      for i := vsize to target
        invariant Valid() && Ins() == ins && vsize == i
        invariant Build(ins, Abstract(), target) == Build(ins, start, vtarget)
      {
        BuildStep(ins, Abstract(), target);
        FillNext();
      }
      BuildDone(ins, Abstract(), target);
      vsize := target;
    }

    /** The read-locked lookup: nothing for an entry not filled yet, else that pick of the endless schedule. */
    method FastPath(idx: nat) returns (ins: Option<Instance>)
      requires Valid() && idx < vcapacity
      ensures ins == Abstract().vnodes[idx]
      ensures ins == if idx < vsize then Some(Ins()[Pick(Weights(Ins()), idx)]) else None
    {
      ins := vnodes[idx];
    }

    /** The write-locked lookup, which fills the table unless another caller just did. */
    method SlowPath(idx: nat) returns (ins: Option<Instance>)
      requires Valid() && idx < vcapacity
      modifies this`vsize, nodes, vnodes
      ensures Valid() && ins == Abstract().vnodes[idx] && ins.Some?
      ensures var c := old(Abstract());
              Abstract() == if c.vnodes[idx].Some? then c else Build(Ins(), c, Target(c.vsize, idx))
    {
      hide Faithful, Build, Currents;
      if vnodes[idx].Some? { return vnodes[idx]; }
      var vtarget := vsize + BATCH_SIZE;
      if idx >= vtarget { vtarget := idx + 1; }
      FillAnswers(Ins(), Abstract(), idx);
      BuildVirtualWrrNodes(vtarget);
      return vnodes[idx];
    }

    /** A call without interference answers its ticket with that pick of the endless schedule. */
    method Next() returns (ins: Option<Instance>)
      requires Valid()
      modifies this`vsize, nodes, vnodes, tickets
      ensures Valid() && tickets.state == (old(tickets.state) + 1) % TWO_64
      ensures ins == Some(Ins()[Pick(Weights(Ins()), tickets.state)])
    {
      hide Faithful, Build, Currents, Pick;
      var ticket := tickets.Next();
      TableAnswers(Ins(), Abstract(), ticket);
      var idx := ticket % vcapacity;
      ins := FastPath(idx);
      if ins.Some? { return; }
      ins := SlowPath(idx);
      TableAnswers(Ins(), Abstract(), ticket);
    }
  }

  lemma BuildStep(ins: seq<Instance>, c: Cache, target: nat)
    requires Faithful(ins, c) && c.vsize < target <= |c.vnodes|
    ensures Faithful(ins, FillOne(ins, c)) && Build(ins, FillOne(ins, c), target) == Build(ins, c, target)
  {
    BuildFaithful(ins, c, c.vsize + 1);
  }

  lemma BuildDone(ins: seq<Instance>, c: Cache, target: nat)
    requires WellFormed(ins, c) && c.vsize >= target
    ensures Build(ins, c, target) == c
  {
  }

  /** Capping the target at the end of the table changes nothing. */
  lemma {:induction false} BuildCapped(ins: seq<Instance>, c: Cache, target: nat, capped: nat)
    requires WellFormed(ins, c) && c.vsize <= target
    requires capped == if target > |c.vnodes| then |c.vnodes| else target
    ensures Build(ins, c, target) == Build(ins, c, capped)
    decreases |c.vnodes| - c.vsize
  {
    if c.vsize < target && c.vsize < |c.vnodes| { BuildCapped(ins, FillOne(ins, c), target, capped); }
  }

  /** Plain round robin over the instances. */
  class RoundRobinPicker {
    var size: nat
    var instances: seq<Instance>
    var tickets: Round

    ghost predicate Valid() reads this, tickets { size == |instances| && tickets.Valid() }

    constructor (instances: seq<Instance>, start: nat)
      requires start < TWO_64
      ensures Valid() && this.instances == instances && tickets.state == start && fresh(tickets)
    {
      size := |instances|;
      this.instances := instances;
      tickets := new Round(start);
    }

    method Next() returns (ins: Option<Instance>)
      requires Valid()
      modifies tickets
      ensures Valid()
      ensures instances == [] ==> ins == None && tickets.state == old(tickets.state)
      ensures instances != [] ==>
                tickets.state == (old(tickets.state) + 1) % TWO_64
                && ins == Some(instances[tickets.state % |instances|])
    {
      if size == 0 { return None; }
      var ticket := tickets.Next();
      var idx := ticket % size;
      DivModDef(ticket, size);
      return Some(instances[idx]);
    }
  }
}
