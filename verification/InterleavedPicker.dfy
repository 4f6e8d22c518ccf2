/** `InterleavedWeightedRoundRobinPicker` with its two linked queues, against `InterleavedWrr`. */
module InterleavedPicker {
  import opened Discovery
  import opened Gcd
  import opened InterleavedWrr

  class IwrrNode {
    const instance: Instance
    ghost const id: nat  // position among the picker's nodes
    var remainder: int
    var next: IwrrNode?

    constructor (instance: Instance, ghost id: nat)
      ensures this.instance == instance && this.id == id && remainder == instance.weight && next == null
    {
      this.instance := instance;
      this.id := id;
      remainder := instance.weight;
      next := null;
    }
  }

  /** A queue linked through its nodes, with the nodes it holds in order. */
  class IwrrQueue {
    var head: IwrrNode?
    var tail: IwrrNode?
    ghost var items: seq<IwrrNode>

    ghost predicate Valid()
      reads this, items
    {
      && (items == [] ==> head == null && tail == null)
      && (items != [] ==> head == items[0] && tail == items[|items| - 1] && tail.next == null)
      && (forall k :: 0 < k < |items| ==> items[k - 1].next == items[k])
      && (forall j, k :: 0 <= j < k < |items| ==> items[j] != items[k])
    }

    constructor ()
      ensures Valid() && items == []
    {
      head, tail := null, null;
      items := [];
    }

    method Enqueue(node: IwrrNode)
      requires Valid() && node !in items
      modifies this, node`next, items`next
      ensures Valid() && items == old(items) + [node]
    {
      node.next := null;
      var last := tail;
      tail := node;
      if last == null {
        head := node;
      } else {
        last.next := node;
      }
      items := items + [node];
    }

    /** The caller must not dequeue from an empty queue. */
    method Dequeue() returns (node: IwrrNode)
      requires Valid() && items != []
      modifies this, items`next
      ensures Valid() && old(items) == [node] + items && node.next == null
    {
      node := head;
      var following := node.next;
      assert |items| > 1 ==> following == items[1];
      node.next := null;
      head := following;
      if following == null {
        tail := null;
      }
      items := items[1..];
      assert forall k :: 0 <= k < |items| ==> items[k] == old(items[k + 1]) != node;
    }

    method Empty() returns (empty: bool)
      requires Valid()
      ensures empty <==> items == []
    {
      empty := head == null;
    }
  }

  ghost function Ids(items: seq<IwrrNode>): (ids: seq<nat>)
    ensures |ids| == |items| && forall k :: 0 <= k < |ids| ==> ids[k] == items[k].id
  {
    seq(|items|, k requires 0 <= k < |items| => items[k].id)
  }

  ghost function Remainders(nodes: seq<IwrrNode>): (rem: seq<int>)
    reads nodes
    ensures |rem| == |nodes| && forall k :: 0 <= k < |rem| ==> rem[k] == nodes[k].remainder
  {
    seq(|nodes|, k requires 0 <= k < |nodes| reads nodes => nodes[k].remainder)
  }

  ghost function InstancesOf(nodes: seq<IwrrNode>): (ins: seq<Instance>)
    ensures |ins| == |nodes| && forall i :: 0 <= i < |ins| ==> ins[i] == nodes[i].instance
  {
    seq(|nodes|, i requires 0 <= i < |nodes| => nodes[i].instance)
  }

  /** Each node sits at the position its number names. */
  ghost predicate Numbered(nodes: seq<IwrrNode>) {
    forall k :: 0 <= k < |nodes| ==> nodes[k].id == k
  }

  ghost predicate Apart(a: seq<IwrrNode>, b: seq<IwrrNode>) {
    forall j, k :: 0 <= j < |a| && 0 <= k < |b| ==> a[j] != b[k]
  }

  ghost predicate From(items: seq<IwrrNode>, nodes: seq<IwrrNode>) {
    forall k :: 0 <= k < |items| ==> items[k].id < |nodes| && nodes[items[k].id] == items[k]
  }

  /** The constructor's loop: the rotated instances in a queue, and their common divisor. */
  method NewQueue(instances: seq<Instance>, offset: nat) returns (q: IwrrQueue, g: nat)
    requires PositiveWeights(instances) && offset < |instances|
    ensures fresh(q) && fresh(q.items) && q.Valid() && InstancesOf(q.items) == Rotate(instances, offset)
    ensures Numbered(q.items) && Remainders(q.items) == Weights(Rotate(instances, offset))
    ensures g == GcdOf(Weights(Rotate(instances, offset)))
  {
    hide GcdOf, Euclid, RotatedAt, Rotate, InstancesOf, Remainders, Weights;
    RotatePositive(instances, offset);
    q := new IwrrQueue();
    g := 0;
    ghost var ins := Rotate(instances, offset);
    ghost var w := Weights(ins);
    GcdOfNone();
    for idx := 0 to |instances|
      invariant fresh(q) && q.Valid() && |q.items| == idx && fresh(q.items)
      invariant Numbered(q.items)
      invariant forall j :: 0 <= j < idx ==> q.items[j].instance == ins[j] && q.items[j].remainder == w[j]
      invariant g == GcdOf(w[..idx])
    {
      var instance := RotatedAt(instances, offset, idx);
      GcdOfOneMore(w, idx);
      g := GcdInt(g, instance.weight);
      var node := new IwrrNode(instance, idx);
      q.Enqueue(node);
    }
    assert w[..|instances|] == w;
    assert InstancesOf(q.items) == ins && Remainders(q.items) == w;
  }

  lemma BoundaryValid(w: seq<nat>, q: Queues)
    requires Boundary(w, q)
    ensures InterleavedWrr.Valid(w, q)
  {
  }

  class InterleavedWeightedRoundRobinPicker {
    var current: IwrrQueue
    var next: IwrrQueue
    var gcd: nat
    ghost var nodes: seq<IwrrNode>

    ghost function Ins(): seq<Instance> reads this { InstancesOf(nodes) }

    ghost function Abstract(): Queues
      reads this, nodes, current, next
    {
      Queues(Ids(current.items), Ids(next.items), Remainders(nodes))
    }

    /** The heap side: two separate well-formed queues over the picker's own nodes. */
    ghost predicate Shape()
      reads this, nodes, current, next, current.items, next.items
    {
      && current != next && current.Valid() && next.Valid() && Apart(current.items, next.items)
      && Numbered(nodes) && From(current.items, nodes) && From(next.items, nodes)
    }

    ghost predicate Valid()
      reads this, nodes, current, next, current.items, next.items
    {
      && Shape()
      && PositiveWeights(Ins())
      && gcd == GcdOf(Weights(Ins()))
      && InterleavedWrr.Valid(Weights(Ins()), Abstract())
    }

    constructor (instances: seq<Instance>, offset: nat)
      requires PositiveWeights(instances) && offset < |instances|
      ensures Valid() && fresh(current) && fresh(next) && fresh(nodes)
      ensures Ins() == Rotate(instances, offset) && Abstract() == Start(Weights(Ins()))
    {
      hide GcdOf, InterleavedWrr.Valid, RotatedAt, Rotate, InstancesOf, Remainders, Ids, Weights;
      RotatePositive(instances, offset);
      var q, g := NewQueue(instances, offset);
      current := q;
      next := new IwrrQueue();
      gcd := g;
      nodes := q.items;
      new;
      ghost var w := Weights(Ins());
      assert Ins() == Rotate(instances, offset);
      assert Abstract() == Start(w);
      StartBoundary(w);
      BoundaryValid(w, Start(w));
    }

    /** One locked call: the two linked queues move exactly as the schedule's queues do. */
    method Next() returns (ins: Instance)
      requires Valid()
      modifies this, current, next, nodes
      ensures Valid() && nodes == old(nodes) && {current, next} == {old(current), old(next)}
      ensures Abstract() == Step(Weights(Ins()), old(Abstract()))
      ensures ins == Ins()[Served(Weights(Ins()), old(Abstract()))]
    {
      hide InterleavedWrr.Valid, GcdOf, Ids, Remainders, InstancesOf, Weights;
      ghost var w, q := Weights(Ins()), Abstract();
      SwappedValid(w, q);
      StepKeepsValid(w, q);
      var empty := current.Empty();
      if empty {
        current, next := next, current;
      }
      assert Shape() && Abstract() == Swapped(q);
      ins := ServeHead(w);
    }

    /** Serves the head of the non-empty current queue. */
    method ServeHead(ghost w: seq<nat>) returns (ins: Instance)
      requires Shape() && PositiveWeights(Ins()) && w == Weights(Ins()) && current.items != []
      modifies current, next, nodes
      ensures Shape() && nodes == old(nodes)
      ensures old(current.items[0].id) < |w| && Abstract() == Serve(w, gcd, old(Abstract()))
      ensures ins == Ins()[old(current.items[0].id)]
    {
      hide Ids, Remainders, InstancesOf, Weights, PositiveWeights, From, Apart;
      ghost var q := Abstract();
      HeadFrom(current.items, nodes);
      var node := TakeHead();
      assert Ids(current.items) == q.cur[1..] && Ids(next.items) == q.nxt;
      if node.remainder > 0 {
        Requeue(node, current, next, node.remainder);
      } else {
        Requeue(node, next, current, node.instance.weight);
      }
      ins := node.instance;
      SameQueues(Abstract(), Serve(w, gcd, q));
    }

    /** Dequeues the head and charges it the divisor. */
    method TakeHead() returns (node: IwrrNode)
      requires Shape() && current.items != []
      modifies current, nodes
      ensures Shape() && node == old(current.items[0]) && [node] + current.items == old(current.items)
      ensures node !in current.items && node !in next.items && From([node], nodes)
      ensures Remainders(nodes) == old(Remainders(nodes))[node.id := old(node.remainder) - gcd]
    {
      hide From, Apart, Remainders;
      HeadFrom(current.items, nodes);
      assert next.Valid() && current.items[0] !in current.items[1..];
      ghost var items := current.items;
      TailFrom(items, next.items, nodes);
      ghost var rem := Remainders(nodes);
      node := current.Dequeue();
      assert node == items[0] && current.items == items[1..];
      node.remainder := node.remainder - gcd;
      assert Remainders(nodes) == rem[node.id := rem[node.id] - gcd];
    }

    /** Puts a node behind `q` with the given remainder; `other` is the queue that stays as it is. */
    method Requeue(node: IwrrNode, q: IwrrQueue, other: IwrrQueue, remainder: int)
      requires Shape() && q != other && {q, other} == {current, next}
      requires node !in current.items && node !in next.items && From([node], nodes)
      modifies q, nodes
      ensures Shape() && q.items == old(q.items) + [node] && other.items == old(other.items)
      ensures Remainders(nodes) == old(Remainders(nodes))[node.id := remainder]
    {
      hide Remainders, From, Apart;
      JoinFrom(q.items, node, other.items, nodes);
      ghost var rem := Remainders(nodes);
      node.remainder := remainder;
      q.Enqueue(node);
      assert Remainders(nodes) == rem[node.id := remainder];
    }
  }

  lemma SameQueues(a: Queues, b: Queues)
    requires a.cur == b.cur && a.nxt == b.nxt && a.rem == b.rem
    ensures a == b
  {
  }

  lemma JoinFrom(items: seq<IwrrNode>, node: IwrrNode, others: seq<IwrrNode>, nodes: seq<IwrrNode>)
    requires From(items, nodes) && From([node], nodes) && node !in others
    requires Apart(items, others) || Apart(others, items)
    ensures From(items + [node], nodes) && Apart(items + [node], others) && Apart(others, items + [node])
    ensures node.id < |nodes| && nodes[node.id] == node
    ensures forall k :: 0 <= k < |items| ==> items[k] in nodes && items[k] !in others
  {
    assert [node][0] == node;
  }

  lemma TailFrom(items: seq<IwrrNode>, others: seq<IwrrNode>, nodes: seq<IwrrNode>)
    requires items != [] && From(items, nodes) && Apart(items, others)
    ensures From(items[1..], nodes) && Apart(items[1..], others) && items[0] !in others && From([items[0]], nodes)
    ensures forall k :: 0 <= k < |others| ==> others[k] !in items
  {
  }

  lemma HeadFrom(items: seq<IwrrNode>, nodes: seq<IwrrNode>)
    requires items != [] && From(items, nodes)
    ensures items[0].id < |nodes| && nodes[items[0].id] == items[0]
  {
  }

  lemma GcdOfNone()
    ensures GcdOf([]) == 0
  {
  }

  lemma GcdOfOneMore(w: seq<nat>, k: nat)
    requires k < |w|
    ensures GcdOf(w[..k + 1]) == Euclid(GcdOf(w[..k]), w[k])
  {
    assert w[..k + 1][..k] == w[..k];
  }
}
