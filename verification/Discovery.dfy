/** The instances that a resolver hands to the load balancer. */
module Discovery {

  datatype Option<+T> = None | Some(value: T)

  datatype Instance = Instance(address: string, weight: int)

  predicate PositiveWeights(ins: seq<Instance>) {
    |ins| > 0 && forall i :: 0 <= i < |ins| ==> ins[i].weight > 0
  }

  function Weights(ins: seq<Instance>): (w: seq<nat>)
    requires forall i :: 0 <= i < |ins| ==> ins[i].weight > 0
    ensures |w| == |ins| && forall i :: 0 <= i < |w| ==> w[i] == ins[i].weight > 0
  {
    seq(|ins|, i requires 0 <= i < |ins| => ins[i].weight)
  }

  /** The constructors start reading the instances at a random offset. */
  function RotatedAt<T>(s: seq<T>, offset: nat, i: nat): T
    requires offset < |s| && i < |s|
  {
    s[(i + offset) % |s|]
  }

  function Rotate<T>(s: seq<T>, offset: nat): (r: seq<T>)
    requires offset < |s|
    ensures |r| == |s| && forall i :: 0 <= i < |s| ==> r[i] == RotatedAt(s, offset, i)
  {
    seq(|s|, i requires 0 <= i < |s| => RotatedAt(s, offset, i))
  }

  lemma RotatePositive(ins: seq<Instance>, offset: nat)
    requires PositiveWeights(ins) && offset < |ins|
    ensures PositiveWeights(Rotate(ins, offset))
  {
  }
}
