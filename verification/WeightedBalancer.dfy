/** `createPicker`: which instances it keeps and which picker it chooses. */
module WeightedBalancer {
  import opened Discovery
  import opened Sums

  datatype Kind = KindRoundRobin | KindInterleaved | KindRandom | KindRandomWithAliasMethod

  datatype Picker =
    | Dummy
    | RoundRobin(ins: seq<Instance>)
    | WeightedRoundRobin(ins: seq<Instance>)
    | InterleavedRoundRobin(ins: seq<Instance>)
    | RandomPicker(ins: seq<Instance>)
    | AliasMethod(ins: seq<Instance>, weightSum: int)
    | WeightedRandom(ins: seq<Instance>, weightSum: int)

  /** The instances with a positive weight, in order. */
  function Kept(e: seq<Instance>): seq<Instance> {
    if e == [] then [] else
    var kept, last := Kept(e[..|e| - 1]), e[|e| - 1];
    if last.weight > 0 then kept + [last] else kept
  }

  lemma {:induction false} KeptPositive(e: seq<Instance>)
    ensures forall i :: 0 <= i < |Kept(e)| ==> Kept(e)[i].weight > 0
    ensures forall x: Instance :: multiset(Kept(e))[x] == if x.weight > 0 then multiset(e)[x] else 0
  {
    if e != [] {
      KeptPositive(e[..|e| - 1]);
      assert e == e[..|e| - 1] + [e[|e| - 1]];
    }
  }

  lemma KeptPrefix(e: seq<Instance>, k: nat)
    requires k < |e|
    ensures Kept(e[..k + 1]) == if e[k].weight > 0 then Kept(e[..k]) + [e[k]] else Kept(e[..k])
  {
    assert e[..k + 1][..k] == e[..k];
  }

  ghost predicate EqualWeights(ins: seq<Instance>) {
    forall i, j :: 0 <= i < j < |ins| ==> ins[i].weight == ins[j].weight
  }

  /** Comparing each new instance with the one kept before it is enough. */
  lemma EqualWeightsPush(ins: seq<Instance>, x: Instance)
    ensures EqualWeights(ins + [x]) <==>
              EqualWeights(ins) && (ins != [] ==> ins[|ins| - 1].weight == x.weight)
  {
    var more := ins + [x];
    if EqualWeights(more) {
      assert forall i :: 0 <= i < |ins| ==> more[i] == ins[i];
      if ins != [] { assert more[|ins| - 1].weight == more[|ins|].weight; }
    }
    if EqualWeights(ins) && ins != [] && ins[|ins| - 1].weight == x.weight {
      forall i | 0 <= i < |ins| ensures more[i].weight == x.weight {
        if i < |ins| - 1 { assert ins[i].weight == ins[|ins| - 1].weight; }
      }
    }
  }

  function WeightsOf(ins: seq<Instance>): (w: seq<int>)
    ensures |w| == |ins| && forall i :: 0 <= i < |w| ==> w[i] == ins[i].weight
  {
    seq(|ins|, i requires 0 <= i < |ins| => ins[i].weight)
  }

  lemma WeightsOfPush(ins: seq<Instance>, x: Instance)
    ensures Sum(WeightsOf(ins + [x])) == Sum(WeightsOf(ins)) + x.weight
  {
    var w := WeightsOf(ins + [x]);
    assert w[..|w| - 1] == WeightsOf(ins);
  }

  /** The choice of picker, by what the kept instances look like. */
  ghost predicate Chosen(kind: Kind, kept: seq<Instance>, picker: Picker) {
    var sum := Sum(WeightsOf(kept));
    if kept == [] then picker == Dummy
    else if EqualWeights(kept) then
      picker == if kind.KindRoundRobin? || kind.KindInterleaved? then RoundRobin(kept) else RandomPicker(kept)
    else
      picker == match kind
                case KindRoundRobin => WeightedRoundRobin(kept)
                case KindInterleaved => InterleavedRoundRobin(kept)
                case KindRandomWithAliasMethod => AliasMethod(kept, sum)
                case KindRandom => WeightedRandom(kept, sum)
  }

  /** The plain picker is chosen exactly when all kept weights are equal. */
  method CreatePicker(kind: Kind, e: seq<Instance>) returns (picker: Picker)
    ensures Chosen(kind, Kept(e), picker)
  {
    hide Kept, Sum, EqualWeights, WeightsOf;
    var instances := new Instance[|e|](_ => Instance("", 0));
    var weightSum, balance, cnt := 0, true, 0;
    KeptNone();
    for idx := 0 to |e|
      invariant cnt <= idx && instances[..cnt] == Kept(e[..idx])
      invariant weightSum == Sum(WeightsOf(Kept(e[..idx])))
      invariant balance <==> EqualWeights(Kept(e[..idx]))
    {
      KeptPrefix(e, idx);
      var weight := e[idx].weight;
      if weight <= 0 { continue; }
      WeightsOfPush(instances[..cnt], e[idx]);
      EqualWeightsPush(instances[..cnt], e[idx]);
      weightSum := weightSum + weight;
      instances[cnt] := e[idx];
      if cnt > 0 && instances[cnt - 1].weight != weight {
        balance := false;
      }
      cnt := cnt + 1;
    }
    assert e[..|e|] == e;
    var kept := instances[..cnt];
    if cnt == 0 { return Dummy; }
    match kind
    case KindRoundRobin =>
      picker := if balance then RoundRobin(kept) else WeightedRoundRobin(kept);
    case KindInterleaved =>
      picker := if balance then RoundRobin(kept) else InterleavedRoundRobin(kept);
    case KindRandomWithAliasMethod =>
      picker := if balance then RandomPicker(kept) else AliasMethod(kept, weightSum);
    case KindRandom =>
      picker := if balance then RandomPicker(kept) else WeightedRandom(kept, weightSum);
  }

  lemma KeptNone()
    ensures Kept([]) == [] && Sum(WeightsOf([])) == 0 && EqualWeights([])
  {
  }
}
