/**
 * The feed-forward evaluator compiled from a genome (NeuralNetwork.h,
 * NeuralNetwork.cpp, ActivationFn.h): the layered evaluation order, one
 * compiled neuron per listed id, and the forward pass over a map of values.
 * Activation numerics are a parameter `act`, applied to the neuron's
 * activation tag and its pre-activation sum.
 */
module Network {
  import opened Wrappers
  import opened Genes
  import opened Graphs
  import opened Layering
  import opened Genomes

  /** One weighted source of a compiled neuron. */
  datatype NeuronInput = NeuronInput(inputId: int, weight: real)

  /** The evaluator-side activation tags (the ActivationFn variant). */
  datatype ActivationFn = SigmoidFn | ReLUFn | TanhFn

  datatype Neuron = Neuron(neuronId: int, activation: ActivationFn, bias: real, inputs: seq<NeuronInput>)

  datatype FeedForwardNetwork = FeedForwardNetwork(inputIds: seq<int>, outputIds: seq<int>, neurons: seq<Neuron>)

  /** The assertion of create_from_genome that every listed id is a neuron gene. */
  datatype CompileError = MissingNeuron(neuronId: int)

  /** The assertions of activate: the input count, and a value for every source read. */
  datatype ActivateError = InputSizeMismatch(expected: nat, actual: nat) | MissingValue(inputId: int)

  /** convert_activation: each gene activation maps to the evaluator of the same name. */
  function ConvertActivation(a: Activation): (r: ActivationFn)
    ensures r.SigmoidFn? <==> a == Sigmoid
    ensures r.TanhFn? <==> a == Tanh
    ensures !r.ReLUFn?
  {
    match a
    case Sigmoid => SigmoidFn
    case Tanh => TanhFn
  }

  /**
   * The weighted sources of neuron id: one entry per link whose target is id,
   * in link order, whether the link is enabled or not.
   */
  function IncomingInputs(links: seq<LinkGene>, id: int): (r: seq<NeuronInput>)
    ensures |r| <= |links|
    ensures forall x :: x in r <==>
              exists l :: l in links && l.linkId.outputId == id && x == NeuronInput(l.linkId.inputId, l.weight)
    decreases |links|
  {
    if links == [] then []
    else
      var k := |links| - 1;
      var l := links[k];
      assert links == links[..k] + [l];
      IncomingInputs(links[..k], id) + (if l.linkId.outputId == id then [NeuronInput(l.linkId.inputId, l.weight)] else [])
  }

  /** The enabled flags play no part in a neuron's sources. */
  lemma {:induction false} IncomingIgnoresEnabled(a: seq<LinkGene>, b: seq<LinkGene>, id: int)
    requires |a| == |b|
    requires forall i :: 0 <= i < |a| ==> a[i].linkId == b[i].linkId && a[i].weight == b[i].weight
    ensures IncomingInputs(a, id) == IncomingInputs(b, id)
    decreases |a|
  {
    if a != [] {
      var k := |a| - 1;
      IncomingIgnoresEnabled(a[..k], b[..k], id);
    }
  }

  /** The link scan of create_from_genome for one id. */
  method CollectIncoming(links: seq<LinkGene>, id: int) returns (inputs: seq<NeuronInput>)
    ensures inputs == IncomingInputs(links, id)
  {
    inputs := [];
    for i := 0 to |links|
      invariant inputs == IncomingInputs(links[..i], id)
    {
      assert links[..i + 1][..i] == links[..i];
      if id == links[i].linkId.outputId {
        inputs := inputs + [NeuronInput(links[i].linkId.inputId, links[i].weight)];
      }
    }
    assert links[..|links|] == links;
  }

  lemma FindNeuronIds(neurons: seq<NeuronGene>, id: int)
    ensures FindNeuron(neurons, id).Some? <==> id in NeuronIds(neurons)
  {
    if id in NeuronIds(neurons) {
      var n :| n in neurons && n.neuronId == id;
      var k :| 0 <= k < |neurons| && neurons[k] == n;
    }
  }

  /** n is the neuron compiled for id: the first gene with that id and every link into id. */
  ghost predicate CompiledFrom(n: Neuron, neurons: seq<NeuronGene>, links: seq<LinkGene>, id: int)
  {
    FindNeuron(neurons, id).Some?
    && var gene := FindNeuron(neurons, id).value;
       n == Neuron(id, ConvertActivation(gene.activation), gene.bias, IncomingInputs(links, id))
  }

  /**
   * The neuron list create_from_genome builds for an evaluation order, or the
   * first id of the order that no neuron gene carries.
   */
  function CompileNeurons(neurons: seq<NeuronGene>, links: seq<LinkGene>, order: seq<int>): Result<seq<Neuron>, CompileError>
    decreases |order|
  {
    if order == [] then Success([])
    else
      var k := |order| - 1;
      var prefix := CompileNeurons(neurons, links, order[..k]);
      if prefix.Failure? then
        prefix
      else
        match FindNeuron(neurons, order[k])
        case None => Failure(MissingNeuron(order[k]))
        case Some(gene) =>
          Success(prefix.value + [Neuron(order[k], ConvertActivation(gene.activation), gene.bias, IncomingInputs(links, order[k]))])
  }

  /**
   * Compilation succeeds exactly when every listed id is a neuron gene; it then
   * yields one neuron per listed id, in order, each built from the first gene
   * with that id and every link into it. Otherwise it names the first listed
   * id that no gene carries.
   */
  lemma {:induction false} CompileNeuronsSpec(neurons: seq<NeuronGene>, links: seq<LinkGene>, order: seq<int>)
    ensures var r := CompileNeurons(neurons, links, order);
      && (r.Success? <==> forall k :: 0 <= k < |order| ==> order[k] in NeuronIds(neurons))
      && (r.Success? ==> |r.value| == |order|
                         && forall k :: 0 <= k < |order| ==> CompiledFrom(r.value[k], neurons, links, order[k]))
      && (r.Failure? ==> exists k :: 0 <= k < |order| && r.error == MissingNeuron(order[k])
                                     && order[k] !in NeuronIds(neurons)
                                     && forall j :: 0 <= j < k ==> order[j] in NeuronIds(neurons))
  {
    CompileNeuronsSucceedsIff(neurons, links, order);
    CompileNeuronsValues(neurons, links, order);
    CompileNeuronsFailure(neurons, links, order);
  }

  lemma {:induction false} CompileNeuronsSucceedsIff(neurons: seq<NeuronGene>, links: seq<LinkGene>, order: seq<int>)
    ensures CompileNeurons(neurons, links, order).Success? <==> forall k :: 0 <= k < |order| ==> order[k] in NeuronIds(neurons)
    decreases |order|
  {
    if order != [] {
      var k := |order| - 1;
      CompileNeuronsSucceedsIff(neurons, links, order[..k]);
      FindNeuronIds(neurons, order[k]);
      assert forall j :: 0 <= j < k ==> order[..k][j] == order[j];
    }
  }

  lemma {:induction false} CompileNeuronsValues(neurons: seq<NeuronGene>, links: seq<LinkGene>, order: seq<int>)
    ensures var r := CompileNeurons(neurons, links, order);
      r.Success? ==> |r.value| == |order| && forall k :: 0 <= k < |order| ==> CompiledFrom(r.value[k], neurons, links, order[k])
    decreases |order|
  {
    if order != [] {
      var k := |order| - 1;
      CompileNeuronsValues(neurons, links, order[..k]);
      var prefix := CompileNeurons(neurons, links, order[..k]);
      if prefix.Success? && FindNeuron(neurons, order[k]).Some? {
        var r := CompileNeurons(neurons, links, order);
        assert r.value[k] == Neuron(order[k], ConvertActivation(FindNeuron(neurons, order[k]).value.activation),
                                    FindNeuron(neurons, order[k]).value.bias, IncomingInputs(links, order[k]));
        assert forall j :: 0 <= j < k ==> r.value[j] == prefix.value[j] && order[j] == order[..k][j];
      }
    }
  }

  lemma {:induction false} CompileNeuronsFailure(neurons: seq<NeuronGene>, links: seq<LinkGene>, order: seq<int>)
    ensures var r := CompileNeurons(neurons, links, order);
      r.Failure? ==> exists k :: 0 <= k < |order| && r.error == MissingNeuron(order[k])
                                 && order[k] !in NeuronIds(neurons)
                                 && forall j :: 0 <= j < k ==> order[j] in NeuronIds(neurons)
    decreases |order|
  {
    if order != [] {
      var k := |order| - 1;
      CompileNeuronsFailure(neurons, links, order[..k]);
      CompileNeuronsSucceedsIff(neurons, links, order[..k]);
      FindNeuronIds(neurons, order[k]);
      var prefix := CompileNeurons(neurons, links, order[..k]);
      if prefix.Failure? {
        var m :| 0 <= m < k && prefix.error == MissingNeuron(order[..k][m])
                 && order[..k][m] !in NeuronIds(neurons)
                 && forall j :: 0 <= j < m ==> order[..k][j] in NeuronIds(neurons);
        assert order[m] == order[..k][m];
        assert forall j :: 0 <= j < m ==> order[j] == order[..k][j];
      } else {
        assert forall j :: 0 <= j < k ==> order[j] == order[..k][j];
      }
    }
  }

  /** Once an id is missing, compiling a longer order fails on that same id. */
  lemma {:induction false} CompileFailurePersists(neurons: seq<NeuronGene>, links: seq<LinkGene>, a: seq<int>, b: seq<int>)
    requires CompileNeurons(neurons, links, a).Failure?
    ensures CompileNeurons(neurons, links, a + b) == CompileNeurons(neurons, links, a)
    decreases |b|
  {
    if b == [] {
      assert a + b == a;
    } else {
      var k := |b| - 1;
      CompileFailurePersists(neurons, links, a, b[..k]);
      assert (a + b)[..|a + b| - 1] == a + b[..k];
    }
  }

  /** The evaluation order with the ids of skip left out. */
  function SkipIds(order: seq<int>, skip: seq<int>): seq<int>
    decreases |order|
  {
    if order == [] then []
    else
      var k := |order| - 1;
      SkipIds(order[..k], skip) + (if order[k] in skip then [] else [order[k]])
  }

  /** SkipIds keeps exactly the ids of the order that are not in skip. */
  lemma {:induction false} SkipIdsMembers(order: seq<int>, skip: seq<int>)
    ensures forall x :: x in SkipIds(order, skip) <==> x in order && x !in skip
    decreases |order|
  {
    if order != [] {
      var k := |order| - 1;
      SkipIdsMembers(order[..k], skip);
      assert order == order[..k] + [order[k]];
    }
  }

  lemma {:induction false} SkipIdsAppend(a: seq<int>, b: seq<int>, skip: seq<int>)
    ensures SkipIds(a + b, skip) == SkipIds(a, skip) + SkipIds(b, skip)
    decreases |b|
  {
    if b == [] {
      assert a + b == a;
    } else {
      var k := |b| - 1;
      var x := b[k];
      SkipIdsAppend(a, b[..k], skip);
      assert (a + b)[..|a + b| - 1] == a + b[..k];
      assert (a + b)[|a + b| - 1] == x;
      var tail := if x in skip then [] else [x];
      assert SkipIds(a + b, skip) == SkipIds(a + b[..k], skip) + tail;
      assert SkipIds(b, skip) == SkipIds(b[..k], skip) + tail;
    }
  }

  lemma {:induction false} SkipNothing(order: seq<int>)
    ensures SkipIds(order, []) == order
    decreases |order|
  {
    if order != [] {
      var k := |order| - 1;
      SkipNothing(order[..k]);
      assert order == order[..k] + [order[k]];
    }
  }

  lemma {:induction false} FlattenAppend(x: seq<seq<int>>, y: seq<seq<int>>)
    ensures Flatten(x + y) == Flatten(x) + Flatten(y)
    decreases |y|
  {
    if y == [] {
      assert x + y == x;
    } else {
      var k := |y| - 1;
      var front, last := y[..k], y[k];
      calc {
        Flatten(x + y);
        { assert x + y == (x + front) + [last]; }
        Flatten((x + front) + [last]);
        { FlattenSnoc(x + front, last); }
        Flatten(x + front) + last;
        { FlattenAppend(x, front); }
        (Flatten(x) + Flatten(front)) + last;
        Flatten(x) + (Flatten(front) + last);
        { FlattenSnoc(front, last); }
        Flatten(x) + Flatten(front + [last]);
        { assert y == front + [last]; }
        Flatten(x) + Flatten(y);
      }
    }
  }

  /** Compiling one more id that a gene carries appends its neuron. */
  lemma CompileSnoc(neurons: seq<NeuronGene>, links: seq<LinkGene>, order: seq<int>, id: int, acc: seq<Neuron>)
    requires CompileNeurons(neurons, links, order) == Success(acc)
    requires FindNeuron(neurons, id).Some?
    ensures var gene := FindNeuron(neurons, id).value;
      CompileNeurons(neurons, links, order + [id])
        == Success(acc + [Neuron(id, ConvertActivation(gene.activation), gene.bias, IncomingInputs(links, id))])
  {
    assert (order + [id])[..|order|] == order;
  }

  /** Compiling an id that no gene carries fails on it, whatever follows. */
  lemma CompileMissing(neurons: seq<NeuronGene>, links: seq<LinkGene>, order: seq<int>, id: int, acc: seq<Neuron>, rest: seq<int>)
    requires CompileNeurons(neurons, links, order) == Success(acc)
    requires FindNeuron(neurons, id).None?
    ensures CompileNeurons(neurons, links, order + [id] + rest) == Failure(MissingNeuron(id))
  {
    assert (order + [id])[..|order|] == order;
    CompileFailurePersists(neurons, links, order + [id], rest);
  }

  /** Extending the listed ids by one id of a layer extends the kept ids by that id, unless it is skipped. */
  lemma SkipIdsStep(done: seq<int>, layer: seq<int>, j: int, skip: seq<int>)
    requires 0 <= j < |layer|
    ensures SkipIds(done + layer[..j + 1], skip)
              == SkipIds(done + layer[..j], skip) + (if layer[j] in skip then [] else [layer[j]])
  {
    assert done + layer[..j + 1] == (done + layer[..j]) + [layer[j]];
    SkipIdsAppend(done + layer[..j], [layer[j]], skip);
    assert [layer[j]][..0] == [];
  }

  /** The kept ids of a whole layer: those up to index j, then those after it. */
  lemma SkipIdsSplit(done: seq<int>, layer: seq<int>, j: int, skip: seq<int>)
    requires 0 <= j < |layer|
    ensures SkipIds(done + layer, skip) == SkipIds(done + layer[..j + 1], skip) + SkipIds(layer[j + 1..], skip)
  {
    assert done + layer == (done + layer[..j + 1]) + layer[j + 1..];
    SkipIdsAppend(done + layer[..j + 1], layer[j + 1..], skip);
  }

  /** The inner loop of create_from_genome: the ids of one layer, in order. */
  method CompileLayer(g: GenomeValue, layer: seq<int>, skip: seq<int>, ghost done: seq<int>, acc: seq<Neuron>)
    returns (r: Result<seq<Neuron>, CompileError>)
    requires CompileNeurons(g.neurons, g.links, SkipIds(done, skip)) == Success(acc)
    ensures r == CompileNeurons(g.neurons, g.links, SkipIds(done + layer, skip))
  {
    var neurons := acc;
    assert done + layer[..0] == done;
    for j := 0 to |layer|
      invariant CompileNeurons(g.neurons, g.links, SkipIds(done + layer[..j], skip)) == Success(neurons)
    {
      var id := layer[j];
      ghost var before := SkipIds(done + layer[..j], skip);
      SkipIdsStep(done, layer, j, skip);
      if id !in skip {
        var inputs := CollectIncoming(g.links, id);
        var gene := FindNeuron(g.neurons, id);
        if gene.None? {
          SkipIdsSplit(done, layer, j, skip);
          CompileMissing(g.neurons, g.links, before, id, neurons, SkipIds(layer[j + 1..], skip));
          return Failure(MissingNeuron(id));
        }
        CompileSnoc(g.neurons, g.links, before, id, neurons);
        neurons := neurons + [Neuron(id, ConvertActivation(gene.value.activation), gene.value.bias, inputs)];
      } else {
        assert before + [] == before;
      }
    }
    assert layer[..|layer|] == layer;
    r := Success(neurons);
  }

  /**
   * The nested loops of create_from_genome over the layers and their ids,
   * leaving out the ids of skip (none, in the code as written).
   */
  method CompileLayers(g: GenomeValue, layers: seq<seq<int>>, skip: seq<int>) returns (r: Result<seq<Neuron>, CompileError>)
    ensures r == CompileNeurons(g.neurons, g.links, SkipIds(Flatten(layers), skip))
  {
    var neurons: seq<Neuron> := [];
    for li := 0 to |layers|
      invariant CompileNeurons(g.neurons, g.links, SkipIds(Flatten(layers[..li]), skip)) == Success(neurons)
    {
      var layer := layers[li];
      assert layers[..li + 1] == layers[..li] + [layer];
      FlattenSnoc(layers[..li], layer);
      var step := CompileLayer(g, layer, skip, Flatten(layers[..li]), neurons);
      if step.Failure? {
        assert layers == layers[..li + 1] + layers[li + 1..];
        FlattenAppend(layers[..li + 1], layers[li + 1..]);
        SkipIdsAppend(Flatten(layers[..li + 1]), Flatten(layers[li + 1..]), skip);
        CompileFailurePersists(g.neurons, g.links, SkipIds(Flatten(layers[..li + 1]), skip), SkipIds(Flatten(layers[li + 1..]), skip));
        return step;
      }
      neurons := step.value;
    }
    assert layers[..|layers|] == layers;
    r := Success(neurons);
  }

  // ---------------------------------------------------------------------
  // The forward pass (FeedForwardNeuralNetwork::activate)
  // ---------------------------------------------------------------------

  /** The ids the neurons write their values under. */
  function WrittenIds(neurons: seq<Neuron>): set<int>
  {
    set n | n in neurons :: n.neuronId
  }

  lemma WrittenSnoc(neurons: seq<Neuron>, n: Neuron)
    ensures WrittenIds(neurons + [n]) == WrittenIds(neurons) + {n.neuronId}
  {
    assert forall m :: m in neurons + [n] <==> m in neurons || m == n;
  }

  /** One source's contribution: its value times the link weight. */
  function Weighted(value: real, weight: real): real
  {
    value * weight
  }

  /** The pre-activation sum of a neuron's sources, or the first source without a value. */
  function WeightedSum(values: map<int, real>, inputs: seq<NeuronInput>): Result<real, ActivateError>
    decreases |inputs|
  {
    if inputs == [] then Success(0.0)
    else
      var k := |inputs| - 1;
      var prefix := WeightedSum(values, inputs[..k]);
      if prefix.Failure? then prefix
      else if inputs[k].inputId !in values then Failure(MissingValue(inputs[k].inputId))
      else Success(prefix.value + Weighted(values[inputs[k].inputId], inputs[k].weight))
  }

  /** The sum is defined exactly when every source has a value. */
  lemma {:induction false} WeightedSumDefined(values: map<int, real>, inputs: seq<NeuronInput>)
    ensures WeightedSum(values, inputs).Success? <==> forall m :: 0 <= m < |inputs| ==> inputs[m].inputId in values
    decreases |inputs|
  {
    if inputs != [] {
      var k := |inputs| - 1;
      WeightedSumDefined(values, inputs[..k]);
      assert forall m :: 0 <= m < k ==> inputs[..k][m] == inputs[m];
    }
  }

  /** Two value maps with the same keys that agree on every source give the same sum. */
  lemma {:induction false} WeightedSumAgree(vx: map<int, real>, vy: map<int, real>, inputs: seq<NeuronInput>)
    requires vx.Keys == vy.Keys
    requires forall m :: 0 <= m < |inputs| && inputs[m].inputId in vx ==> vx[inputs[m].inputId] == vy[inputs[m].inputId]
    ensures WeightedSum(vx, inputs) == WeightedSum(vy, inputs)
    decreases |inputs|
  {
    if inputs != [] {
      var k := |inputs| - 1;
      assert forall m :: 0 <= m < k ==> inputs[..k][m] == inputs[m];
      WeightedSumAgree(vx, vy, inputs[..k]);
      var id := inputs[k].inputId;
      assert id in vx <==> id in vy;
      assert id in vx ==> vx[id] == vy[id];
    }
  }

  lemma {:induction false} SumFailurePersists(values: map<int, real>, inputs: seq<NeuronInput>, m: int)
    requires 0 <= m <= |inputs| && WeightedSum(values, inputs[..m]).Failure?
    ensures WeightedSum(values, inputs) == WeightedSum(values, inputs[..m])
    decreases |inputs|
  {
    if m < |inputs| {
      var k := |inputs| - 1;
      assert inputs[..k][..m] == inputs[..m];
      SumFailurePersists(values, inputs[..k], m);
    } else {
      assert inputs[..m] == inputs;
    }
  }

  /** One neuron of the pass: its sum plus bias, through its activation, stored under its id. */
  function Fire(values: map<int, real>, n: Neuron, act: (ActivationFn, real) -> real): Result<map<int, real>, ActivateError>
  {
    var sum := WeightedSum(values, n.inputs);
    if sum.Failure? then Failure(sum.error)
    else Success(values[n.neuronId := act(n.activation, sum.value + n.bias)])
  }

  /** The neuron loop of activate, in list order, stopping at the first missing source. */
  function RunNeurons(values: map<int, real>, neurons: seq<Neuron>, act: (ActivationFn, real) -> real): Result<map<int, real>, ActivateError>
    decreases |neurons|
  {
    if neurons == [] then Success(values)
    else
      var k := |neurons| - 1;
      var prefix := RunNeurons(values, neurons[..k], act);
      if prefix.Failure? then prefix else Fire(prefix.value, neurons[k], act)
  }

  lemma {:induction false} RunFailurePersists(values: map<int, real>, neurons: seq<Neuron>, act: (ActivationFn, real) -> real, m: int)
    requires 0 <= m <= |neurons| && RunNeurons(values, neurons[..m], act).Failure?
    ensures RunNeurons(values, neurons, act) == RunNeurons(values, neurons[..m], act)
    decreases |neurons|
  {
    if m < |neurons| {
      var k := |neurons| - 1;
      assert neurons[..k][..m] == neurons[..m];
      RunFailurePersists(values, neurons[..k], act, m);
    } else {
      assert neurons[..m] == neurons;
    }
  }

  /**
   * The pass succeeds exactly when every source a neuron reads was set before
   * it: an initial key or an id written by an earlier neuron. It then holds the
   * initial keys plus every written id, and keeps the initial value of every id
   * that no neuron writes.
   */
  lemma {:induction false} RunNeuronsSpec(values: map<int, real>, neurons: seq<Neuron>, act: (ActivationFn, real) -> real)
    ensures var r := RunNeurons(values, neurons, act);
      && (r.Success? <==> forall k, m :: 0 <= k < |neurons| && 0 <= m < |neurons[k].inputs| ==>
                                           neurons[k].inputs[m].inputId in values.Keys + WrittenIds(neurons[..k]))
      && (r.Success? ==> r.value.Keys == values.Keys + WrittenIds(neurons))
      && (r.Success? ==> forall v :: v in values && v !in WrittenIds(neurons) ==> r.value[v] == values[v])
  {
    RunNeuronsKeys(values, neurons, act);
    RunNeuronsKeeps(values, neurons, act);
    RunNeuronsSucceedsIff(values, neurons, act);
    if AllSourcesSet(values, neurons) {
      forall k, m | 0 <= k < |neurons| && 0 <= m < |neurons[k].inputs|
        ensures neurons[k].inputs[m].inputId in values.Keys + WrittenIds(neurons[..k])
      {
        assert SourcesSet(values, neurons, k);
      }
    } else {
      var k :| 0 <= k < |neurons| && !SourcesSet(values, neurons, k);
      var m :| 0 <= m < |neurons[k].inputs| && neurons[k].inputs[m].inputId !in values.Keys + WrittenIds(neurons[..k]);
    }
  }

  lemma {:induction false} RunNeuronsKeys(values: map<int, real>, neurons: seq<Neuron>, act: (ActivationFn, real) -> real)
    ensures var r := RunNeurons(values, neurons, act);
      r.Success? ==> r.value.Keys == values.Keys + WrittenIds(neurons)
    decreases |neurons|
  {
    if neurons == [] {
      assert WrittenIds(neurons) == {};
    } else {
      var k := |neurons| - 1;
      RunNeuronsKeys(values, neurons[..k], act);
      assert neurons == neurons[..k] + [neurons[k]];
      WrittenSnoc(neurons[..k], neurons[k]);
    }
  }

  lemma {:induction false} RunNeuronsKeeps(values: map<int, real>, neurons: seq<Neuron>, act: (ActivationFn, real) -> real)
    ensures var r := RunNeurons(values, neurons, act);
      r.Success? ==> forall v :: v in values && v !in WrittenIds(neurons) ==> v in r.value && r.value[v] == values[v]
    decreases |neurons|
  {
    if neurons != [] {
      var k := |neurons| - 1;
      RunNeuronsKeeps(values, neurons[..k], act);
      assert neurons == neurons[..k] + [neurons[k]];
      WrittenSnoc(neurons[..k], neurons[k]);
    }
  }

  /** Every source neuron k reads is an initial key or written by an earlier neuron. */
  ghost predicate SourcesSet(values: map<int, real>, neurons: seq<Neuron>, k: int)
    requires 0 <= k < |neurons|
  {
    forall m :: 0 <= m < |neurons[k].inputs| ==> neurons[k].inputs[m].inputId in values.Keys + WrittenIds(neurons[..k])
  }

  ghost predicate AllSourcesSet(values: map<int, real>, neurons: seq<Neuron>)
  {
    forall k :: 0 <= k < |neurons| ==> SourcesSet(values, neurons, k)
  }

  lemma SourcesSetPrefix(values: map<int, real>, neurons: seq<Neuron>, k: int, i: int)
    requires 0 <= i < k <= |neurons|
    ensures SourcesSet(values, neurons[..k], i) == SourcesSet(values, neurons, i)
  {
    assert neurons[..k][i] == neurons[i];
    assert neurons[..k][..i] == neurons[..i];
  }

  lemma AllSourcesSetSnoc(values: map<int, real>, neurons: seq<Neuron>)
    requires |neurons| > 0
    ensures var k := |neurons| - 1;
      AllSourcesSet(values, neurons) <==> AllSourcesSet(values, neurons[..k]) && SourcesSet(values, neurons, k)
  {
    var k := |neurons| - 1;
    forall i | 0 <= i < k
      ensures SourcesSet(values, neurons[..k], i) == SourcesSet(values, neurons, i)
    {
      SourcesSetPrefix(values, neurons, k, i);
    }
  }

  lemma {:induction false} RunNeuronsSucceedsIff(values: map<int, real>, neurons: seq<Neuron>, act: (ActivationFn, real) -> real)
    ensures RunNeurons(values, neurons, act).Success? <==> AllSourcesSet(values, neurons)
    decreases |neurons|
  {
    if neurons != [] {
      var k := |neurons| - 1;
      var n := neurons[k];
      RunNeuronsSucceedsIff(values, neurons[..k], act);
      RunNeuronsKeys(values, neurons[..k], act);
      AllSourcesSetSnoc(values, neurons);
      var prefix := RunNeurons(values, neurons[..k], act);
      if prefix.Success? {
        WeightedSumDefined(prefix.value, n.inputs);
        assert SourcesSet(values, neurons, k) <==> forall m :: 0 <= m < |n.inputs| ==> n.inputs[m].inputId in prefix.value;
      }
    }
  }

  /** values[input_ids[i]] = inputs[i], in order (a later duplicate id wins). */
  function AssignInputs(ids: seq<int>, x: seq<real>): map<int, real>
    requires |ids| == |x|
    decreases |ids|
  {
    if ids == [] then map[]
    else
      var k := |ids| - 1;
      AssignInputs(ids[..k], x[..k])[ids[k] := x[k]]
  }

  /** Every input id gets a value, and an id listed once gets its own input. */
  lemma {:induction false} AssignInputsSpec(ids: seq<int>, x: seq<real>)
    requires |ids| == |x|
    ensures AssignInputs(ids, x).Keys == Elems(ids)
    ensures forall i :: 0 <= i < |ids| && (forall j :: i < j < |ids| ==> ids[j] != ids[i]) ==>
              AssignInputs(ids, x)[ids[i]] == x[i]
    decreases |ids|
  {
    if ids != [] {
      var k := |ids| - 1;
      AssignInputsSpec(ids[..k], x[..k]);
      assert ids == ids[..k] + [ids[k]];
      assert forall i :: 0 <= i < k ==> ids[..k][i] == ids[i] && x[..k][i] == x[i];
    }
  }

  /** values[output_id] = 0.0 for every output id. */
  function ZeroOutputs(values: map<int, real>, ids: seq<int>): map<int, real>
    decreases |ids|
  {
    if ids == [] then values
    else
      var k := |ids| - 1;
      ZeroOutputs(values, ids[..k])[ids[k] := 0.0]
  }

  lemma {:induction false} ZeroOutputsSpec(values: map<int, real>, ids: seq<int>)
    ensures ZeroOutputs(values, ids).Keys == values.Keys + Elems(ids)
    ensures forall v :: v in ids ==> ZeroOutputs(values, ids)[v] == 0.0
    ensures forall v :: v in values && v !in ids ==> ZeroOutputs(values, ids)[v] == values[v]
    decreases |ids|
  {
    if ids != [] {
      var k := |ids| - 1;
      ZeroOutputsSpec(values, ids[..k]);
      assert ids == ids[..k] + [ids[k]];
    }
  }

  /** The value map before the neuron loop. */
  function InitialValues(net: FeedForwardNetwork, x: seq<real>): map<int, real>
    requires |x| == |net.inputIds|
  {
    ZeroOutputs(AssignInputs(net.inputIds, x), net.outputIds)
  }

  lemma InitialValuesSpec(net: FeedForwardNetwork, x: seq<real>)
    requires |x| == |net.inputIds|
    ensures InitialValues(net, x).Keys == Elems(net.inputIds) + Elems(net.outputIds)
    ensures forall v :: v in net.outputIds ==> InitialValues(net, x)[v] == 0.0
  {
    AssignInputsSpec(net.inputIds, x);
    ZeroOutputsSpec(AssignInputs(net.inputIds, x), net.outputIds);
  }

  /** The value map after the neuron loop, or the assertion that stops activate first. */
  function FinalValues(net: FeedForwardNetwork, x: seq<real>, act: (ActivationFn, real) -> real): Result<map<int, real>, ActivateError>
  {
    if |x| != |net.inputIds| then Failure(InputSizeMismatch(|net.inputIds|, |x|))
    else RunNeurons(InitialValues(net, x), net.neurons, act)
  }

  lemma FinalValuesHoldOutputs(net: FeedForwardNetwork, x: seq<real>, act: (ActivationFn, real) -> real)
    ensures FinalValues(net, x, act).Success? ==>
              forall i :: 0 <= i < |net.outputIds| ==> net.outputIds[i] in FinalValues(net, x, act).value
  {
    if |x| == |net.inputIds| {
      InitialValuesSpec(net, x);
      RunNeuronsSpec(InitialValues(net, x), net.neurons, act);
      forall i | 0 <= i < |net.outputIds|
        ensures net.outputIds[i] in Elems(net.outputIds)
      {
        var v := net.outputIds[i];
        assert v in net.outputIds;
      }
    }
  }

  /** What activate returns: the final value of each output id, in output order. */
  function ActivateSpec(net: FeedForwardNetwork, x: seq<real>, act: (ActivationFn, real) -> real): Result<seq<real>, ActivateError>
  {
    var fv := FinalValues(net, x, act);
    if fv.Failure? then Failure(fv.error)
    else
      FinalValuesHoldOutputs(net, x, act);
      Success(seq(|net.outputIds|, i requires 0 <= i < |net.outputIds| => fv.value[net.outputIds[i]]))
  }

  /** Every source a neuron reads is an input id, an output id or the id of an earlier neuron. */
  ghost predicate ReadsDefined(net: FeedForwardNetwork)
  {
    forall k, m :: 0 <= k < |net.neurons| && 0 <= m < |net.neurons[k].inputs| ==>
      net.neurons[k].inputs[m].inputId in Elems(net.inputIds) + Elems(net.outputIds) + WrittenIds(net.neurons[..k])
  }

  /**
   * activate returns a value exactly when the input count matches and every
   * read source is already set; it then returns one value per output id, in
   * output order.
   */
  lemma ActivateSucceedsIff(net: FeedForwardNetwork, x: seq<real>, act: (ActivationFn, real) -> real)
    ensures ActivateSpec(net, x, act).Success? <==> |x| == |net.inputIds| && ReadsDefined(net)
    ensures ActivateSpec(net, x, act).Success? ==>
              FinalValues(net, x, act).Success?
              && (forall i :: 0 <= i < |net.outputIds| ==> net.outputIds[i] in FinalValues(net, x, act).value)
              && |ActivateSpec(net, x, act).value| == |net.outputIds|
              && forall i :: 0 <= i < |net.outputIds| ==>
                   ActivateSpec(net, x, act).value[i] == FinalValues(net, x, act).value[net.outputIds[i]]
    ensures |x| != |net.inputIds| ==> ActivateSpec(net, x, act) == Failure(InputSizeMismatch(|net.inputIds|, |x|))
  {
    FinalValuesHoldOutputs(net, x, act);
    if |x| == |net.inputIds| {
      InitialValuesSpec(net, x);
      RunNeuronsSpec(InitialValues(net, x), net.neurons, act);
    }
  }

  /** The two assignment loops at the start of activate. */
  method SetInitialValues(net: FeedForwardNetwork, x: seq<real>) returns (values: map<int, real>)
    requires |x| == |net.inputIds|
    ensures values == InitialValues(net, x)
  {
    values := map[];
    for i := 0 to |x|
      invariant values == AssignInputs(net.inputIds[..i], x[..i])
    {
      assert net.inputIds[..i + 1][..i] == net.inputIds[..i] && x[..i + 1][..i] == x[..i];
      values := values[net.inputIds[i] := x[i]];
    }
    assert net.inputIds[..|x|] == net.inputIds && x[..|x|] == x;
    for i := 0 to |net.outputIds|
      invariant values == ZeroOutputs(AssignInputs(net.inputIds, x), net.outputIds[..i])
    {
      assert net.outputIds[..i + 1][..i] == net.outputIds[..i];
      values := values[net.outputIds[i] := 0.0];
    }
    assert net.outputIds[..|net.outputIds|] == net.outputIds;
  }

  /** The body of the neuron loop of activate: the weighted-sum loop, then the activation. */
  method FireNeuron(values: map<int, real>, neuron: Neuron, act: (ActivationFn, real) -> real)
    returns (r: Result<map<int, real>, ActivateError>)
    ensures r == Fire(values, neuron, act)
  {
    var value := 0.0;
    for m := 0 to |neuron.inputs|
      invariant WeightedSum(values, neuron.inputs[..m]) == Success(value)
    {
      var input := neuron.inputs[m];
      assert neuron.inputs[..m + 1][..m] == neuron.inputs[..m] && neuron.inputs[..m + 1][m] == input;
      if input.inputId !in values {
        assert WeightedSum(values, neuron.inputs[..m + 1]) == Failure(MissingValue(input.inputId));
        SumFailurePersists(values, neuron.inputs, m + 1);
        return Failure(MissingValue(input.inputId));
      }
      value := value + Weighted(values[input.inputId], input.weight);
    }
    assert neuron.inputs[..|neuron.inputs|] == neuron.inputs;
    value := act(neuron.activation, value + neuron.bias);
    r := Success(values[neuron.neuronId := value]);
  }

  /** The neuron loop of activate. */
  method RunAll(init: map<int, real>, neurons: seq<Neuron>, act: (ActivationFn, real) -> real)
    returns (r: Result<map<int, real>, ActivateError>)
    ensures r == RunNeurons(init, neurons, act)
  {
    var values := init;
    for k := 0 to |neurons|
      invariant RunNeurons(init, neurons[..k], act) == Success(values)
    {
      assert neurons[..k + 1][..k] == neurons[..k] && neurons[..k + 1][k] == neurons[k];
      var fired := FireNeuron(values, neurons[k], act);
      if fired.Failure? {
        assert RunNeurons(init, neurons[..k + 1], act) == fired;
        RunFailurePersists(init, neurons, act, k + 1);
        return fired;
      }
      values := fired.value;
    }
    assert neurons[..|neurons|] == neurons;
    r := Success(values);
  }

  /** The output loop of activate. */
  method CollectOutputs(outputIds: seq<int>, values: map<int, real>) returns (outputs: seq<real>)
    requires forall i :: 0 <= i < |outputIds| ==> outputIds[i] in values
    ensures |outputs| == |outputIds| && forall j :: 0 <= j < |outputIds| ==> outputs[j] == values[outputIds[j]]
  {
    outputs := [];
    for i := 0 to |outputIds|
      invariant |outputs| == i && forall j :: 0 <= j < i ==> outputs[j] == values[outputIds[j]]
    {
      outputs := outputs + [values[outputIds[i]]];
    }
  }

  /** FeedForwardNeuralNetwork::activate. */
  method Activate(net: FeedForwardNetwork, x: seq<real>, act: (ActivationFn, real) -> real) returns (r: Result<seq<real>, ActivateError>)
    ensures r == ActivateSpec(net, x, act)
  {
    if |x| != |net.inputIds| {
      return Failure(InputSizeMismatch(|net.inputIds|, |x|));
    }
    var init := SetInitialValues(net, x);
    var run := RunAll(init, net.neurons, act);
    assert run == FinalValues(net, x, act);
    if run.Failure? {
      return Failure(run.error);
    }
    FinalValuesHoldOutputs(net, x, act);
    var outputs := CollectOutputs(net.outputIds, run.value);
    ActivateSucceedsIff(net, x, act);
    r := Success(outputs);
    assert outputs == ActivateSpec(net, x, act).value;
  }

  // ---------------------------------------------------------------------
  // Compiling a genome (create_from_genome) and the input overwrite
  // ---------------------------------------------------------------------

  /** What feed_forward_layer guarantees about the layers it sorts and the levels behind them. */
  ghost predicate IsFeedForwardOrder(sorted: seq<seq<int>>, layers: seq<seq<int>>, levels: seq<map<int, int>>,
                                     inputs: seq<int>, outputs: seq<int>, E: set<LinkId>)
  {
    IsLayering(layers, inputs, outputs, E)
    && |sorted| == |layers| == |levels|
    && forall k :: 0 <= k < |layers| ==>
         IsLongestPathLevels(levels[k], layers[k], E) && IsLevelOrder(sorted[k], levels[k])
  }

  /** The network create_from_genome returns for a compiled neuron list. */
  function NetworkFrom(g: GenomeValue, compiled: Result<seq<Neuron>, CompileError>): Result<FeedForwardNetwork, CompileError>
  {
    if compiled.Failure? then Failure(compiled.error)
    else Success(FeedForwardNetwork(MakeInputIds(g.numInputs), MakeOutputIds(g.numInputs, g.numOutputs), compiled.value))
  }

  /** Every read of an input id comes after a neuron that rewrites that id. */
  ghost predicate InputsComputedBeforeRead(net: FeedForwardNetwork)
  {
    forall k, m :: 0 <= k < |net.neurons| && 0 <= m < |net.neurons[k].inputs|
                   && net.neurons[k].inputs[m].inputId in net.inputIds ==>
      net.neurons[k].inputs[m].inputId in WrittenIds(net.neurons[..k])
  }

  /** No compiled neuron writes an input id. */
  ghost predicate InputsNeverWritten(net: FeedForwardNetwork)
  {
    forall k :: 0 <= k < |net.neurons| ==> net.neurons[k].neuronId !in net.inputIds
  }

  lemma LevelOrderBefore(s: seq<int>, levels: map<int, int>, p: int, k: int)
    requires IsLevelOrder(s, levels) && 0 <= p < |s| && 0 <= k < |s|
    requires s[p] in levels && s[k] in levels && levels[s[p]] < levels[s[k]]
    ensures p < k
  {
  }

  lemma FlattenHead(sorted: seq<seq<int>>)
    requires |sorted| > 0
    ensures Flatten(sorted) == sorted[0] + Flatten(sorted[1..])
  {
    var h, t := sorted[0], sorted[1..];
    assert [h] + t == sorted;
    FlattenAppend([h], t);
    assert Flatten([h]) == h by {
      assert [h][..0] == [];
      assert Flatten([h]) == Flatten([]) + h;
    }
  }

  /** Every seed is listed in the level order of its relaxation. */
  lemma SeedPosition(s0: seq<int>, lv: map<int, int>, seeds: seq<int>, E: set<LinkId>, u: int) returns (p: int)
    requires IsLongestPathLevels(lv, seeds, E) && IsLevelOrder(s0, lv) && u in seeds
    ensures 0 <= p < |s0| && s0[p] == u
  {
    LevelsAreNonNegative(lv, seeds, E);
    assert multiset(s0)[u] == 1;
    assert u in multiset(s0);
    p :| 0 <= p < |s0| && s0[p] == u;
  }

  /** A seed with a link into the k-th id of the level order is listed before it. */
  lemma SeedBeforeReader(s0: seq<int>, lv: map<int, int>, seeds: seq<int>, E: set<LinkId>, u: int, k: int)
    requires IsLongestPathLevels(lv, seeds, E) && IsLevelOrder(s0, lv) && u in seeds
    requires 0 <= k < |s0| && LinkId(u, s0[k]) in E
    ensures u in s0[..k]
  {
    var p := SeedPosition(s0, lv, seeds, E, u);
    LevelsAreNonNegative(lv, seeds, E);
    LevelsRiseAlongLinks(lv, seeds, E, u, s0[k]);
    LevelOrderBefore(s0, lv, p, k);
    assert s0[..k][p] == u;
  }

  /**
   * In the feed-forward order, an input id with a link into the k-th listed id
   * is listed before it: the first sorted layer holds every input, ordered by
   * longest-path level, and levels rise along links.
   */
  lemma InputsPrecedeReaders(sorted: seq<seq<int>>, layers: seq<seq<int>>, levels: seq<map<int, int>>,
                             inputs: seq<int>, outputs: seq<int>, E: set<LinkId>, k: int, u: int)
    requires IsFeedForwardOrder(sorted, layers, levels, inputs, outputs, E)
    requires 0 <= k < |Flatten(sorted)| && u in inputs && LinkId(u, Flatten(sorted)[k]) in E
    ensures u in Flatten(sorted)[..k]
  {
    var order := Flatten(sorted);
    var s0 := sorted[0];
    FlattenHead(sorted);
    assert layers[0] == inputs;
    assert IsLongestPathLevels(levels[0], inputs, E) && IsLevelOrder(s0, levels[0]);
    if k < |s0| {
      assert order[k] == s0[k];
      SeedBeforeReader(s0, levels[0], inputs, E, u, k);
      var j :| 0 <= j < k && s0[..k][j] == u;
      assert order[j] == s0[j];
      PrefixMember(order, k, j);
    } else {
      var p := SeedPosition(s0, levels[0], inputs, E, u);
      assert order[p] == s0[p];
      PrefixMember(order, k, p);
    }
  }

  lemma PrefixMember(s: seq<int>, k: int, p: int)
    requires 0 <= p < k <= |s|
    ensures s[p] in s[..k]
  {
    assert s[..k][p] == s[p];
  }

  /** The neurons compiled from a feed-forward order rewrite every input id before reading it. */
  lemma CompiledInputsComputedBeforeRead(g: GenomeValue, sorted: seq<seq<int>>, layers: seq<seq<int>>,
                                         levels: seq<map<int, int>>, neurons: seq<Neuron>)
    requires IsFeedForwardOrder(sorted, layers, levels, MakeInputIds(g.numInputs),
                                MakeOutputIds(g.numInputs, g.numOutputs), Edges(g.links))
    requires CompileNeurons(g.neurons, g.links, Flatten(sorted)) == Success(neurons)
    ensures InputsComputedBeforeRead(FeedForwardNetwork(MakeInputIds(g.numInputs), MakeOutputIds(g.numInputs, g.numOutputs), neurons))
  {
    var order := Flatten(sorted);
    var inputs := MakeInputIds(g.numInputs);
    CompileNeuronsSpec(g.neurons, g.links, order);
    forall k, m | 0 <= k < |neurons| && 0 <= m < |neurons[k].inputs| && neurons[k].inputs[m].inputId in inputs
      ensures neurons[k].inputs[m].inputId in WrittenIds(neurons[..k])
    {
      var x := neurons[k].inputs[m];
      assert CompiledFrom(neurons[k], g.neurons, g.links, order[k]);
      assert x in IncomingInputs(g.links, order[k]);
      var l :| l in g.links && l.linkId.outputId == order[k] && x == NeuronInput(l.linkId.inputId, l.weight);
      assert l.linkId == LinkId(x.inputId, order[k]);
      InputsPrecedeReaders(sorted, layers, levels, inputs, MakeOutputIds(g.numInputs, g.numOutputs), Edges(g.links), k, x.inputId);
      var j :| 0 <= j < k && order[j] == x.inputId;
      assert CompiledFrom(neurons[j], g.neurons, g.links, order[j]);
      assert neurons[..k][j] == neurons[j];
    }
  }

  /**
   * create_from_genome: the feed-forward layering of the genome's input and
   * output ids over all its links, then one compiled neuron per listed id, the
   * input layer included. Input ids are therefore recomputed as neurons before
   * any neuron reads them.
   */
  method CreateFromGenome(g: GenomeValue)
    returns (r: Result<FeedForwardNetwork, CompileError>, ghost sorted: seq<seq<int>>,
             ghost layers: seq<seq<int>>, ghost levels: seq<map<int, int>>)
    requires SimplePathsFrom(Edges(g.links), MakeInputIds(g.numInputs))
    requires SimplePathsFrom(Edges(g.links), MakeOutputIds(g.numInputs, g.numOutputs))
    ensures IsFeedForwardOrder(sorted, layers, levels, MakeInputIds(g.numInputs),
                               MakeOutputIds(g.numInputs, g.numOutputs), Edges(g.links))
    ensures r == NetworkFrom(g, CompileNeurons(g.neurons, g.links, Flatten(sorted)))
    ensures r.Success? ==> InputsComputedBeforeRead(r.value)
  {
    var inputs := MakeInputIds(g.numInputs);
    var outputs := MakeOutputIds(g.numInputs, g.numOutputs);
    var ordered;
    ghost var ls, lv;
    ordered, ls, lv := FeedForwardLayer(inputs, outputs, g.links);
    sorted, layers, levels := ordered, ls, lv;
    var compiled := CompileLayers(g, ordered, []);
    SkipNothing(Flatten(ordered));
    if compiled.Failure? {
      return Failure(compiled.error), sorted, layers, levels;
    }
    CompiledInputsComputedBeforeRead(g, sorted, layers, levels, compiled.value);
    r := Success(FeedForwardNetwork(inputs, outputs, compiled.value));
  }

  /** An id that no neuron carries is not among the written ids. */
  lemma NotWritten(neurons: seq<Neuron>, v: int)
    requires forall k :: 0 <= k < |neurons| ==> neurons[k].neuronId != v
    ensures v !in WrittenIds(neurons)
  {
    forall n | n in neurons
      ensures n.neuronId != v
    {
      var j :| 0 <= j < |neurons| && neurons[j] == n;
    }
  }

  /**
   * Two runs agree outside S: they fail alike, and when they succeed their
   * value maps have the same keys and the same value at every id outside S.
   */
  ghost predicate AgreeOutside(rx: Result<map<int, real>, ActivateError>, ry: Result<map<int, real>, ActivateError>, S: set<int>)
  {
    && rx.Success? == ry.Success?
    && (rx.Failure? ==> rx == ry)
    && (rx.Success? ==> rx.value.Keys == ry.value.Keys
                        && forall v :: v in rx.value && v !in S ==> rx.value[v] == ry.value[v])
  }

  /** Firing one neuron that reads nothing in S keeps two maps in agreement outside S, less the id it writes. */
  lemma FireAgrees(px: map<int, real>, py: map<int, real>, n: Neuron, act: (ActivationFn, real) -> real, S: set<int>)
    requires AgreeOutside(Success(px), Success(py), S)
    requires forall m :: 0 <= m < |n.inputs| ==> n.inputs[m].inputId !in S
    ensures AgreeOutside(Fire(px, n, act), Fire(py, n, act), S - {n.neuronId})
  {
    WeightedSumAgree(px, py, n.inputs);
  }

  /**
   * Two value maps that agree outside a set T of ids stay in agreement, through
   * the neuron loop, outside T less the ids written so far, as long as every
   * read of an id of T comes after a neuron that writes it.
   */
  lemma {:induction false} RunAgreesOutsideTaint(vx: map<int, real>, vy: map<int, real>, neurons: seq<Neuron>,
                                                 act: (ActivationFn, real) -> real, T: set<int>)
    requires AgreeOutside(Success(vx), Success(vy), T)
    requires forall k, m :: 0 <= k < |neurons| && 0 <= m < |neurons[k].inputs| && neurons[k].inputs[m].inputId in T ==>
               neurons[k].inputs[m].inputId in WrittenIds(neurons[..k])
    ensures AgreeOutside(RunNeurons(vx, neurons, act), RunNeurons(vy, neurons, act), T - WrittenIds(neurons))
    decreases |neurons|
  {
    if neurons == [] {
      assert WrittenIds(neurons) == {};
    } else {
      var k := |neurons| - 1;
      var n := neurons[k];
      assert forall i :: 0 <= i < k ==> neurons[..k][i] == neurons[i] && neurons[..k][..i] == neurons[..i];
      RunAgreesOutsideTaint(vx, vy, neurons[..k], act, T);
      var px, py := RunNeurons(vx, neurons[..k], act), RunNeurons(vy, neurons[..k], act);
      assert neurons == neurons[..k] + [n];
      WrittenSnoc(neurons[..k], n);
      var S := T - WrittenIds(neurons[..k]);
      assert T - WrittenIds(neurons) == S - {n.neuronId};
      if px.Success? {
        forall m | 0 <= m < |n.inputs|
          ensures n.inputs[m].inputId !in S
        {
          if n.inputs[m].inputId in T {
            assert n.inputs[m].inputId in WrittenIds(neurons[..k]);
          }
        }
        FireAgrees(px.value, py.value, n, act, S);
      }
    }
  }

  /**
   * The network as compiled ignores its inputs: when every input id is
   * recomputed before it is read, activate returns the same result for any two
   * input vectors of the same length.
   */
  lemma OutputsIgnoreInputs(net: FeedForwardNetwork, x: seq<real>, y: seq<real>, act: (ActivationFn, real) -> real)
    requires InputsComputedBeforeRead(net) && |x| == |y|
    ensures ActivateSpec(net, x, act) == ActivateSpec(net, y, act)
  {
    if |x| == |net.inputIds| {
      var T := Elems(net.inputIds) - Elems(net.outputIds);
      var vx, vy := InitialValues(net, x), InitialValues(net, y);
      InitialValuesSpec(net, x);
      InitialValuesSpec(net, y);
      forall v | v in vx && v !in T
        ensures vx[v] == vy[v]
      {
        assert v in Elems(net.outputIds);
      }
      forall k, m | 0 <= k < |net.neurons| && 0 <= m < |net.neurons[k].inputs| && net.neurons[k].inputs[m].inputId in T
        ensures net.neurons[k].inputs[m].inputId in WrittenIds(net.neurons[..k])
      {
        assert net.neurons[k].inputs[m].inputId in net.inputIds;
      }
      RunAgreesOutsideTaint(vx, vy, net.neurons, act, T);
      var fx, fy := FinalValues(net, x, act), FinalValues(net, y, act);
      assert fx == RunNeurons(vx, net.neurons, act) && fy == RunNeurons(vy, net.neurons, act);
      if fx.Success? {
        ActivateSucceedsIff(net, x, act);
        ActivateSucceedsIff(net, y, act);
        var ox, oy := ActivateSpec(net, x, act).value, ActivateSpec(net, y, act).value;
        forall i | 0 <= i < |net.outputIds|
          ensures ox[i] == oy[i]
        {
          var v := net.outputIds[i];
          assert v in net.outputIds;
          assert v !in T;
        }
        assert ox == oy;
      }
    }
  }

  /**
   * create_from_genome as intended: the same layering, but the input ids are
   * left out of the compiled neurons, so that they keep the supplied inputs.
   */
  method CreateFromGenomeCorrected(g: GenomeValue)
    returns (r: Result<FeedForwardNetwork, CompileError>, ghost sorted: seq<seq<int>>,
             ghost layers: seq<seq<int>>, ghost levels: seq<map<int, int>>)
    requires SimplePathsFrom(Edges(g.links), MakeInputIds(g.numInputs))
    requires SimplePathsFrom(Edges(g.links), MakeOutputIds(g.numInputs, g.numOutputs))
    ensures IsFeedForwardOrder(sorted, layers, levels, MakeInputIds(g.numInputs),
                               MakeOutputIds(g.numInputs, g.numOutputs), Edges(g.links))
    ensures r == NetworkFrom(g, CompileNeurons(g.neurons, g.links, SkipIds(Flatten(sorted), MakeInputIds(g.numInputs))))
    ensures r.Success? ==> InputsNeverWritten(r.value)
  {
    var inputs := MakeInputIds(g.numInputs);
    var outputs := MakeOutputIds(g.numInputs, g.numOutputs);
    var ordered;
    ghost var ls, lv;
    ordered, ls, lv := FeedForwardLayer(inputs, outputs, g.links);
    sorted, layers, levels := ordered, ls, lv;
    var compiled := CompileLayers(g, ordered, inputs);
    if compiled.Failure? {
      return Failure(compiled.error), sorted, layers, levels;
    }
    ghost var order := SkipIds(Flatten(ordered), inputs);
    CompileNeuronsSpec(g.neurons, g.links, order);
    SkipIdsMembers(Flatten(ordered), inputs);
    forall k | 0 <= k < |compiled.value|
      ensures compiled.value[k].neuronId !in inputs
    {
      assert CompiledFrom(compiled.value[k], g.neurons, g.links, order[k]);
      assert order[k] in order;
    }
    r := Success(FeedForwardNetwork(inputs, outputs, compiled.value));
  }

  /**
   * With no neuron writing an input id (and distinct input ids that are not
   * output ids), every neuron of the pass reads the supplied input under each
   * input id.
   */
  lemma SuppliedInputsReachNeurons(net: FeedForwardNetwork, x: seq<real>, act: (ActivationFn, real) -> real, k: int)
    requires InputsNeverWritten(net) && |x| == |net.inputIds|
    requires Distinct(net.inputIds) && forall i :: 0 <= i < |net.inputIds| ==> net.inputIds[i] !in net.outputIds
    requires 0 <= k <= |net.neurons|
    ensures var run := RunNeurons(InitialValues(net, x), net.neurons[..k], act);
      run.Success? ==> forall i :: 0 <= i < |net.inputIds| ==> net.inputIds[i] in run.value && run.value[net.inputIds[i]] == x[i]
  {
    var init := InitialValues(net, x);
    AssignInputsSpec(net.inputIds, x);
    ZeroOutputsSpec(AssignInputs(net.inputIds, x), net.outputIds);
    RunNeuronsSpec(init, net.neurons[..k], act);
    forall i | 0 <= i < |net.inputIds|
      ensures net.inputIds[i] in init && init[net.inputIds[i]] == x[i]
      ensures net.inputIds[i] !in WrittenIds(net.neurons[..k])
    {
      var v := net.inputIds[i];
      assert v in net.inputIds;
      assert v in Elems(net.inputIds);
      NotWritten(net.neurons[..k], v);
    }
  }
}
