/**
 * The genome: an ordered list of neuron genes and an ordered list of link
 * genes, the lookups over them, the structural cycle check and the initial
 * fully-wired topology (Genome.h, Genome.cpp).
 */
module Genomes {
  import opened Wrappers
  import opened Genes
  import opened Graphs

  /** A genome copied by value, as Individual and the crossover see it. */
  datatype GenomeValue = GenomeValue(
    genomeId: int,
    numInputs: nat,
    numOutputs: nat,
    neurons: seq<NeuronGene>,
    links: seq<LinkGene>)

  function NeuronIds(neurons: seq<NeuronGene>): set<int>
  {
    set n | n in neurons :: n.neuronId
  }

  /** Every link starts and ends at a neuron of the genome. */
  ghost predicate EndpointsAreNeurons(neurons: seq<NeuronGene>, links: seq<LinkGene>)
  {
    forall l :: l in links ==> l.linkId.inputId in NeuronIds(neurons) && l.linkId.outputId in NeuronIds(neurons)
  }

  /** At most one link gene per ordered pair of neuron ids. */
  ghost predicate UniqueLinkIds(links: seq<LinkGene>)
  {
    forall i, j :: 0 <= i < j < |links| ==> links[i].linkId != links[j].linkId
  }

  /** No two neuron genes share an id. */
  ghost predicate UniqueNeuronIds(neurons: seq<NeuronGene>)
  {
    forall i, j :: 0 <= i < j < |neurons| ==> neurons[i].neuronId != neurons[j].neuronId
  }

  /** The structural invariant the genome operators keep. */
  ghost predicate WellFormed(neurons: seq<NeuronGene>, links: seq<LinkGene>)
  {
    EndpointsAreNeurons(neurons, links) && UniqueLinkIds(links) && Acyclic(Edges(links))
  }

  lemma NeuronIdsSnoc(neurons: seq<NeuronGene>, n: NeuronGene)
    ensures NeuronIds(neurons + [n]) == NeuronIds(neurons) + {n.neuronId}
  {
    assert forall m :: m in neurons + [n] <==> m in neurons || m == n;
  }

  /** Appending a link whose key is new keeps keys unique. */
  lemma UniqueSnoc(links: seq<LinkGene>, l: LinkGene)
    requires UniqueLinkIds(links) && l.linkId !in Edges(links)
    ensures UniqueLinkIds(links + [l])
  {
    forall i, j | 0 <= i < j < |links| + 1
      ensures (links + [l])[i].linkId != (links + [l])[j].linkId
    {
      assert links[i] in links;
    }
  }

  /** Genome::find_neuron: the first gene carrying the id, if any. */
  function FindNeuron(neurons: seq<NeuronGene>, id: int): (r: Option<NeuronGene>)
    ensures r.None? <==> forall k :: 0 <= k < |neurons| ==> neurons[k].neuronId != id
    ensures r.Some? ==> (exists k :: 0 <= k < |neurons| && neurons[k] == r.value && r.value.neuronId == id
                                      && forall j :: 0 <= j < k ==> neurons[j].neuronId != id)
    decreases |neurons|
  {
    if neurons == [] then
      None
    else if neurons[0].neuronId == id then
      Some(neurons[0])
    else
      var r := FindNeuron(neurons[1..], id);
      assert r.Some? ==> (exists k :: 1 <= k < |neurons| && neurons[k] == r.value && r.value.neuronId == id
                                       && forall j :: 0 <= j < k ==> neurons[j].neuronId != id) by {
        if r.Some? {
          var k :| 0 <= k < |neurons[1..]| && neurons[1..][k] == r.value && r.value.neuronId == id
            && forall j :: 0 <= j < k ==> neurons[1..][j].neuronId != id;
          assert neurons[k + 1] == r.value;
          assert forall j :: 1 <= j < k + 1 ==> neurons[j] == neurons[1..][j - 1];
        }
      }
      r
  }

  /** Genome::find_link: the first gene whose endpoints both match, if any. */
  function FindLink(links: seq<LinkGene>, id: LinkId): (r: Option<LinkGene>)
    ensures r.None? <==> id !in Edges(links)
    ensures r.Some? ==> (exists k :: 0 <= k < |links| && links[k] == r.value && r.value.linkId == id
                                      && forall j :: 0 <= j < k ==> links[j].linkId != id)
    decreases |links|
  {
    if links == [] then
      None
    else if links[0].linkId.inputId == id.inputId && links[0].linkId.outputId == id.outputId then
      Some(links[0])
    else
      var r := FindLink(links[1..], id);
      FindLinkStep(links, id, r);
      r
  }

  /** What FindLink promises of links, from what it promises of their tail. */
  lemma FindLinkStep(links: seq<LinkGene>, id: LinkId, r: Option<LinkGene>)
    requires |links| > 0 && links[0].linkId != id
    requires r.None? <==> id !in Edges(links[1..])
    requires r.Some? ==> (exists k :: 0 <= k < |links[1..]| && links[1..][k] == r.value && r.value.linkId == id
                                       && forall j :: 0 <= j < k ==> links[1..][j].linkId != id)
    ensures r.None? <==> id !in Edges(links)
    ensures r.Some? ==> (exists k :: 0 <= k < |links| && links[k] == r.value && r.value.linkId == id
                                      && forall j :: 0 <= j < k ==> links[j].linkId != id)
  {
    assert Edges(links) == {links[0].linkId} + Edges(links[1..]) by {
      assert links == [links[0]] + links[1..];
    }
    if r.Some? {
      var k :| 0 <= k < |links[1..]| && links[1..][k] == r.value && r.value.linkId == id
        && forall j :: 0 <= j < k ==> links[1..][j].linkId != id;
      assert links[k + 1] == r.value;
      assert forall j :: 1 <= j < k + 1 ==> links[j] == links[1..][j - 1];
    }
  }

  /** Genome::make_input_ids: the ids 0 .. numInputs - 1, in order. */
  function MakeInputIds(numInputs: nat): (r: seq<int>)
    ensures |r| == numInputs && forall k :: 0 <= k < |r| ==> r[k] == k
  {
    seq(numInputs, k => k)
  }

  /** Genome::make_output_ids: the ids numInputs .. numInputs + numOutputs - 1, in order. */
  function MakeOutputIds(numInputs: nat, numOutputs: nat): (r: seq<int>)
    ensures |r| == numOutputs && forall k :: 0 <= k < |r| ==> r[k] == numInputs + k
  {
    seq(numOutputs, k => numInputs + k)
  }

  /** Input and output ids never overlap and together enumerate 0 .. ni + no - 1. */
  lemma InputOutputIdsPartition(ni: nat, no: nat)
    ensures forall x :: x in MakeInputIds(ni) ==> x !in MakeOutputIds(ni, no)
    ensures MakeInputIds(ni) + MakeOutputIds(ni, no) == MakeInputIds(ni + no)
  {
    var a := MakeInputIds(ni) + MakeOutputIds(ni, no);
    forall k | 0 <= k < ni + no
      ensures a[k] == k
    {
      if k >= ni {
        assert a[k] == MakeOutputIds(ni, no)[k - ni];
      }
    }
  }

  /** Genome::create_neuron: a zero-bias sigmoid neuron with the given id. */
  function CreateNeuron(id: int): NeuronGene
  {
    NeuronGene(id, 0.0, Sigmoid)
  }

  /** Genome::create_link: an enabled link with the weight drawn for it. */
  function CreateLink(inputId: int, outputId: int, weight: real): LinkGene
  {
    LinkGene(LinkId(inputId, outputId), weight, true)
  }

  /** Adjacency list of one node in the graph the cycle check builds. */
  function Successors(graph: map<int, seq<int>>, u: int): seq<int>
  {
    if u in graph then graph[u] else []
  }

  /** The adjacency lists hold exactly the keys of E. */
  ghost predicate GraphOf(graph: map<int, seq<int>>, E: set<LinkId>)
  {
    forall u, v :: v in Successors(graph, u) <==> LinkId(u, v) in E
  }

  ghost function Targets(links: seq<LinkGene>): set<int>
  {
    set l | l in links :: l.linkId.outputId
  }

  /**
   * The depth-first search of Genome::would_create_cycle. When it reports
   * true, target is reachable from current; when it reports false, every node
   * it newly visited had all of its successors visited too.
   */
  method Dfs(graph: map<int, seq<int>>, ghost E: set<LinkId>, target: int, current: int,
             visited: set<int>, ghost universe: set<int>)
    returns (found: bool, visitedOut: set<int>)
    requires GraphOf(graph, E)
    requires current in universe && visited <= universe && target !in visited
    requires forall u, v :: u in universe && LinkId(u, v) in E ==> v in universe
    ensures visited <= visitedOut <= universe && target !in visitedOut
    ensures found ==> Reaches(E, current, target)
    ensures !found ==> (current in visitedOut
                        && forall u, v :: u in visitedOut - visited && LinkId(u, v) in E ==> v in visitedOut)
    decreases universe - visited
  {
    if current == target {
      assert IsPath(E, [current]);
      return true, visited;
    }
    if current in visited {
      return false, visited;
    }
    visitedOut := visited + {current};
    var successors := Successors(graph, current);
    var i := 0;
    while i < |successors|
      invariant 0 <= i <= |successors|
      invariant visited + {current} <= visitedOut <= universe && target !in visitedOut
      invariant forall j :: 0 <= j < i ==> successors[j] in visitedOut
      invariant forall u, v :: u in visitedOut - visited - {current} && LinkId(u, v) in E ==> v in visitedOut
    {
      var next := successors[i];
      assert LinkId(current, next) in E;
      var f;
      f, visitedOut := Dfs(graph, E, target, next, visitedOut, universe);
      if f {
        ReachesStep(E, current, next, target);
        return true, visitedOut;
      }
      i := i + 1;
    }
    return false, visitedOut;
  }

  /**
   * The keys create_genome wires: each input to each hidden neuron, each
   * hidden neuron to every hidden neuron with a larger id, each hidden neuron
   * to each output.
   */
  ghost predicate IsSeedLink(ni: nat, no: nat, nh: nat, id: LinkId)
  {
    var h0 := ni + no;
    var h1 := ni + no + nh;
    (0 <= id.inputId < ni && h0 <= id.outputId < h1)
    || (h0 <= id.inputId < id.outputId < h1)
    || (h0 <= id.inputId < h1 && ni <= id.outputId < h0)
  }

  /** Which of the three wiring loops visits a seed key. */
  function SeedPhase(ni: nat, no: nat, id: LinkId): int
  {
    if id.inputId < ni then 1 else if id.outputId < ni + no then 3 else 2
  }

  /** The wiring loops, at position (phase, a, b), have already visited the key. */
  ghost predicate AddedBefore(ni: nat, no: nat, id: LinkId, phase: int, a: int, b: int)
  {
    var q := SeedPhase(ni, no, id);
    q < phase || (q == phase && (id.inputId < a || (id.inputId == a && id.outputId < b)))
  }

  /** Inputs rank 0, the k-th hidden neuron k + 1, outputs above every hidden neuron. */
  function SeedRank(ni: nat, no: nat, nh: nat, id: int): int
  {
    if id < ni then 0 else if id < ni + no then nh + 1 else id - (ni + no) + 1
  }

  lemma SeedRankIncreases(ni: nat, no: nat, nh: nat, id: LinkId)
    requires IsSeedLink(ni, no, nh, id)
    ensures SeedRank(ni, no, nh, id.inputId) < SeedRank(ni, no, nh, id.outputId)
  {
  }

  /** The links built so far by the wiring loops when they stand at (phase, a, b). */
  ghost predicate SeedLinksSoFar(links: seq<LinkGene>, ni: nat, no: nat, nh: nat, weights: nat -> real,
                                 phase: int, a: int, b: int)
  {
    (forall k :: 0 <= k < |links| ==>
       links[k] == CreateLink(links[k].linkId.inputId, links[k].linkId.outputId, weights(k))
       && IsSeedLink(ni, no, nh, links[k].linkId))
    && (forall id :: id in Edges(links) <==> IsSeedLink(ni, no, nh, id) && AddedBefore(ni, no, id, phase, a, b))
    && UniqueLinkIds(links)
  }

  /** Over seed links only, a seed key never closes a cycle: the cycle test always lets it through. */
  lemma SeedKeyNeverCycles(links: seq<LinkGene>, ni: nat, no: nat, nh: nat, a: int, b: int)
    requires forall l :: l in links ==> IsSeedLink(ni, no, nh, l.linkId)
    requires IsSeedLink(ni, no, nh, LinkId(a, b))
    ensures !Reaches(EnabledEdges(links), b, a)
  {
    var rank := x => SeedRank(ni, no, nh, x);
    forall e | e in EnabledEdges(links)
      ensures rank(e.inputId) < rank(e.outputId)
    {
      SeedRankIncreases(ni, no, nh, e);
    }
    SeedRankIncreases(ni, no, nh, LinkId(a, b));
    RankedNotReaches(EnabledEdges(links), rank, a, b);
  }

  lemma SeedStep(links: seq<LinkGene>, ni: nat, no: nat, nh: nat, weights: nat -> real, phase: int, a: int, b: int)
    requires SeedLinksSoFar(links, ni, no, nh, weights, phase, a, b)
    requires IsSeedLink(ni, no, nh, LinkId(a, b)) && SeedPhase(ni, no, LinkId(a, b)) == phase
    ensures SeedLinksSoFar(links + [CreateLink(a, b, weights(|links|))], ni, no, nh, weights, phase, a, b + 1)
  {
    SeedStepGenes(links, ni, no, nh, weights, a, b);
    SeedStepKeys(links, ni, no, nh, phase, a, b, weights(|links|));
    SeedStepUnique(links, ni, no, nh, weights, phase, a, b);
  }

  lemma SeedStepGenes(links: seq<LinkGene>, ni: nat, no: nat, nh: nat, weights: nat -> real, a: int, b: int)
    requires forall k :: 0 <= k < |links| ==>
               links[k] == CreateLink(links[k].linkId.inputId, links[k].linkId.outputId, weights(k))
               && IsSeedLink(ni, no, nh, links[k].linkId)
    requires IsSeedLink(ni, no, nh, LinkId(a, b))
    ensures var links' := links + [CreateLink(a, b, weights(|links|))];
      forall k :: 0 <= k < |links'| ==>
        links'[k] == CreateLink(links'[k].linkId.inputId, links'[k].linkId.outputId, weights(k))
        && IsSeedLink(ni, no, nh, links'[k].linkId)
  {
    var links' := links + [CreateLink(a, b, weights(|links|))];
    forall k | 0 <= k < |links'|
      ensures links'[k] == CreateLink(links'[k].linkId.inputId, links'[k].linkId.outputId, weights(k))
              && IsSeedLink(ni, no, nh, links'[k].linkId)
    {
      if k < |links| {
        assert links'[k] == links[k];
      }
    }
  }

  lemma SeedStepKeys(links: seq<LinkGene>, ni: nat, no: nat, nh: nat, phase: int, a: int, b: int, w: real)
    requires forall id :: id in Edges(links) <==> IsSeedLink(ni, no, nh, id) && AddedBefore(ni, no, id, phase, a, b)
    requires IsSeedLink(ni, no, nh, LinkId(a, b)) && SeedPhase(ni, no, LinkId(a, b)) == phase
    ensures forall id :: id in Edges(links + [CreateLink(a, b, w)]) <==>
              IsSeedLink(ni, no, nh, id) && AddedBefore(ni, no, id, phase, a, b + 1)
  {
    EdgesSnoc(links, CreateLink(a, b, w));
    forall id
      ensures id in Edges(links + [CreateLink(a, b, w)]) <==>
                IsSeedLink(ni, no, nh, id) && AddedBefore(ni, no, id, phase, a, b + 1)
    {
      assert AddedBefore(ni, no, id, phase, a, b + 1) <==> AddedBefore(ni, no, id, phase, a, b) || id == LinkId(a, b);
    }
  }

  lemma SeedStepUnique(links: seq<LinkGene>, ni: nat, no: nat, nh: nat, weights: nat -> real, phase: int, a: int, b: int)
    requires SeedLinksSoFar(links, ni, no, nh, weights, phase, a, b)
    requires SeedPhase(ni, no, LinkId(a, b)) == phase
    ensures UniqueLinkIds(links + [CreateLink(a, b, weights(|links|))])
  {
    var links' := links + [CreateLink(a, b, weights(|links|))];
    assert LinkId(a, b) !in Edges(links);
    forall i, j | 0 <= i < j < |links'|
      ensures links'[i].linkId != links'[j].linkId
    {
      if j == |links| {
        assert links[i] in links;
      } else {
        assert links'[i] == links[i] && links'[j] == links[j];
      }
    }
  }

  lemma SeedMove(links: seq<LinkGene>, ni: nat, no: nat, nh: nat, weights: nat -> real,
                 phase: int, a: int, b: int, phase': int, a': int, b': int)
    requires SeedLinksSoFar(links, ni, no, nh, weights, phase, a, b)
    requires forall id :: IsSeedLink(ni, no, nh, id) ==>
               (AddedBefore(ni, no, id, phase, a, b) <==> AddedBefore(ni, no, id, phase', a', b'))
    ensures SeedLinksSoFar(links, ni, no, nh, weights, phase', a', b')
  {
  }

  class Genome {
    var genomeId: int
    var numInputs: nat
    var numOutputs: nat
    var neurons: seq<NeuronGene>
    var links: seq<LinkGene>

    /** Genome(): id 0, no inputs or outputs, no genes. */
    constructor Default()
      ensures genomeId == 0 && numInputs == 0 && numOutputs == 0
      ensures neurons == [] && links == []
    {
      genomeId := 0;
      numInputs := 0;
      numOutputs := 0;
      neurons := [];
      links := [];
    }

    /** Genome(id, num_inputs, num_outputs): the counts recorded, no genes yet. */
    constructor (id: int, ni: nat, no: nat)
      ensures genomeId == id && numInputs == ni && numOutputs == no
      ensures neurons == [] && links == []
    {
      genomeId := id;
      numInputs := ni;
      numOutputs := no;
      neurons := [];
      links := [];
    }

    /** The genome as a value, as copying it in the source produces. */
    function Value(): GenomeValue
      reads this
    {
      GenomeValue(genomeId, numInputs, numOutputs, neurons, links)
    }

    /** Genome::add_neuron appends. */
    method AddNeuron(neuron: NeuronGene)
      modifies this`neurons
      ensures neurons == old(neurons) + [neuron]
    {
      neurons := neurons + [neuron];
    }

    /** Genome::add_link appends, without any check. */
    method AddLink(link: LinkGene)
      modifies this`links
      ensures links == old(links) + [link]
    {
      links := links + [link];
    }

    /**
     * Genome::generate_next_neuron_id: one past the largest id, where the
     * running maximum starts at 0, so an empty genome yields 1.
     */
    method GenerateNextNeuronId() returns (id: int)
      ensures forall n :: n in neurons ==> n.neuronId < id
      ensures id >= 1
      ensures id == 1 || exists n :: n in neurons && n.neuronId == id - 1
    {
      var maxId := 0;
      var i := 0;
      while i < |neurons|
        invariant 0 <= i <= |neurons|
        invariant maxId >= 0
        invariant forall k :: 0 <= k < i ==> neurons[k].neuronId <= maxId
        invariant maxId == 0 || exists k :: 0 <= k < i && neurons[k].neuronId == maxId
      {
        if neurons[i].neuronId > maxId {
          maxId := neurons[i].neuronId;
        }
        i := i + 1;
      }
      id := maxId + 1;
    }

    /**
     * Genome::would_create_cycle: whether inputId can be reached from
     * outputId along enabled links (so true when the two ids coincide).
     */
    method WouldCreateCycle(inputId: int, outputId: int) returns (r: bool)
      ensures r <==> Reaches(EnabledEdges(links), outputId, inputId)
    {
      ghost var E := EnabledEdges(links);
      var graph: map<int, seq<int>> := map[];
      var k := 0;
      while k < |links|
        invariant 0 <= k <= |links|
        invariant GraphOf(graph, EnabledEdges(links[..k]))
      {
        var link := links[k];
        EdgesSnoc(links[..k], link);
        assert links[..k + 1] == links[..k] + [link];
        if link.isEnabled {
          graph := graph[link.linkId.inputId := Successors(graph, link.linkId.inputId) + [link.linkId.outputId]];
        }
        k := k + 1;
      }
      assert links[..|links|] == links;
      ghost var universe := Targets(links) + {outputId};
      var visited: set<int>;
      r, visited := Dfs(graph, E, inputId, outputId, {}, universe);
      if !r {
        if Reaches(E, outputId, inputId) {
          var p :| IsPath(E, p) && p[0] == outputId && p[|p| - 1] == inputId;
          ClosedSetHoldsWalks(E, visited, p);
        }
      }
    }
    /**
     * Genome::create_genome: neurons 0 .. ni + no + nh - 1 (inputs, outputs,
     * hidden) with zero bias and sigmoid activation, then every seed key once,
     * each enabled and weighted by the next Gaussian draw. The cycle check
     * never rejects a seed key, so all of them are present and the result is
     * well formed.
     */
    static method CreateGenome(id: int, ni: nat, no: nat, nh: nat, weights: nat -> real) returns (g: Genome)
      ensures fresh(g)
      ensures g.genomeId == id && g.numInputs == ni && g.numOutputs == no
      ensures |g.neurons| == ni + no + nh && forall k :: 0 <= k < |g.neurons| ==> g.neurons[k] == CreateNeuron(k)
      ensures forall k :: 0 <= k < |g.links| ==> g.links[k].isEnabled && g.links[k].weight == weights(k)
      ensures forall lid :: lid in Edges(g.links) <==> IsSeedLink(ni, no, nh, lid)
      ensures WellFormed(g.neurons, g.links) && Acyclic(EnabledEdges(g.links))
      ensures UniqueNeuronIds(g.neurons)
    {
      g := new Genome(id, ni, no);
      var i := 0;
      while i < ni
        invariant 0 <= i <= ni
        invariant g.genomeId == id && g.numInputs == ni && g.numOutputs == no && g.links == []
        invariant |g.neurons| == i && forall k :: 0 <= k < i ==> g.neurons[k] == CreateNeuron(k)
      {
        g.AddNeuron(NeuronGene(i, 0.0, Sigmoid));
        i := i + 1;
      }
      i := 0;
      while i < no
        invariant 0 <= i <= no
        invariant g.genomeId == id && g.numInputs == ni && g.numOutputs == no && g.links == []
        invariant |g.neurons| == ni + i && forall k :: 0 <= k < ni + i ==> g.neurons[k] == CreateNeuron(k)
      {
        g.AddNeuron(NeuronGene(ni + i, 0.0, Sigmoid));
        i := i + 1;
      }
      i := 0;
      while i < nh
        invariant 0 <= i <= nh
        invariant g.genomeId == id && g.numInputs == ni && g.numOutputs == no && g.links == []
        invariant |g.neurons| == ni + no + i && forall k :: 0 <= k < ni + no + i ==> g.neurons[k] == CreateNeuron(k)
      {
        g.AddNeuron(NeuronGene(ni + no + i, 0.0, Sigmoid));
        i := i + 1;
      }
      g.WireInputsToHidden(nh, weights);
      g.WireHiddenToHidden(nh, weights);
      g.WireHiddenToOutputs(nh, weights);
      SeedLinksWellFormed(g.neurons, g.links, ni, no, nh);
      EnabledSubsetOfAll(g.links);
    }

    /** The first wiring loop of create_genome: each input to each hidden neuron. */
    method WireInputsToHidden(nh: nat, weights: nat -> real)
      requires links == []
      modifies this`links
      ensures SeedLinksSoFar(links, numInputs, numOutputs, nh, weights, 2, numInputs + numOutputs, numInputs + numOutputs)
    {
      var ni, no := numInputs, numOutputs;
      var h0, h1 := ni + no, ni + no + nh;
      var a := 0;
      while a < ni
        invariant 0 <= a <= ni
        invariant SeedLinksSoFar(links, ni, no, nh, weights, 1, a, h0)
      {
        var b := h0;
        while b < h1
          invariant h0 <= b <= h1
          invariant SeedLinksSoFar(links, ni, no, nh, weights, 1, a, b)
        {
          SeedKeyNeverCycles(links, ni, no, nh, a, b);
          var cycle := WouldCreateCycle(a, b);
          if !cycle {
            SeedStep(links, ni, no, nh, weights, 1, a, b);
            AddLink(CreateLink(a, b, weights(|links|)));
          }
          b := b + 1;
        }
        SeedMove(links, ni, no, nh, weights, 1, a, h1, 1, a + 1, h0);
        a := a + 1;
      }
      SeedMove(links, ni, no, nh, weights, 1, ni, h0, 2, h0, h0);
    }

    /** The second wiring loop: each hidden neuron to every hidden neuron with a larger id. */
    method WireHiddenToHidden(nh: nat, weights: nat -> real)
      requires SeedLinksSoFar(links, numInputs, numOutputs, nh, weights, 2, numInputs + numOutputs, numInputs + numOutputs)
      modifies this`links
      ensures SeedLinksSoFar(links, numInputs, numOutputs, nh, weights, 3, numInputs + numOutputs, numInputs)
    {
      var ni, no := numInputs, numOutputs;
      var h0, h1 := ni + no, ni + no + nh;
      SeedMove(links, ni, no, nh, weights, 2, h0, h0, 2, h0, h0 + 1);
      var a := h0;
      while a < h1
        invariant h0 <= a <= h1
        invariant SeedLinksSoFar(links, ni, no, nh, weights, 2, a, a + 1)
      {
        var b := a + 1;
        while b < h1
          invariant a + 1 <= b <= h1
          invariant SeedLinksSoFar(links, ni, no, nh, weights, 2, a, b)
        {
          SeedKeyNeverCycles(links, ni, no, nh, a, b);
          var cycle := WouldCreateCycle(a, b);
          if !cycle {
            SeedStep(links, ni, no, nh, weights, 2, a, b);
            AddLink(CreateLink(a, b, weights(|links|)));
          }
          b := b + 1;
        }
        SeedMove(links, ni, no, nh, weights, 2, a, b, 2, a + 1, a + 2);
        a := a + 1;
      }
      SeedMove(links, ni, no, nh, weights, 2, a, a + 1, 3, h0, ni);
    }

    /** The third wiring loop: each hidden neuron to each output. */
    method WireHiddenToOutputs(nh: nat, weights: nat -> real)
      requires SeedLinksSoFar(links, numInputs, numOutputs, nh, weights, 3, numInputs + numOutputs, numInputs)
      modifies this`links
      ensures SeedLinksSoFar(links, numInputs, numOutputs, nh, weights, 4, 0, 0)
    {
      var ni, no := numInputs, numOutputs;
      var h0, h1 := ni + no, ni + no + nh;
      var a := h0;
      while a < h1
        invariant h0 <= a <= h1
        invariant SeedLinksSoFar(links, ni, no, nh, weights, 3, a, ni)
      {
        var b := ni;
        while b < h0
          invariant ni <= b <= h0
          invariant SeedLinksSoFar(links, ni, no, nh, weights, 3, a, b)
        {
          SeedKeyNeverCycles(links, ni, no, nh, a, b);
          var cycle := WouldCreateCycle(a, b);
          if !cycle {
            SeedStep(links, ni, no, nh, weights, 3, a, b);
            AddLink(CreateLink(a, b, weights(|links|)));
          }
          b := b + 1;
        }
        SeedMove(links, ni, no, nh, weights, 3, a, h0, 3, a + 1, ni);
        a := a + 1;
      }
      SeedMove(links, ni, no, nh, weights, 3, h1, ni, 4, 0, 0);
    }
  }

  /** A genome whose neurons are 0 .. ni + no + nh - 1 and whose links are distinct seed keys is well formed. */
  lemma SeedLinksWellFormed(neurons: seq<NeuronGene>, links: seq<LinkGene>, ni: nat, no: nat, nh: nat)
    requires |neurons| == ni + no + nh && forall k :: 0 <= k < |neurons| ==> neurons[k].neuronId == k
    requires forall l :: l in links ==> IsSeedLink(ni, no, nh, l.linkId)
    requires UniqueLinkIds(links)
    ensures WellFormed(neurons, links)
  {
    forall x | 0 <= x < |neurons|
      ensures x in NeuronIds(neurons)
    {
      assert neurons[x] in neurons;
    }
    var rank := x => SeedRank(ni, no, nh, x);
    forall e | e in Edges(links)
      ensures rank(e.inputId) < rank(e.outputId)
    {
      SeedRankIncreases(ni, no, nh, e);
    }
    RankedAcyclic(Edges(links), rank);
  }
}