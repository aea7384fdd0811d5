/**
 * Individuals, the value clamp and the recombination of two parent genomes
 * (neat.h, neat.cpp).
 */
module Neat {
  import opened Wrappers
  import opened Genes
  import opened Graphs
  import opened Genomes

  /** A genome with its fitness bookkeeping. */
  datatype Individual = Individual(genome: GenomeValue, fitnessComputed: bool, fitness: real)

  /** Individual(): the default genome, fitness not computed, fitness 0. */
  function DefaultIndividual(): (r: Individual)
    ensures r.genome == GenomeValue(0, 0, 0, [], []) && !r.fitnessComputed && r.fitness == 0.0
  {
    Individual(GenomeValue(0, 0, 0, [], []), false, 0.0)
  }

  /** Individual(genome): a copy of the genome, fitness not computed, fitness 0. */
  function IndividualOf(genome: GenomeValue): (r: Individual)
    ensures r.genome == genome && !r.fitnessComputed && r.fitness == 0.0
  {
    Individual(genome, false, 0.0)
  }

  /** Bounds and rates for real-valued gene attributes. */
  datatype DoubleConfig = DoubleConfig(
    initMean: real,
    initStdev: real,
    minValue: real,
    maxValue: real,
    mutationRate: real,
    mutatePower: real,
    replaceRate: real)

  const DefaultDoubleConfig := DoubleConfig(0.0, 1.0, -20.0, 20.0, 0.2, 1.2, 0.05)

  /** clamp: std::min(max_value, std::max(min_value, x)). */
  function Clamp(x: real): (r: real)
    ensures DefaultDoubleConfig.minValue <= r <= DefaultDoubleConfig.maxValue
    ensures DefaultDoubleConfig.minValue <= x <= DefaultDoubleConfig.maxValue ==> r == x
    ensures x < DefaultDoubleConfig.minValue ==> r == DefaultDoubleConfig.minValue
    ensures x > DefaultDoubleConfig.maxValue ==> r == DefaultDoubleConfig.maxValue
  {
    var low := if DefaultDoubleConfig.minValue < x then x else DefaultDoubleConfig.minValue;
    if DefaultDoubleConfig.maxValue < low then DefaultDoubleConfig.maxValue else low
  }

  lemma ClampIdempotent(x: real)
    ensures Clamp(Clamp(x)) == Clamp(x)
  {
  }

  /** RNG::choose(probability, a, b): a when the draw falls below the probability. */
  function Choose<T>(draw: Unit, probability: real, a: T, b: T): T
  {
    if draw < probability then a else b
  }

  /**
   * Neat::crossover_neuron: the id of a, bias and activation each taken from
   * one of the two genes by a fair coin.
   */
  function CrossoverNeuron(a: NeuronGene, b: NeuronGene, biasDraw: Unit, activationDraw: Unit): (r: NeuronGene)
    requires a.neuronId == b.neuronId
    ensures r.neuronId == a.neuronId
    ensures r.bias == (if biasDraw < 0.5 then a.bias else b.bias)
    ensures r.activation == (if activationDraw < 0.5 then a.activation else b.activation)
  {
    NeuronGene(a.neuronId, Choose(biasDraw, 0.5, a.bias, b.bias), Choose(activationDraw, 0.5, a.activation, b.activation))
  }

  /**
   * Neat::crossover_link: the key of a, weight and enabled flag each taken
   * from one of the two genes by a fair coin.
   */
  function CrossoverLink(a: LinkGene, b: LinkGene, weightDraw: Unit, enabledDraw: Unit): (r: LinkGene)
    requires a.linkId == b.linkId
    ensures r.linkId == a.linkId
    ensures r.weight == (if weightDraw < 0.5 then a.weight else b.weight)
    ensures r.isEnabled == (if enabledDraw < 0.5 then a.isEnabled else b.isEnabled)
  {
    LinkGene(a.linkId, Choose(weightDraw, 0.5, a.weight, b.weight), Choose(enabledDraw, 0.5, a.isEnabled, b.isEnabled))
  }

  /** Recombining a gene with itself gives it back, whatever the coins say. */
  lemma CrossoverOfEqualGenes(n: NeuronGene, l: LinkGene, d1: Unit, d2: Unit)
    ensures CrossoverNeuron(n, n, d1, d2) == n
    ensures CrossoverLink(l, l, d1, d2) == l
  {
  }

  /** The coins of one crossover, indexed by the position of the dominant gene. */
  datatype CrossoverDraws = CrossoverDraws(
    neuronBias: nat -> Unit,
    neuronActivation: nat -> Unit,
    linkWeight: nat -> Unit,
    linkEnabled: nat -> Unit)

  /** The child's k-th neuron: the dominant gene, recombined when the recessive parent has the id. */
  function InheritNeuron(dominant: seq<NeuronGene>, recessive: seq<NeuronGene>, k: nat, draws: CrossoverDraws): NeuronGene
    requires k < |dominant|
  {
    match FindNeuron(recessive, dominant[k].neuronId)
    case None => dominant[k]
    case Some(r) => CrossoverNeuron(dominant[k], r, draws.neuronBias(k), draws.neuronActivation(k))
  }

  /** The child's k-th link: the dominant gene, recombined when the recessive parent has the key. */
  function InheritLink(dominant: seq<LinkGene>, recessive: seq<LinkGene>, k: nat, draws: CrossoverDraws): LinkGene
    requires k < |dominant|
  {
    match FindLink(recessive, dominant[k].linkId)
    case None => dominant[k]
    case Some(r) => CrossoverLink(dominant[k], r, draws.linkWeight(k), draws.linkEnabled(k))
  }

  /** The genome Neat::crossover builds, as a value. */
  function CrossoverValue(dominant: GenomeValue, recessive: GenomeValue, childId: int, draws: CrossoverDraws): GenomeValue
  {
    GenomeValue(
      childId, dominant.numInputs, dominant.numOutputs,
      seq(|dominant.neurons|, k requires 0 <= k < |dominant.neurons| => InheritNeuron(dominant.neurons, recessive.neurons, k, draws)),
      seq(|dominant.links|, k requires 0 <= k < |dominant.links| => InheritLink(dominant.links, recessive.links, k, draws)))
  }

  /**
   * Neat::crossover: walks the dominant parent's neurons, then its links, and
   * appends each to a fresh genome, recombined with the recessive parent's
   * gene of the same id when there is one.
   */
  method Crossover(dominant: Individual, recessive: Individual, childId: int, draws: CrossoverDraws)
    returns (offspring: Genome)
    ensures fresh(offspring)
    ensures offspring.Value() == CrossoverValue(dominant.genome, recessive.genome, childId, draws)
  {
    ghost var child := CrossoverValue(dominant.genome, recessive.genome, childId, draws);
    offspring := new Genome(childId, dominant.genome.numInputs, dominant.genome.numOutputs);
    var dn := dominant.genome.neurons;
    var i := 0;
    while i < |dn|
      invariant 0 <= i <= |dn|
      invariant offspring.genomeId == childId && offspring.links == []
      invariant offspring.numInputs == dominant.genome.numInputs && offspring.numOutputs == dominant.genome.numOutputs
      invariant offspring.neurons == child.neurons[..i]
    {
      var recessiveNeuron := FindNeuron(recessive.genome.neurons, dn[i].neuronId);
      if recessiveNeuron.None? {
        offspring.AddNeuron(dn[i]);
      } else {
        offspring.AddNeuron(CrossoverNeuron(dn[i], recessiveNeuron.value, draws.neuronBias(i), draws.neuronActivation(i)));
      }
      assert child.neurons[..i + 1] == child.neurons[..i] + [child.neurons[i]];
      i := i + 1;
    }
    var dl := dominant.genome.links;
    i := 0;
    while i < |dl|
      invariant 0 <= i <= |dl|
      invariant offspring.genomeId == childId && offspring.neurons == child.neurons
      invariant offspring.numInputs == dominant.genome.numInputs && offspring.numOutputs == dominant.genome.numOutputs
      invariant offspring.links == child.links[..i]
    {
      var recessiveLink := FindLink(recessive.genome.links, dl[i].linkId);
      if recessiveLink.None? {
        offspring.AddLink(dl[i]);
      } else {
        offspring.AddLink(CrossoverLink(dl[i], recessiveLink.value, draws.linkWeight(i), draws.linkEnabled(i)));
      }
      assert child.links[..i + 1] == child.links[..i] + [child.links[i]];
      i := i + 1;
    }
  }

  /**
   * The child has the dominant parent's structure: the same neuron ids and
   * link keys in the same order, so genes found only in the recessive parent
   * never appear, and a well-formed dominant parent with distinct neuron ids
   * gives a well-formed child with distinct neuron ids.
   */
  lemma CrossoverKeepsDominantStructure(dominant: GenomeValue, recessive: GenomeValue, childId: int, draws: CrossoverDraws)
    ensures var child := CrossoverValue(dominant, recessive, childId, draws);
      |child.neurons| == |dominant.neurons| && |child.links| == |dominant.links|
      && (forall k :: 0 <= k < |child.neurons| ==> child.neurons[k].neuronId == dominant.neurons[k].neuronId)
      && (forall k :: 0 <= k < |child.links| ==> child.links[k].linkId == dominant.links[k].linkId)
      && NeuronIds(child.neurons) == NeuronIds(dominant.neurons)
      && Edges(child.links) == Edges(dominant.links)
      && (WellFormed(dominant.neurons, dominant.links) ==> WellFormed(child.neurons, child.links))
      && (UniqueNeuronIds(dominant.neurons) ==> UniqueNeuronIds(child.neurons))
  {
    var child := CrossoverValue(dominant, recessive, childId, draws);
    forall k | 0 <= k < |child.neurons|
      ensures child.neurons[k].neuronId == dominant.neurons[k].neuronId
    {
      assert child.neurons[k] == InheritNeuron(dominant.neurons, recessive.neurons, k, draws);
    }
    forall k | 0 <= k < |child.links|
      ensures child.links[k].linkId == dominant.links[k].linkId
    {
      assert child.links[k] == InheritLink(dominant.links, recessive.links, k, draws);
    }
    assert NeuronIds(child.neurons) == NeuronIds(dominant.neurons) by {
      forall x | x in NeuronIds(child.neurons) ensures x in NeuronIds(dominant.neurons) {
        var n :| n in child.neurons && n.neuronId == x;
        var k :| 0 <= k < |child.neurons| && child.neurons[k] == n;
        assert dominant.neurons[k] in dominant.neurons;
      }
      forall x | x in NeuronIds(dominant.neurons) ensures x in NeuronIds(child.neurons) {
        var n :| n in dominant.neurons && n.neuronId == x;
        var k :| 0 <= k < |dominant.neurons| && dominant.neurons[k] == n;
        assert child.neurons[k] in child.neurons;
      }
    }
    assert Edges(child.links) == Edges(dominant.links) by {
      forall x | x in Edges(child.links) ensures x in Edges(dominant.links) {
        var l :| l in child.links && l.linkId == x;
        var k :| 0 <= k < |child.links| && child.links[k] == l;
        assert dominant.links[k] in dominant.links;
      }
      forall x | x in Edges(dominant.links) ensures x in Edges(child.links) {
        var l :| l in dominant.links && l.linkId == x;
        var k :| 0 <= k < |dominant.links| && dominant.links[k] == l;
        assert child.links[k] in child.links;
      }
    }
    if WellFormed(dominant.neurons, dominant.links) {
      forall l | l in child.links
        ensures l.linkId.inputId in NeuronIds(child.neurons) && l.linkId.outputId in NeuronIds(child.neurons)
      {
        var k :| 0 <= k < |child.links| && child.links[k] == l;
        assert dominant.links[k] in dominant.links;
      }
    }
  }

  /**
   * Crossing a genome with itself reproduces its genes when its ids are
   * unique (the lookups return the first match, so duplicates could pick up
   * another gene's values).
   */
  lemma SelfCrossoverIsIdentity(g: GenomeValue, childId: int, draws: CrossoverDraws)
    requires UniqueNeuronIds(g.neurons) && UniqueLinkIds(g.links)
    ensures CrossoverValue(g, g, childId, draws) == GenomeValue(childId, g.numInputs, g.numOutputs, g.neurons, g.links)
  {
    SelfCrossoverNeurons(g, childId, draws);
    SelfCrossoverLinks(g, childId, draws);
  }

  lemma SelfCrossoverNeurons(g: GenomeValue, childId: int, draws: CrossoverDraws)
    requires UniqueNeuronIds(g.neurons)
    ensures CrossoverValue(g, g, childId, draws).neurons == g.neurons
  {
    var child := CrossoverValue(g, g, childId, draws);
    forall k | 0 <= k < |g.neurons|
      ensures child.neurons[k] == g.neurons[k]
    {
      var found := FindNeuron(g.neurons, g.neurons[k].neuronId);
      var j :| 0 <= j < |g.neurons| && g.neurons[j] == found.value && found.value.neuronId == g.neurons[k].neuronId
                && forall i :: 0 <= i < j ==> g.neurons[i].neuronId != g.neurons[k].neuronId;
      assert j == k;
      CrossoverOfEqualGenes(g.neurons[k], LinkGene(LinkId(0, 0), 0.0, true), draws.neuronBias(k), draws.neuronActivation(k));
    }
  }

  lemma SelfCrossoverLinks(g: GenomeValue, childId: int, draws: CrossoverDraws)
    requires UniqueLinkIds(g.links)
    ensures CrossoverValue(g, g, childId, draws).links == g.links
  {
    var child := CrossoverValue(g, g, childId, draws);
    forall k | 0 <= k < |g.links|
      ensures child.links[k] == g.links[k]
    {
      assert g.links[k] in g.links;
      var found := FindLink(g.links, g.links[k].linkId);
      var j :| 0 <= j < |g.links| && g.links[j] == found.value && found.value.linkId == g.links[k].linkId
                && forall i :: 0 <= i < j ==> g.links[i].linkId != g.links[k].linkId;
      assert j == k;
      CrossoverOfEqualGenes(NeuronGene(0, 0.0, Sigmoid), g.links[k], draws.linkWeight(k), draws.linkEnabled(k));
    }
  }
}
