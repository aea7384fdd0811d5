/**
 * Gene records of a NEAT genome and the run-wide configuration constants
 * (neat.h, NeatConfig.h, Activation.h).
 */
module Genes {

  /** One draw of a uniform distribution over [0, 1), as RNG::next_double yields. */
  type Unit = r: real | 0.0 <= r < 1.0

  /** The activation kinds a neuron gene can name (Activation::Type). */
  datatype Activation = Sigmoid | Tanh

  /** Run-wide parameters; counts are never negative in this model. */
  datatype NeatConfig = NeatConfig(
    populationSize: nat,
    numInputs: nat,
    numOutputs: nat,
    probabilityAddLink: real,
    probabilityRemoveLink: real,
    probabilityAddNeuron: real,
    probabilityRemoveNeuron: real,
    probabilityMutateLinkWeight: real,
    probabilityMutateNeuronBias: real,
    survivalThreshold: real)

  /** The defaults NeatConfig is built with. */
  const DefaultConfig := NeatConfig(6, 3, 2, 0.05, 0.02, 0.01, 0.01, 0.8, 0.7, 0.3)

  /** One neuron: its id, bias and activation kind. */
  datatype NeuronGene = NeuronGene(neuronId: int, bias: real, activation: Activation)
  {
    /**
     * NeuronGene::is_hidden: whether the id passed in is past the input and
     * output ranges. The gene's own id plays no part.
     */
    predicate IsHidden(id: int, config: NeatConfig)
    {
      id >= config.numInputs + config.numOutputs
    }
  }

  /** A directed connection key: source neuron id to target neuron id. */
  datatype LinkId = LinkId(inputId: int, outputId: int)

  /** One connection with its weight and whether it is enabled. */
  datatype LinkGene = LinkGene(linkId: LinkId, weight: real, isEnabled: bool)

  /** LinkId::operator== compares both endpoints: it is value equality. */
  function LinkIdEquals(a: LinkId, b: LinkId): (r: bool)
    ensures r <==> a == b
  {
    a.inputId == b.inputId && a.outputId == b.outputId
  }

  /** LinkGene::operator== compares id, weight and flag: it is value equality. */
  function LinkGeneEquals(a: LinkGene, b: LinkGene): (r: bool)
    ensures r <==> a == b
  {
    LinkIdEquals(a.linkId, b.linkId) && a.weight == b.weight && a.isEnabled == b.isEnabled
  }

  /** LinkGene::has_neuron: the link starts or ends at the neuron's id. */
  function HasNeuron(link: LinkGene, neuron: NeuronGene): (r: bool)
    ensures r <==> neuron.neuronId in {link.linkId.inputId, link.linkId.outputId}
  {
    link.linkId.inputId == neuron.neuronId || link.linkId.outputId == neuron.neuronId
  }

  lemma IsHiddenIgnoresGene(a: NeuronGene, b: NeuronGene, id: int, config: NeatConfig)
    ensures a.IsHidden(id, config) == b.IsHidden(id, config)
    ensures a.IsHidden(id, DefaultConfig) <==> id >= 5
  {
  }

  /**
   * LinkIdHash: the two endpoint hashes combined with exclusive or. The
   * standard library's integer hash is implementation-defined, so it is a
   * parameter here.
   */
  function LinkIdHash(id: LinkId, intHash: int -> bv64): bv64
  {
    Xor(intHash(id.inputId), intHash(id.outputId))
  }

  /** The exclusive or of two 64-bit hash values. */
  function Xor(p: bv64, q: bv64): bv64
  {
    p ^ q
  }

  /**
   * Whatever the integer hash, the exclusive-or combination is blind to
   * direction, so a key and its reverse always share a bucket.
   */
  lemma LinkIdHashSymmetric(a: int, b: int, intHash: int -> bv64)
    ensures LinkIdHash(LinkId(a, b), intHash) == LinkIdHash(LinkId(b, a), intHash)
  {
    XorSymmetric(intHash(a), intHash(b));
  }

  /** Whatever the integer hash, every self-loop key hashes to zero. */
  lemma LinkIdHashSelfLoop(a: int, intHash: int -> bv64)
    ensures LinkIdHash(LinkId(a, a), intHash) == 0
  {
    XorSelf(intHash(a));
  }

  lemma XorSymmetric(p: bv64, q: bv64)
    ensures Xor(p, q) == Xor(q, p)
  {
  }

  lemma XorSelf(p: bv64)
    ensures Xor(p, p) == 0
  {
  }
}
