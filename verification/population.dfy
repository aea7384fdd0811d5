/**
 * Population.cpp: the generation of individuals, the genome-id counter,
 * truncation selection and the tracking of the best individual.
 *
 * The random number generator is replaced by draw parameters: the hidden
 * neuron count of each seed genome, the link weights of each seed genome,
 * and for each child the two parent picks and the coins of its crossover
 * and mutation.
 */
module Population {
  import opened Wrappers
  import opened Genes
  import opened Genomes
  import opened Neat
  import opened Mutator
  import opened Sorting

  /** RNG::next_int(1, 4): an inclusive draw between 1 and 4. */
  type HiddenCount = n: nat | 1 <= n <= 4 witness 1

  /** The two ways RNG::choose_random(vec, limit) throws. */
  datatype ChooseError =
    | EmptyOrInvalidLimit   // the vector is empty or the limit is not positive
    | LimitTooLarge         // the limit exceeds the vector's size

  /** The draws that produce one child in reproduce. */
  datatype ChildDraws = ChildDraws(
    firstParent: nat,
    secondParent: nat,
    crossover: CrossoverDraws,
    mutation: MutationDraws)

  /** std::ceil on reals: the least integer not below x. */
  function Ceil(x: real): (r: int)
    ensures x <= r as real < x + 1.0
  {
    -((-x).Floor)
  }

  /** The number of best-ranked members that may become parents: ⌈threshold × size⌉. */
  function ReproductionCutoff(threshold: real, size: nat): (r: int)
    ensures threshold * size as real <= r as real < threshold * size as real + 1.0
  {
    Ceil(threshold * size as real)
  }

  /** A threshold in (0, 1] on a non-empty population gives a usable cutoff. */
  lemma CutoffInRange(threshold: real, size: nat)
    requires 0.0 < threshold <= 1.0 && size > 0
    ensures 0 < ReproductionCutoff(threshold, size) <= size
  {
    var c := ReproductionCutoff(threshold, size);
    var n := size as real;
    ScaledSizeInRange(threshold, n);
    assert 0.0 < c as real < n + 1.0;
  }

  /** A fraction in (0, 1] of a positive size is positive and at most the size. */
  lemma ScaledSizeInRange(threshold: real, n: real)
    requires 0.0 < threshold <= 1.0 && n > 0.0
    ensures 0.0 < threshold * n <= n
  {
    assert n - threshold * n == (1.0 - threshold) * n;
  }

  /**
   * RNG::choose_random(vec, limit): one of the first `limit` elements, or
   * the exception it throws on an empty vector or a limit out of range.
   */
  function ChooseRandom<T>(s: seq<T>, limit: int, pick: nat): (r: Result<T, ChooseError>)
    ensures r.Success? <==> |s| > 0 && 0 < limit <= |s|
    ensures r.Success? ==> r.value in s[..limit]
    ensures r.Failure? ==> r.error == (if |s| == 0 || limit <= 0 then EmptyOrInvalidLimit else LimitTooLarge)
  {
    if |s| == 0 || limit <= 0 then
      Failure(EmptyOrInvalidLimit)
    else if limit > |s| then
      Failure(LimitTooLarge)
    else
      Success(s[pick % limit])
  }

  function FitnessKey(i: Individual): real
  {
    -i.fitness
  }

  /** sort_individuals_by_fitness: a copy in non-increasing fitness order. */
  function SortIndividualsByFitness(individuals: seq<Individual>): (r: seq<Individual>)
    ensures multiset(r) == multiset(individuals) && |r| == |individuals|
    ensures forall i, j :: 0 <= i < j < |r| ==> r[i].fitness >= r[j].fitness
  {
    var sorted := SortBy(individuals, FitnessKey);
    SortedLength(individuals, FitnessKey);
    assert forall i, j :: 0 <= i < j < |sorted| ==> FitnessKey(sorted[i]) <= FitnessKey(sorted[j]);
    sorted
  }

  /**
   * A member picked from the first `cutoff` sorted places is at least as fit
   * as every member ranked after the cutoff.
   */
  lemma {:induction false} ParentsOutrankTheRest(individuals: seq<Individual>, cutoff: nat, parent: Individual, other: Individual)
    requires cutoff <= |individuals|
    requires parent in SortIndividualsByFitness(individuals)[..cutoff]
    requires other in SortIndividualsByFitness(individuals)[cutoff..]
    ensures parent.fitness >= other.fitness
  {
    var sorted := SortIndividualsByFitness(individuals);
    var i :| 0 <= i < cutoff && sorted[..cutoff][i] == parent;
    var j :| 0 <= j < |sorted| - cutoff && sorted[cutoff..][j] == other;
    assert sorted[i] == parent && sorted[cutoff + j] == other;
  }

  /**
   * std::max_element with a fitness `<` comparison: the position of the
   * first member of greatest fitness.
   */
  function BestIndex(s: seq<Individual>): (r: nat)
    requires |s| > 0
    ensures r < |s|
    ensures forall i :: 0 <= i < |s| ==> s[i].fitness <= s[r].fitness
    ensures forall i :: 0 <= i < r ==> s[i].fitness < s[r].fitness
  {
    if |s| == 1 then
      0
    else
      var m := BestIndex(s[..|s| - 1]);
      assert forall i :: 0 <= i < |s| - 1 ==> s[..|s| - 1][i] == s[i];
      if s[m].fitness < s[|s| - 1].fitness then |s| - 1 else m
  }

  /** The head of the fitness-sorted copy is as fit as update_best's choice. */
  lemma {:induction false} SortedHeadIsBest(individuals: seq<Individual>)
    requires |individuals| > 0
    ensures SortIndividualsByFitness(individuals)[0].fitness == individuals[BestIndex(individuals)].fitness
  {
    var sorted := SortIndividualsByFitness(individuals);
    var b := BestIndex(individuals);
    assert individuals[b] in multiset(sorted) by {
      assert individuals[b] in multiset(individuals);
    }
    var j :| 0 <= j < |sorted| && sorted[j] == individuals[b];
    assert sorted[0].fitness >= sorted[j].fitness;
    assert sorted[0] in multiset(individuals) by {
      assert sorted[0] in multiset(sorted);
    }
    var i :| 0 <= i < |individuals| && individuals[i] == sorted[0];
    assert individuals[i].fitness <= individuals[b].fitness;
  }

  /** Every genome id held by a member is below the next one to be issued. */
  ghost predicate IdsBelow(individuals: seq<Individual>, next: int)
  {
    forall k :: 0 <= k < |individuals| ==> individuals[k].genome.genomeId < next
  }

  /**
   * child was bred from the pair ps, both drawn from the survivors, under
   * genome id: it takes the dominant parent's interface, is well formed and
   * has distinct neuron ids when that parent does, and has no fitness yet.
   */
  ghost predicate BredFrom(child: Individual, ps: (Individual, Individual), survivors: seq<Individual>, id: int)
  {
    ps.0 in survivors && ps.1 in survivors
    && child.genome.genomeId == id
    && child.genome.numInputs == ps.0.genome.numInputs
    && child.genome.numOutputs == ps.0.genome.numOutputs
    && (WellFormed(ps.0.genome.neurons, ps.0.genome.links) ==> WellFormed(child.genome.neurons, child.genome.links))
    && (UniqueNeuronIds(ps.0.genome.neurons) ==> UniqueNeuronIds(child.genome.neurons))
    && !child.fitnessComputed && child.fitness == 0.0
  }

  /**
   * The k-th seed member: genome id k, the configured interface, h hidden
   * neurons, well formed with distinct neuron ids, and no fitness yet.
   */
  ghost predicate SeedMember(ind: Individual, k: int, config: NeatConfig, h: nat)
  {
    var g := ind.genome;
    g.genomeId == k && g.numInputs == config.numInputs && g.numOutputs == config.numOutputs
    && |g.neurons| == config.numInputs + config.numOutputs + h
    && WellFormed(g.neurons, g.links) && UniqueNeuronIds(g.neurons)
    && !ind.fitnessComputed && ind.fitness == 0.0
  }

  /** One more seed member, appended, keeps every position a seed member. */
  lemma SeedMemberSnoc(members: seq<Individual>, ind: Individual, config: NeatConfig, hidden: nat -> HiddenCount)
    requires forall k :: 0 <= k < |members| ==> SeedMember(members[k], k, config, hidden(k))
    requires SeedMember(ind, |members|, config, hidden(|members|))
    ensures forall k :: 0 <= k < |members| + 1 ==> SeedMember((members + [ind])[k], k, config, hidden(k))
  {
    forall k | 0 <= k < |members| + 1
      ensures SeedMember((members + [ind])[k], k, config, hidden(k))
    {
      if k < |members| {
        assert (members + [ind])[k] == members[k];
      }
    }
  }

  /** One more bred child, appended with its parents, keeps every position bred. */
  lemma BredFromSnoc(generation: seq<Individual>, parents: seq<(Individual, Individual)>, child: Individual,
                     ps: (Individual, Individual), survivors: seq<Individual>, base: int)
    requires |generation| == |parents|
    requires forall k :: 0 <= k < |generation| ==> BredFrom(generation[k], parents[k], survivors, base + k)
    requires BredFrom(child, ps, survivors, base + |generation|)
    ensures forall k :: 0 <= k < |generation| + 1 ==>
      BredFrom((generation + [child])[k], (parents + [ps])[k], survivors, base + k)
  {
    forall k | 0 <= k < |generation| + 1
      ensures BredFrom((generation + [child])[k], (parents + [ps])[k], survivors, base + k)
    {
      if k < |generation| {
        assert (generation + [child])[k] == generation[k] && (parents + [ps])[k] == parents[k];
      }
    }
  }

  class Population {
    var config: NeatConfig
    var nextGenomeId: int
    var individuals: seq<Individual>
    var bestIndividual: Individual

    /** The ids issued so far are all below the counter. */
    ghost predicate Valid()
      reads this
    {
      IdsBelow(individuals, nextGenomeId)
    }

    /**
     * Population(config, rng): population_size seed genomes with genome ids
     * 0, 1, 2, …, each with `hidden(i)` hidden neurons and `weights(i)` as
     * its link weights.
     */
    constructor (config: NeatConfig, hidden: nat -> HiddenCount, weights: nat -> nat -> real)
      ensures this.config == config && bestIndividual == DefaultIndividual()
      ensures nextGenomeId == config.populationSize && |individuals| == config.populationSize
      ensures forall i :: 0 <= i < |individuals| ==>
        var g := individuals[i].genome;
        g.genomeId == i && g.numInputs == config.numInputs && g.numOutputs == config.numOutputs
        && config.numInputs + config.numOutputs + 1 <= |g.neurons| <= config.numInputs + config.numOutputs + 4
        && |g.neurons| == config.numInputs + config.numOutputs + hidden(i)
        && WellFormed(g.neurons, g.links) && UniqueNeuronIds(g.neurons)
        && !individuals[i].fitnessComputed && individuals[i].fitness == 0.0
      ensures Valid()
    {
      this.config := config;
      nextGenomeId := 0;
      individuals := [];
      bestIndividual := DefaultIndividual();
      new;
      var i := 0;
      while i < config.populationSize
        invariant 0 <= i <= config.populationSize
        invariant this.config == config && bestIndividual == DefaultIndividual()
        invariant nextGenomeId == i && |individuals| == i
        invariant forall k :: 0 <= k < i ==> SeedMember(individuals[k], k, config, hidden(k))
      {
        var id := GenerateNextGenomeId();
        var genome := Genome.CreateGenome(id, config.numInputs, config.numOutputs, hidden(i), weights(i));
        var member := IndividualOf(genome.Value());
        SeedMemberSnoc(individuals, member, config, hidden);
        individuals := individuals + [member];
        i := i + 1;
      }
    }

    /** generate_next_genome_id: hands out the counter, then advances it. */
    method GenerateNextGenomeId() returns (id: int)
      modifies this`nextGenomeId
      ensures id == old(nextGenomeId) && nextGenomeId == id + 1
      ensures old(Valid()) ==> Valid() && !exists k :: 0 <= k < |individuals| && individuals[k].genome.genomeId == id
    {
      id := nextGenomeId;
      nextGenomeId := nextGenomeId + 1;
    }

    /**
     * Population::mutate: the mutation engine with this population's
     * configuration; s1 to s4 are the engine's intermediate gene states.
     */
    method MutateGenome(genome: Genome, draws: MutationDraws)
      returns (ghost s1: GenomeState, ghost s2: GenomeState, ghost s3: GenomeState, ghost s4: GenomeState)
      modifies genome`neurons, genome`links
      ensures MutationSteps(GenomeState(old(genome.neurons), old(genome.links)), s1, s2, s3, s4,
                            GenomeState(genome.neurons, genome.links), config, draws)
      ensures WellFormed(old(genome.neurons), old(genome.links)) ==> WellFormed(genome.neurons, genome.links)
      ensures UniqueNeuronIds(old(genome.neurons)) ==> UniqueNeuronIds(genome.neurons)
    {
      s1, s2, s3, s4 := Mutator.Mutate(genome, config, draws);
    }

    /**
     * One child of reproduce: the crossover of the two parents under the
     * given id, mutated with this population's configuration, wrapped as an
     * individual whose fitness is not computed.
     */
    method BreedChild(p1: Individual, p2: Individual, id: int, d: ChildDraws) returns (child: Individual)
      ensures child.genome.genomeId == id
      ensures child.genome.numInputs == p1.genome.numInputs && child.genome.numOutputs == p1.genome.numOutputs
      ensures WellFormed(p1.genome.neurons, p1.genome.links) ==> WellFormed(child.genome.neurons, child.genome.links)
      ensures UniqueNeuronIds(p1.genome.neurons) ==> UniqueNeuronIds(child.genome.neurons)
      ensures !child.fitnessComputed && child.fitness == 0.0
    {
      var offspring := Crossover(IndividualOf(p1.genome), IndividualOf(p2.genome), id, d.crossover);
      CrossoverKeepsDominantStructure(p1.genome, p2.genome, id, d.crossover);
      ghost var s1, s2, s3, s4 := MutateGenome(offspring, d.mutation);
      child := IndividualOf(offspring.Value());
    }

    /**
     * reproduce: population_size children, each the mutated crossover of two
     * parents drawn from the best ⌈survival_threshold × n⌉ members. The
     * members themselves are not touched. The ghost `parents` records the
     * pair behind each child, dominant parent first.
     */
    method Reproduce(draws: nat -> ChildDraws) returns (r: Result<seq<Individual>, ChooseError>, ghost parents: seq<(Individual, Individual)>)
      modifies this`nextGenomeId
      ensures individuals == old(individuals)
      ensures var cutoff := ReproductionCutoff(config.survivalThreshold, |individuals|);
        r.Failure? <==> config.populationSize > 0 && !(0 < cutoff <= |individuals|)
      ensures r.Failure? ==> (nextGenomeId == old(nextGenomeId)
        && r.error == (if |individuals| == 0 || ReproductionCutoff(config.survivalThreshold, |individuals|) <= 0
                       then EmptyOrInvalidLimit else LimitTooLarge))
      ensures r.Success? ==> (|r.value| == config.populationSize && |parents| == |r.value|
        && nextGenomeId == old(nextGenomeId) + config.populationSize)
      ensures r.Success? ==>
        var cutoff := ReproductionCutoff(config.survivalThreshold, |individuals|);
        forall k :: 0 <= k < |r.value| ==>
          0 <= cutoff <= |individuals|
          && parents[k].0 in SortIndividualsByFitness(individuals)[..cutoff]
          && parents[k].1 in SortIndividualsByFitness(individuals)[..cutoff]
          && r.value[k].genome.genomeId == old(nextGenomeId) + k
          && r.value[k].genome.numInputs == parents[k].0.genome.numInputs
          && r.value[k].genome.numOutputs == parents[k].0.genome.numOutputs
          && (WellFormed(parents[k].0.genome.neurons, parents[k].0.genome.links)
              ==> WellFormed(r.value[k].genome.neurons, r.value[k].genome.links))
          && (UniqueNeuronIds(parents[k].0.genome.neurons) ==> UniqueNeuronIds(r.value[k].genome.neurons))
          && !r.value[k].fitnessComputed && r.value[k].fitness == 0.0
      ensures r.Success? && old(Valid()) ==> (Valid()
        && forall k, m :: 0 <= k < |r.value| && 0 <= m < |individuals| ==>
             r.value[k].genome.genomeId != individuals[m].genome.genomeId)
    {
      var oldMembers := SortIndividualsByFitness(individuals);
      var cutoff := ReproductionCutoff(config.survivalThreshold, |oldMembers|);
      var newGeneration: seq<Individual> := [];
      parents := [];
      while |newGeneration| < config.populationSize
        invariant |newGeneration| <= config.populationSize && |parents| == |newGeneration|
        invariant individuals == old(individuals)
        invariant nextGenomeId == old(nextGenomeId) + |newGeneration|
        invariant |newGeneration| > 0 ==> 0 < cutoff <= |individuals|
        invariant forall k :: 0 <= k < |newGeneration| ==>
          BredFrom(newGeneration[k], parents[k], oldMembers[..cutoff], old(nextGenomeId) + k)
        decreases config.populationSize - |newGeneration|
      {
        var d := draws(|newGeneration|);
        var first := ChooseRandom(oldMembers, cutoff, d.firstParent);
        if first.Failure? {
          return Failure(first.error), parents;
        }
        var second := ChooseRandom(oldMembers, cutoff, d.secondParent);
        var p1, p2 := first.value, second.value;
        var id := GenerateNextGenomeId();
        var child := BreedChild(p1, p2, id, d);
        assert BredFrom(child, (p1, p2), oldMembers[..cutoff], id);
        BredFromSnoc(newGeneration, parents, child, (p1, p2), oldMembers[..cutoff], old(nextGenomeId));
        newGeneration := newGeneration + [child];
        parents := parents + [(p1, p2)];
      }
      r := Success(newGeneration);
    }

    /** update_best: the first fittest member, when there is one. */
    method UpdateBest()
      modifies this`bestIndividual
      ensures |individuals| == 0 ==> bestIndividual == old(bestIndividual)
      ensures |individuals| > 0 ==> (bestIndividual in individuals
        && (forall i :: 0 <= i < |individuals| ==> individuals[i].fitness <= bestIndividual.fitness)
        && bestIndividual == individuals[BestIndex(individuals)])
    {
      if |individuals| > 0 {
        bestIndividual := individuals[BestIndex(individuals)];
      }
    }
  }
}
