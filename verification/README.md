# NEAT genome engine in Dafny

This project models the core of a small C++ implementation of NEAT, the
NeuroEvolution of Augmenting Topologies method, and proves properties of
that model. The core has five parts:

- **Gene records.** Neuron genes, link ids and link genes, the configuration
  defaults and the `Individual` record.
- **The `Genome` container.** It is a class whose neuron and link lists are
  updated in place. It has append, lookup, next-id allocation, the
  depth-first cycle check and the seeded `create_genome`.
- **The mutation engine.** It offers add-link, remove-link, add-neuron,
  remove-neuron and weight/bias perturbation, all working in place on a genome.
- **Gene-wise crossover.** It is rooted in the dominant parent, and values are
  clamped into [-20, 20].
- **The network compiler.**
  - It discovers layers by frontier expansion.
  - It relaxes longest-path levels to a fixpoint and sorts by level.
  - It compiles into `Neuron` records.
  - It runs the forward pass `activate`.
  - The duplicate `LayerManager` does the same layering.

It also models the population bookkeeping: the genome-id counter, sorting by
fitness, truncation selection with the child-production loop, tracking of the
best individual, and the stand-alone `GenomeIndexer` counter.

Randomness is replaced by explicit draw parameters:
- an index draw is any natural number, reduced modulo the pool size;
- a uniform draw is a real in [0, 1);
- a Gaussian draw is a plain real.

Doubles are `real`. The activation numerics are a parameter `act` over a
closed tag. The assertions of the source become `Failure` results.

Files, one module each:
- `wrappers.dfy`: `Option`, `Result`.
- `genes.dfy`: neat.h records, `NeatConfig` defaults.
- `graphs.dfy`: walks, reachability and acyclicity over link keys.
- `sorting.dfy`: `std::sort` as a permutation in key order.
- `genome.dfy`: Genome.cpp.
- `neat.dfy`: neat.cpp and `Individual`.
- `mutator.dfy`: Mutator.cpp.
- `layering.dfy`: the layering half of NeuralNetwork.cpp.
- `layer_manager.dfy`: LayerManager.cpp.
- `network.dfy`: compilation and the forward pass of NeuralNetwork.cpp.
- `population.dfy`: Population.cpp.
- `genome_indexer.dfy`: GenomeIndexer.cpp.

Where the prose documentation and the code disagree, the model follows the code:
- `generate_next_neuron_id` returns 1, not 0, on an empty genome.
- The weight mutation does not skip disabled links.
- The compiler and the layering use every link, enabled or not.

## Model

| member | source | states |
|---|---|---|
| Genes.LinkIdEquals | neat.h:36-39 | `LinkId::operator==` holds exactly when the two keys are the same value |
| Genes.LinkGeneEquals | neat.h:59-62 | `LinkGene::operator==` holds exactly when key, weight and enabled flag all agree |
| Genes.HasNeuron | neat.h:64-67 | true exactly when the neuron's id is the link's source or target |
| Genes.IsHiddenIgnoresGene | neat.h:23-26 | `is_hidden` depends only on the id argument and the configuration, never on the gene; with the defaults it means id >= 5 |
| Genes.LinkIdHashSymmetric | neat.h:43-49 | whatever the integer hash, a link key and its reversed key hash to the same value |
| Genes.LinkIdHashSelfLoop | neat.h:43-49 | whatever the integer hash, every self-loop key hashes to 0 |
| Graphs.EnabledSubsetOfAll | Genome.cpp:21-25 | the enabled keys are a subset of all keys, and when all keys are acyclic the enabled keys are acyclic too |
| Graphs.AddEdgeKeepsAcyclic | Mutator.cpp:50-57 | adding a->b to an acyclic graph keeps it acyclic when a != b and a is unreachable from b |
| Graphs.SplitKeepsAcyclic | Mutator.cpp:119-136 | replacing a->b by a->n->b through a fresh node n keeps an acyclic graph acyclic |
| Graphs.AcyclicSimpleFrom | NeuralNetwork.cpp:175-195 | in an acyclic link graph every walk from the seeds is simple, which is what the relaxation needs to stop |
| Genomes.FindNeuron | Genome.cpp:168-175 | None exactly when no gene has the id; otherwise the first gene carrying the id |
| Genomes.FindLink | Genome.cpp:178-185 | None exactly when the key is absent; otherwise the first gene whose endpoints both match |
| Genomes.MakeInputIds | Genome.cpp:188-194 | the ids 0 .. ni-1 in increasing order |
| Genomes.MakeOutputIds | Genome.cpp:197-203 | the ids ni .. ni+no-1 in increasing order |
| Genomes.InputOutputIdsPartition | Genome.cpp:188-203 | input and output ids are disjoint and together are 0 .. ni+no-1 |
| Genomes.Genome.Default | Genome.cpp:9 | id 0, no inputs or outputs, empty gene lists |
| Genomes.Genome.constructor | Genome.cpp:11-12 | stores id and counts, with empty gene lists |
| Genomes.Genome.AddNeuron | Genome.cpp:159-161 | appends exactly one neuron; the links are untouched |
| Genomes.Genome.AddLink | Genome.cpp:163-165 | appends exactly one link, unchecked; the neurons are untouched |
| Genomes.Genome.GenerateNextNeuronId | Genome.cpp:148-156 | exceeds every neuron id, is at least 1, and is 1 or one past an existing id |
| Genomes.Dfs | Genome.cpp:28-37 | a true answer means the target is reachable; a false answer means the newly visited nodes are closed under successors |
| Genomes.Genome.WouldCreateCycle | Genome.cpp:16-40 | true exactly when input_id is reachable from output_id along enabled links, including when the two are equal |
| Genomes.Genome.CreateGenome | Genome.cpp:43-105 | neurons 0..ni+no+nh-1 with zero bias and Sigmoid; every input->hidden, hidden->higher-hidden and hidden->output key exactly once, enabled, with its drawn weight; the result is well formed (endpoints exist, keys unique, acyclic) and its enabled keys are acyclic as well; no two neurons share an id |
| Genomes.Genome.WireInputsToHidden | Genome.cpp:64-70 | after the first wiring loop the links are exactly the input->hidden keys, in loop order |
| Genomes.Genome.WireHiddenToHidden | Genome.cpp:73-79 | the second loop adds exactly the hidden->higher-hidden keys |
| Genomes.Genome.WireHiddenToOutputs | Genome.cpp:82-88 | the third loop adds exactly the hidden->output keys |
| Genomes.SeedKeyNeverCycles | Genome.cpp:63-88 | the cycle check never rejects a seed key, because seed keys strictly raise a rank |
| Genomes.SeedLinksWellFormed | Genome.cpp:47-88 | neurons 0..n-1 with distinct seed keys form a well-formed genome |
| Neat.DefaultIndividual | neat.h:77-78 | empty default genome, fitness not computed, fitness 0 |
| Neat.IndividualOf | neat.h:80-81 | a copy of the genome, fitness not computed, fitness 0 |
| Neat.Clamp | neat.cpp:67-70 | the result lies in [-20, 20], is x inside the range and the nearer bound outside it |
| Neat.ClampIdempotent | neat.cpp:67-70 | clamping twice equals clamping once |
| Neat.CrossoverNeuron | neat.cpp:15-25 | requires equal ids; keeps a's id, takes bias and activation each from a or b by its coin |
| Neat.CrossoverLink | neat.cpp:28-39 | requires equal keys; keeps a's key, takes weight and flag each from a or b by its coin |
| Neat.CrossoverOfEqualGenes | neat.cpp:15-39 | recombining a gene with itself returns it whatever the coins |
| Neat.Crossover | neat.cpp:41-65 | the offspring is fresh and equals the gene-wise recombination rooted in the dominant parent, with the child id and the dominant's counts |
| Neat.CrossoverKeepsDominantStructure | neat.cpp:44-62 | the child has the dominant's neuron ids and link keys in the same order, so genes only in the recessive parent never appear; a well-formed dominant gives a well-formed child, and a dominant with distinct neuron ids a child with distinct neuron ids |
| Neat.SelfCrossoverIsIdentity | neat.cpp:41-65 | crossover of a genome with itself gives its own neuron and link lists |
| Mutator.HiddenIndices | Mutator.cpp:234-242 | the positions of the hidden neurons (id >= 5), as many as `count_if` counts |
| Mutator.PoolMembers | Mutator.cpp:198-232 | the source pool holds exactly the genome's ids < 3 or >= 5; the target pool holds exactly its ids in [3, 5), outputs only |
| Mutator.HiddenIndicesMembers | Mutator.cpp:234-242 | a position is listed exactly when it holds a hidden neuron |
| Mutator.ChooseRandomInputOrHiddenNeuron | Mutator.cpp:198-215 | the pool element at the draw modulo the pool size, or -1 for an empty pool |
| Mutator.ChooseRandomOutputOrHiddenNeuron | Mutator.cpp:217-232 | the same over output ids only, or -1 |
| Mutator.ChooseRandomHidden | Mutator.cpp:234-250 | the drawn hidden position, or None where the source throws |
| Mutator.CycleDfs | Mutator.cpp:257-274 | a false answer means the newly visited nodes are closed under successors and never link into the target |
| Mutator.WouldCreateCycle | Mutator.cpp:254-277 | a false answer means input_id is unreachable from output_id in one step or more, over all links |
| Mutator.FilterLinksMembers | Mutator.cpp:122-125 | the erase-remove passes keep exactly the links the predicate keeps, in order |
| Mutator.FilterLinksUnique | Mutator.cpp:153-157 | filtering keeps keys unique and only drops keys |
| Mutator.FilterKeepsWellFormed | Mutator.cpp:109 | dropping links keeps a genome well formed |
| Mutator.AddLinkKeepsWellFormed | Mutator.cpp:40-57 | appending a new candidate key that the cycle check lets through keeps the genome well formed |
| Mutator.MutateAddLink | Mutator.cpp:32-58 | the genome is unchanged when a pool is empty or the key exists (the re-enable touches a copy); otherwise it is unchanged or gains exactly that enabled key with no cycle; well-formedness is preserved |
| Mutator.InsertLinksFrom | Mutator.cpp:72-76 | the result is the given set plus exactly the keys leaving the given id |
| Mutator.InsertLinksInto | Mutator.cpp:83-87 | the result is the given set plus exactly the keys entering the given id |
| Mutator.InsertLinksBetweenNonInputs | Mutator.cpp:91-95 | the result is the given set plus exactly the keys whose two ids are both non-inputs |
| Mutator.EssentialLinks | Mutator.cpp:68-95 | exactly the keys leaving a present input id, entering a present output id, or joining two ids >= 3 |
| Mutator.RemovableLinks | Mutator.cpp:97-102 | given exactly the present essential keys, returns the links whose key is not essential, in their original order |
| Mutator.MutateRemoveLink | Mutator.cpp:60-110 | with no removable link nothing changes; otherwise every gene equal to the drawn removable link is erased; essential links survive, no link is added, well-formedness is kept |
| Mutator.AddNeuronKeepsWellFormed | Mutator.cpp:119-136 | splitting a link through a neuron with a fresh, larger id keeps the genome well formed |
| Mutator.AppendFreshKeepsUniqueIds | Mutator.cpp:128-130 | appending a neuron whose id exceeds every existing id keeps the neuron ids distinct |
| Mutator.AddNeuronStepKeepsUniqueIds | Mutator.cpp:112-137 | the genes after an add-neuron step have distinct neuron ids whenever those before it do |
| Mutator.MutateAddNeuron | Mutator.cpp:112-137 | no-op without links; otherwise drops the drawn key, appends one Sigmoid neuron whose id is one past the largest existing id (1 when no id is positive), then the links src->new (1.0) and new->dst (old weight), both enabled; well-formedness and distinct neuron ids are kept |
| Mutator.CountHiddenConcat | Mutator.cpp:140-144 | the hidden count of a concatenation is the sum of the counts |
| Mutator.EraseHiddenCount | Mutator.cpp:159 | erasing one hidden neuron lowers the hidden count by exactly one |
| Mutator.RemoveNeuronKeepsWellFormed | Mutator.cpp:153-159 | removing a neuron with every link touching it keeps the genome well formed |
| Mutator.EraseKeepsUniqueIds | Mutator.cpp:159 | erasing one neuron keeps the remaining neuron ids distinct |
| Mutator.RemoveHiddenNeuron | Mutator.cpp:153-159 | erasing a hidden neuron with every link touching it lowers the hidden count by one and keeps both well-formedness and distinct neuron ids |
| Mutator.RemoveNeuronStepKeepsUniqueIds | Mutator.cpp:139-160 | the genes after a remove-neuron step have distinct neuron ids whenever those before it do |
| Mutator.MutateRemoveNeuron | Mutator.cpp:139-160 | no-op with fewer than two hidden neurons; otherwise exactly the drawn hidden neuron is erased, with every link touching it, the rest kept in order, and the hidden count drops by one; well-formedness and distinct neuron ids are kept |
| Mutator.MutateDelta | Mutator.cpp:285-290 | the result lies in [-20, 20] and is value + clamped step whenever that sum is in range |
| Mutator.MutateDeltaZero | Mutator.cpp:285-290 | a zero step leaves an in-range value unchanged |
| Mutator.SameKeysSameShape | Mutator.cpp:162-177 | lists with equal keys position by position have the same key set and the same well-formedness |
| Mutator.ReweightKeepsShape | Mutator.cpp:175 | changing one weight keeps the keys and well-formedness |
| Mutator.MutateLinkWeight | Mutator.cpp:162-177 | nothing changes without links or when the roll misses; otherwise only the drawn link's weight is replaced by its delta |
| Mutator.MutateNeuronBias | Mutator.cpp:179-194 | nothing changes without neurons or when the roll misses; otherwise only the drawn neuron's bias is replaced by its delta; the set of ids is unchanged and distinct ids stay distinct |
| Mutator.MutationStepsKeepUniqueIds | Mutator.cpp:10-30 | across the five steps of one mutate call, neuron ids that start distinct end distinct |
| Mutator.Mutate | Mutator.cpp:10-30 | the genes pass through five steps, one per operator in source order: a structural operator whose roll misses leaves them as they were, one whose roll hits relates them as that operator's own contract says, and the coin picks the weight or the bias perturbation; a well-formed genome stays well formed and distinct neuron ids stay distinct; with every structural roll missing, ids and keys are unchanged, and with the perturbation roll missing too, the genome is unchanged |
| Layering.LevelsRiseAlongLinks | NeuralNetwork.cpp:175-195 | at the fixpoint, a link out of a levelled id leads to a levelled id at least one level higher |
| Layering.LevelsAreNonNegative | NeuralNetwork.cpp:171-173 | every level is non-negative and every seed is levelled |
| Layering.LongestPathLevelsUnique | NeuralNetwork.cpp:175-195 | the fixpoint is unique: two longest-path assignments for the same seeds and links are equal |
| Layering.RelaxedIsLongest | NeuralNetwork.cpp:175-195 | a relaxed assignment covering the seeds whose every level is witnessed by a walk is the longest-path assignment |
| Layering.RelaxLink | NeuralNetwork.cpp:180-192 | raising one target keeps the level invariant and strictly lowers the bounded measure; when nothing is raised, the link can no longer raise its target |
| Layering.RelaxPass | NeuralNetwork.cpp:179-194 | one pass over the links keeps the level invariant; a pass that changes something strictly lowers a bounded measure, and a pass that changes nothing leaves the levels relaxed |
| Layering.RelaxLevels | NeuralNetwork.cpp:167-195 | the relaxation terminates when walks from the seeds are simple, and leaves each reachable id at its longest-path level from the seeds, each listed once |
| Layering.SortedByLevel | NeuralNetwork.cpp:204-205 | a key-sorted list of the levelled ids is in non-decreasing level order |
| Layering.LevelOrderListsReachable | NeuralNetwork.cpp:197-207 | a level-ordered list of the levelled ids holds exactly the ids reachable from the layer |
| Layering.LevelOrderIsTopological | NeuralNetwork.cpp:197-207 | in a level-ordered list, the source of every link between two listed ids comes before its target |
| Layering.SortNeuronsByLayer | NeuralNetwork.cpp:162-208 | returns exactly the ids reachable from the layer, not just its members, once each, in non-decreasing level order, with every link's source before its target |
| Layering.DiscoveryPass | NeuralNetwork.cpp:234-245 | each id the pass adds is new, not an output, and linked from a known id; every link out of an id known before the pass ends at an id known after it or at an output, so no such target is missed; it reports progress exactly when the layer is non-empty, and without progress the known ids are closed under links except into outputs |
| Layering.IdentifyNeuronLayers | NeuralNetwork.cpp:210-257 | inputs first, outputs last, non-empty middle layers; middle ids are distinct, neither inputs nor outputs, reachable from the inputs, each the target of a link from an earlier known id; the loop terminates |
| Layering.LayerWalksSimple | NeuralNetwork.cpp:70-72 | every identified layer inherits simple walks from the inputs and outputs |
| Layering.FeedForwardLayer | NeuralNetwork.cpp:61-84 | as many sorted layers as identified layers, each the level-ordered list of the ids reachable from that layer, with every link's source before its target |
| LayerManager.OrganizeLayers | LayerManager.cpp:5-39 | the same layering guarantees as identify_neuron_layers |
| LayerManager.SortedSeedsByLevel | LayerManager.cpp:70-72 | sorting the layer by level puts it in non-decreasing level order |
| LayerManager.SortByLayer | LayerManager.cpp:41-75 | returns a permutation of the layer argument, in non-decreasing longest-path level order |
| Network.ConvertActivation | NeuralNetwork.cpp:97-106 | Sigmoid maps to the sigmoid tag and Tanh to the tanh tag; ReLU is never produced |
| Network.IncomingInputs | NeuralNetwork.cpp:134-141 | exactly one weighted source per link whose target is the id, enabled or not |
| Network.IncomingIgnoresEnabled | NeuralNetwork.cpp:137-141 | link lists that differ only in enabled flags give the same inputs |
| Network.CollectIncoming | NeuralNetwork.cpp:134-141 | the loop computes exactly those incoming inputs |
| Network.FindNeuronIds | NeuralNetwork.cpp:144-148 | the lookup succeeds exactly for ids of the genome |
| Network.CompileNeuronsSpec | NeuralNetwork.cpp:131-155 | compilation succeeds exactly when every listed id is a neuron gene; then one neuron per listed id, in order, with the gene's activation, bias and incoming links; otherwise the failure names the first missing id |
| Network.CompileLayer | NeuralNetwork.cpp:133-154 | the inner loop extends the compiled list by one layer's neurons |
| Network.CompileLayers | NeuralNetwork.cpp:131-155 | the nested loops compile the flattened layers, skipping the given ids |
| Network.WeightedSumDefined | NeuralNetwork.cpp:30-41 | the weighted sum is defined exactly when every source already has a value |
| Network.WeightedSumAgree | NeuralNetwork.cpp:30-41 | value maps that agree on the sources give the same sum |
| Network.RunNeuronsSpec | NeuralNetwork.cpp:25-47 | the pass succeeds exactly when every read id was supplied or written earlier; then the keys are the supplied and written ids, and ids never written keep their values |
| Network.AssignInputsSpec | NeuralNetwork.cpp:14-17 | every input id gets a value, from its last position in the list |
| Network.ZeroOutputsSpec | NeuralNetwork.cpp:20-22 | every output id is set to 0 and every other id is untouched |
| Network.InitialValuesSpec | NeuralNetwork.cpp:11-22 | before the pass the keys are the input and output ids, and outputs hold 0 |
| Network.FinalValuesHoldOutputs | NeuralNetwork.cpp:49-55 | after a successful pass every output id has a value |
| Network.ActivateSucceedsIff | NeuralNetwork.cpp:6-56 | succeeds exactly when the input count matches and every read is defined; returns one value per output id, in order; a size mismatch is the first error |
| Network.SetInitialValues | NeuralNetwork.cpp:11-22 | the two loops build the table of supplied inputs with every output preset to 0 |
| Network.FireNeuron | NeuralNetwork.cpp:26-46 | the loop computes exactly one neuron's weighted sum, bias and activation, failing on the first undefined read |
| Network.RunAll | NeuralNetwork.cpp:25-47 | the loop fires the neurons in order and computes exactly the final value table, or the first failure |
| Network.CollectOutputs | NeuralNetwork.cpp:50-54 | one value per output id, in order, each read from the table |
| Network.Activate | NeuralNetwork.cpp:6-56 | the loops compute exactly the forward pass, including its errors |
| Network.InputsPrecedeReaders | NeuralNetwork.cpp:127-133 | in the layered order, an input linked into a neuron is listed before that neuron |
| Network.CompiledInputsComputedBeforeRead | NeuralNetwork.cpp:131-155 | the compiled network rewrites every input id before any neuron reads it |
| Network.CreateFromGenome | NeuralNetwork.cpp:110-160 | the network built from the genome's input and output ids and the compiled layered order; when it succeeds, every input id is recomputed before it is read |
| Network.RunAgreesOutsideTaint | NeuralNetwork.cpp:25-47 | two runs whose starting values differ only on ids rewritten before being read end with equal values elsewhere |
| Network.OutputsIgnoreInputs | NeuralNetwork.cpp:14-47 | for a network built as written, activate gives the same result for any two input vectors of the right size |
| Network.CreateFromGenomeCorrected | NeuralNetwork.cpp:110-160 | the same construction with input ids left out of the compiled neurons, so no neuron writes an input id |
| Network.SuppliedInputsReachNeurons | NeuralNetwork.cpp:14-47 | in a corrected network every prefix of the pass still holds the supplied value at each input id |
| Population.Ceil | Population.cpp:32 | the least integer not below x |
| Population.ReproductionCutoff | Population.cpp:32 | the cutoff is the ceiling of threshold times the population size |
| Population.CutoffInRange | Population.cpp:31-37 | a threshold in (0, 1] on a non-empty population gives a cutoff between 1 and the size, so parent selection cannot throw |
| Population.ChooseRandom | rng.h:64-73 | succeeds exactly when the vector is non-empty and 0 < limit <= size, picking among the first `limit` elements; otherwise the matching exception |
| Population.SortIndividualsByFitness | Population.cpp:48-55 | a permutation of the argument in non-increasing fitness order |
| Population.ParentsOutrankTheRest | Population.cpp:31-37 | any member within the cutoff is at least as fit as every member after it |
| Population.BestIndex | Population.cpp:58-61 | the position of the first member of greatest fitness |
| Population.SortedHeadIsBest | Population.cpp:48-65 | the head of the sorted copy is as fit as update_best's choice |
| Population.Population.constructor | Population.cpp:9-16 | population_size individuals with genome ids 0, 1, ... in order, each with 1-4 hidden neurons, well formed, with distinct neuron ids, fitness 0 and not computed; the counter equals the size |
| Population.Population.GenerateNextGenomeId | Population.cpp:22-24 | returns the counter and then advances it by one, so the id is held by no member |
| Population.Population.MutateGenome | Population.cpp:26-28 | the genes change exactly as Mutator.Mutate's five steps allow under the population's own configuration; well-formedness and distinct neuron ids are kept |
| Population.Population.BreedChild | Population.cpp:39-42 | the child carries the given id and the first parent's input and output counts, is well formed and has distinct neuron ids when that parent does, and has its fitness not computed and 0 |
| Population.Population.Reproduce | Population.cpp:30-46 | fails exactly when children are due and the cutoff is outside 1..n; otherwise returns population_size children with consecutive fresh ids, fitness not computed, parents drawn from the best cutoff sorted members, each child well formed and with distinct neuron ids when its first parent is; the members are untouched |
| Population.Population.UpdateBest | Population.cpp:57-65 | on a non-empty population the best becomes the first member of greatest fitness; otherwise it is unchanged |
| GenomeIndexing.GenomeIndexer.constructor | GenomeIndexer.cpp:6 | a new indexer starts at 0 with nothing issued |
| GenomeIndexing.GenomeIndexer.Next | GenomeIndexer.cpp:15-17 | returns the counter's old value and advances it by one; the issued values are 0, 1, 2, ..., never repeating |

## Left out

- The random number generator (`std::mt19937`, `random_device`, `std::rand`, the distributions). Every draw is a parameter.
- The fresh value draws (`new_value`, the Gaussian step in `mutate_delta`, the neuron and link mutator headers). The drawn value is passed in: a weight or bias in [-1, 1], and a Gaussian step as any real.
- The activation numerics (`exp`, `tanh`). These are floating point, and the pass takes an uninterpreted `act` over the activation tag.
- IEEE double behaviour: weights, biases, fitness and the cutoff product are reals. NaN fitness and rounding are not modelled.
- 32-bit `int` overflow of ids and counters is not modelled; integers are unbounded.
- All `std::cout`/`std::cerr` tracing.
- `std::hash<int>` inside `LinkIdHash` is implementation-defined, so the integer hash is a parameter. Only the exclusive-or combination around it is modelled.
- Utils.cpp, ComputeFitness.cpp, the driver programs and the plotting script are not part of this model: they are I/O, a random fitness, or glue.
- `assert` failures become `Failure` results. The behaviour with assertions compiled out (`NDEBUG`), where the source reads a missing map entry as 0, is not modelled.
- Mutator.MutateAddLink: for any new candidate key the contract allows the links to stay unchanged. When the link is appended, its target does not reach its source. The exact answer of the free `would_create_cycle` is not characterised.
- Population.Population.BreedChild: states the child's id, counts, well-formedness and fitness reset, not that its genes are the crossover mutated by Mutator.Mutate's steps. MutateGenome states that relation for the genome it mutates.
- Configuration counts (`population_size`, `num_inputs`, `num_outputs`) are `int` in the source and natural numbers here. A negative count, compared with a vector size in `reproduce`, is not modelled.
- `rng.next_bool()` (Mutator.cpp:25) is not declared by the `RNG` class in rng.h. The model reads it as a fair coin, passed in as the `mutateWeight` draw.
- Layering.RelaxLevels, Layering.SortNeuronsByLayer, Layering.FeedForwardLayer, LayerManager.SortByLayer, Network.CreateFromGenome: these require every walk from the seeds to be simple. Without that, the source's relaxation never terminates. A well-formed genome meets the requirement (Graphs.AcyclicSimpleFrom).
- The iteration order of `std::unordered_map` in `sort_neurons_by_layer` is modelled as the order in which ids first receive a level. The order `std::sort` gives equal keys is left open: contracts state only permutation and key order.
- The compiled network (`FeedForwardNeuralNetwork`) is a value, since nothing updates it after construction.
- `Genome::get_*` accessors and `Population::get_individuals` are plain field reads.

## Findings

| source | as written | input that shows it | evidently intended | confidence | as-written member | corrected member |
|---|---|---|---|---|---|---|
| NeuralNetwork.cpp:132 | `create_from_genome` compiles the input layer into neurons too. Each input id is sorted before its readers (level 0) and rewritten by `activate` from its own bias and incoming links, so the supplied inputs are overwritten before any neuron reads them | `create_genome(0, 3, 2, 1, …)`, activated on [1, 0, 0] and on [0, 0, 0], gives identical outputs | the input ids keep the supplied values, so the outputs depend on the inputs | not executed | Network.OutputsIgnoreInputs | Network.CreateFromGenomeCorrected |
