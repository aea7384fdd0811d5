/**
 * The structural and parametric mutation operators applied to a genome in
 * place (Mutator.h, Mutator.cpp). Every random choice is a parameter: an
 * index draw is any natural number reduced modulo the pool size, a roll is a
 * uniform draw from [0, 1), and fresh weights, biases and Gaussian deltas are
 * passed in as reals.
 */
module Mutator {
  import opened Wrappers
  import opened Genes
  import opened Graphs
  import opened Genomes
  import opened Neat

  /** A draw of uniform_real_distribution(-1, 1) or of rand() scaled to [-1, 1]. */
  type Symmetric = r: real | -1.0 <= r <= 1.0

  /** The genes of a genome at one moment, so that one mutation step can be stated as a relation. */
  datatype GenomeState = GenomeState(neurons: seq<NeuronGene>, links: seq<LinkGene>)

  /** Ids the add-link operator may use as a source: inputs and hidden neurons of the default layout. */
  predicate IsInputOrHiddenId(id: int)
  {
    id < DefaultConfig.numInputs || id >= DefaultConfig.numInputs + DefaultConfig.numOutputs
  }

  /** Ids the add-link operator may use as a target: the outputs of the default layout, and nothing else. */
  predicate IsOutputId(id: int)
  {
    DefaultConfig.numInputs <= id < DefaultConfig.numInputs + DefaultConfig.numOutputs
  }

  /** Hidden ids of the default layout. */
  predicate IsHiddenId(id: int)
  {
    id >= DefaultConfig.numInputs + DefaultConfig.numOutputs
  }

  /** The source candidates, in neuron order (duplicates kept). */
  function InputOrHiddenPool(neurons: seq<NeuronGene>): seq<int>
  {
    if neurons == [] then []
    else
      var last := neurons[|neurons| - 1];
      InputOrHiddenPool(neurons[..|neurons| - 1]) + (if IsInputOrHiddenId(last.neuronId) then [last.neuronId] else [])
  }

  /** The target candidates, in neuron order (duplicates kept). */
  function OutputPool(neurons: seq<NeuronGene>): seq<int>
  {
    if neurons == [] then []
    else
      var last := neurons[|neurons| - 1];
      OutputPool(neurons[..|neurons| - 1]) + (if IsOutputId(last.neuronId) then [last.neuronId] else [])
  }

  /** The positions of the hidden neurons, in order. */
  function HiddenIndices(neurons: seq<NeuronGene>): (r: seq<nat>)
    ensures |r| == CountHidden(neurons)
    ensures forall j :: 0 <= j < |r| ==> r[j] < |neurons| && IsHiddenId(neurons[r[j]].neuronId)
  {
    if neurons == [] then []
    else
      var k := |neurons| - 1;
      HiddenIndices(neurons[..k]) + (if IsHiddenId(neurons[k].neuronId) then [k] else [])
  }

  /** std::count_if over is_hidden: the number of hidden neurons. */
  function CountHidden(neurons: seq<NeuronGene>): nat
  {
    if neurons == [] then 0
    else
      var k := |neurons| - 1;
      CountHidden(neurons[..k]) + (if neurons[k].IsHidden(neurons[k].neuronId, DefaultConfig) then 1 else 0)
  }

  lemma {:induction false} PoolMembers(neurons: seq<NeuronGene>)
    ensures forall x :: x in InputOrHiddenPool(neurons) <==> x in NeuronIds(neurons) && IsInputOrHiddenId(x)
    ensures forall x :: x in OutputPool(neurons) <==> x in NeuronIds(neurons) && IsOutputId(x)
    decreases |neurons|
  {
    if neurons != [] {
      var k := |neurons| - 1;
      PoolMembers(neurons[..k]);
      assert neurons == neurons[..k] + [neurons[k]];
      assert NeuronIds(neurons) == NeuronIds(neurons[..k]) + {neurons[k].neuronId} by {
        forall n ensures n in neurons <==> n in neurons[..k] || n == neurons[k] {
        }
      }
    }
  }

  lemma {:induction false} HiddenIndicesMembers(neurons: seq<NeuronGene>)
    ensures |HiddenIndices(neurons)| == CountHidden(neurons)
    ensures forall k: nat :: k in HiddenIndices(neurons) <==> k < |neurons| && IsHiddenId(neurons[k].neuronId)
    decreases |neurons|
  {
    if neurons != [] {
      var k := |neurons| - 1;
      HiddenIndicesMembers(neurons[..k]);
      var tail := if IsHiddenId(neurons[k].neuronId) then [k] else [];
      assert HiddenIndices(neurons) == HiddenIndices(neurons[..k]) + tail;
      forall j: nat
        ensures j in HiddenIndices(neurons) <==> j < |neurons| && IsHiddenId(neurons[j].neuronId)
      {
        if j < k {
          assert neurons[..k][j] == neurons[j];
        }
      }
    }
  }

  /** The value at pick modulo the pool size, or -1 for an empty pool. */
  function PickOrNone(pool: seq<int>, pick: nat): int
  {
    if |pool| == 0 then -1 else pool[pick % |pool|]
  }

  /**
   * choose_random_input_or_hidden_neuron: collects the ids with id < 3 or
   * id >= 5 and returns the one at rand() modulo their number, or -1.
   */
  method ChooseRandomInputOrHiddenNeuron(neurons: seq<NeuronGene>, pick: nat) returns (id: int)
    ensures id == PickOrNone(InputOrHiddenPool(neurons), pick)
  {
    var valid: seq<int> := [];
    var i := 0;
    while i < |neurons|
      invariant 0 <= i <= |neurons|
      invariant valid == InputOrHiddenPool(neurons[..i])
    {
      assert neurons[..i + 1][..i] == neurons[..i];
      if neurons[i].neuronId < DefaultConfig.numInputs
         || neurons[i].neuronId >= DefaultConfig.numInputs + DefaultConfig.numOutputs {
        valid := valid + [neurons[i].neuronId];
      }
      i := i + 1;
    }
    assert neurons[..|neurons|] == neurons;
    if |valid| == 0 {
      return -1;
    }
    id := valid[pick % |valid|];
  }

  /**
   * choose_random_output_or_hidden_neuron: despite its name, collects only
   * the output ids (3 <= id < 5) and returns one, or -1.
   */
  method ChooseRandomOutputOrHiddenNeuron(neurons: seq<NeuronGene>, pick: nat) returns (id: int)
    ensures id == PickOrNone(OutputPool(neurons), pick)
  {
    var valid: seq<int> := [];
    var i := 0;
    while i < |neurons|
      invariant 0 <= i <= |neurons|
      invariant valid == OutputPool(neurons[..i])
    {
      assert neurons[..i + 1][..i] == neurons[..i];
      if neurons[i].neuronId >= DefaultConfig.numInputs
         && neurons[i].neuronId < DefaultConfig.numInputs + DefaultConfig.numOutputs {
        valid := valid + [neurons[i].neuronId];
      }
      i := i + 1;
    }
    assert neurons[..|neurons|] == neurons;
    if |valid| == 0 {
      return -1;
    }
    id := valid[pick % |valid|];
  }

  /**
   * choose_random_hidden: the position of one hidden neuron, chosen among
   * all hidden positions; None where the source throws out_of_range.
   */
  method ChooseRandomHidden(neurons: seq<NeuronGene>, pick: nat) returns (r: Option<nat>)
    ensures var hidden := HiddenIndices(neurons);
      r == if |hidden| == 0 then None else Some(hidden[pick % |hidden|])
  {
    var hidden: seq<nat> := [];
    var i := 0;
    while i < |neurons|
      invariant 0 <= i <= |neurons|
      invariant hidden == HiddenIndices(neurons[..i])
    {
      assert neurons[..i + 1][..i] == neurons[..i];
      if neurons[i].neuronId >= DefaultConfig.numInputs + DefaultConfig.numOutputs {
        hidden := hidden + [i];
      }
      i := i + 1;
    }
    assert neurons[..|neurons|] == neurons;
    if |hidden| == 0 {
      return None;
    }
    r := Some(hidden[pick % |hidden|]);
  }

  /** v can be reached from u in one step or more. */
  ghost predicate ReachesInSteps(E: set<LinkId>, u: int, v: int)
  {
    exists p :: IsPath(E, p) && |p| >= 2 && p[0] == u && p[|p| - 1] == v
  }

  /**
   * The depth-first search of the free would_create_cycle. It walks all
   * links, enabled or not, and reports true as soon as it meets a node twice
   * or a link into the target. When it reports false, the nodes it newly
   * visited are closed under successors and none of their successors is the
   * target.
   */
  method CycleDfs(links: seq<LinkGene>, target: int, current: int, visited: set<int>, ghost universe: set<int>)
    returns (found: bool, visitedOut: set<int>)
    requires current in universe && visited <= universe
    requires forall l :: l in links ==> l.linkId.outputId in universe
    ensures visited <= visitedOut <= universe
    ensures !found ==> (current !in visited && current in visitedOut
                        && forall u, v :: u in visitedOut - visited && LinkId(u, v) in Edges(links) ==>
                                            v in visitedOut - visited && v != target)
    decreases universe - visited
  {
    if current in visited {
      return true, visited;
    }
    visitedOut := visited + {current};
    var k := 0;
    while k < |links|
      invariant 0 <= k <= |links|
      invariant visited + {current} <= visitedOut <= universe
      invariant forall j :: 0 <= j < k && links[j].linkId.inputId == current ==>
                  links[j].linkId.outputId in visitedOut - visited && links[j].linkId.outputId != target
      invariant forall u, v :: u in visitedOut - visited - {current} && LinkId(u, v) in Edges(links) ==>
                  v in visitedOut - visited && v != target
    {
      if links[k].linkId.inputId == current {
        if links[k].linkId.outputId == target {
          return true, visitedOut;
        }
        assert links[k] in links;
        var f;
        f, visitedOut := CycleDfs(links, target, links[k].linkId.outputId, visitedOut, universe);
        if f {
          return true, visitedOut;
        }
      }
      k := k + 1;
    }
    forall v | LinkId(current, v) in Edges(links)
      ensures v in visitedOut - visited && v != target
    {
      var l :| l in links && l.linkId == LinkId(current, v);
      var j :| 0 <= j < |links| && links[j] == l;
    }
    found := false;
  }

  /**
   * The free would_create_cycle(links, input, output): conservative; when it
   * answers false, input cannot be reached from output in one step or more.
   */
  method WouldCreateCycle(links: seq<LinkGene>, inputId: int, outputId: int) returns (r: bool)
    ensures !r ==> !ReachesInSteps(Edges(links), outputId, inputId)
  {
    ghost var universe := Targets(links) + {outputId};
    var visited;
    r, visited := CycleDfs(links, inputId, outputId, {}, universe);
    if !r && ReachesInSteps(Edges(links), outputId, inputId) {
      var p :| IsPath(Edges(links), p) && |p| >= 2 && p[0] == outputId && p[|p| - 1] == inputId;
      PathSlice(Edges(links), p, 0, |p| - 1);
      ClosedSetHoldsWalks(Edges(links), visited, p[..|p| - 1]);
      PathStep(Edges(links), p, |p| - 2);
    }
  }

  /** Which links a remove or remove_if pass drops. */
  datatype LinkFilter =
    | DropEqual(gene: LinkGene)         // std::remove by LinkGene::operator==
    | DropKey(key: LinkId)              // remove_if on the link key
    | DropTouching(neuron: NeuronGene)  // remove_if on LinkGene::has_neuron
    | DropEssential(neurons: seq<NeuronGene>)

  /** Link keys mutate_remove_link protects. */
  predicate IsEssentialKey(neurons: seq<NeuronGene>, id: LinkId)
  {
    var ni, no := DefaultConfig.numInputs, DefaultConfig.numOutputs;
    (id.inputId < ni && id.inputId in NeuronIds(neurons))
    || (ni <= id.outputId < ni + no && id.outputId in NeuronIds(neurons))
    || (id.inputId >= ni && id.outputId >= ni)
  }

  predicate Keeps(f: LinkFilter, l: LinkGene)
  {
    match f
    case DropEqual(x) => !LinkGeneEquals(l, x)
    case DropKey(k) => !LinkIdEquals(l.linkId, k)
    case DropTouching(n) => !HasNeuron(l, n)
    case DropEssential(ns) => !IsEssentialKey(ns, l.linkId)
  }

  /** The links the filter keeps, in their original order. */
  function FilterLinks(links: seq<LinkGene>, f: LinkFilter): seq<LinkGene>
  {
    if links == [] then []
    else
      var last := links[|links| - 1];
      FilterLinks(links[..|links| - 1], f) + (if Keeps(f, last) then [last] else [])
  }

  lemma {:induction false} FilterLinksMembers(links: seq<LinkGene>, f: LinkFilter)
    ensures forall l :: l in FilterLinks(links, f) <==> l in links && Keeps(f, l)
    decreases |links|
  {
    if links != [] {
      var k := |links| - 1;
      FilterLinksMembers(links[..k], f);
      assert links == links[..k] + [links[k]];
    }
  }

  /** Filtering keeps keys unique and only drops keys. */
  lemma {:induction false} FilterLinksUnique(links: seq<LinkGene>, f: LinkFilter)
    requires UniqueLinkIds(links)
    ensures UniqueLinkIds(FilterLinks(links, f))
    ensures Edges(FilterLinks(links, f)) <= Edges(links)
    decreases |links|
  {
    FilterLinksMembers(links, f);
    if links != [] {
      var k := |links| - 1;
      var init := links[..k];
      assert UniqueLinkIds(init);
      FilterLinksUnique(init, f);
      if Keeps(f, links[k]) {
        assert links[k].linkId !in Edges(init) by {
          forall l | l in init ensures l.linkId != links[k].linkId {
            var j :| 0 <= j < k && init[j] == l;
          }
        }
        UniqueSnoc(FilterLinks(init, f), links[k]);
      }
    }
  }

  /** A filtered link list of a well-formed genome is well formed over the same neurons. */
  lemma FilterKeepsWellFormed(neurons: seq<NeuronGene>, links: seq<LinkGene>, f: LinkFilter)
    requires WellFormed(neurons, links)
    ensures WellFormed(neurons, FilterLinks(links, f))
  {
    FilterLinksMembers(links, f);
    FilterLinksUnique(links, f);
    AcyclicSubset(Edges(FilterLinks(links, f)), Edges(links));
  }

  /** Between distinct ids, only a path of two or more ids can reach. */
  lemma DistinctNotReaches(E: set<LinkId>, u: int, v: int)
    requires u != v && !ReachesInSteps(E, u, v)
    ensures !Reaches(E, u, v)
  {
    forall p | IsPath(E, p) && p[0] == u
      ensures p[|p| - 1] != v
    {
      if |p| >= 2 {
        assert !(IsPath(E, p) && |p| >= 2 && p[0] == u && p[|p| - 1] == v);
      }
    }
  }

  /** The key mutate_add_link tries to add, if both choosers produced an id. */
  function AddLinkCandidate(neurons: seq<NeuronGene>, sourcePick: nat, targetPick: nat): Option<LinkId>
  {
    var i := PickOrNone(InputOrHiddenPool(neurons), sourcePick);
    var o := PickOrNone(OutputPool(neurons), targetPick);
    if i == -1 || o == -1 then None else Some(LinkId(i, o))
  }

  lemma PickInPool(pool: seq<int>, pick: nat)
    requires PickOrNone(pool, pick) != -1
    ensures PickOrNone(pool, pick) in pool
  {
  }

  /**
   * A candidate key joins two distinct neurons of the genome, and adding it
   * when the cycle check lets it through keeps the genome well formed.
   */
  lemma AddLinkKeepsWellFormed(neurons: seq<NeuronGene>, links: seq<LinkGene>, sourcePick: nat, targetPick: nat, weight: real)
    requires WellFormed(neurons, links)
    requires AddLinkCandidate(neurons, sourcePick, targetPick).Some?
    requires var c := AddLinkCandidate(neurons, sourcePick, targetPick).value;
      c !in Edges(links) && !ReachesInSteps(Edges(links), c.outputId, c.inputId)
    ensures WellFormed(neurons, links + [LinkGene(AddLinkCandidate(neurons, sourcePick, targetPick).value, weight, true)])
  {
    var c := AddLinkCandidate(neurons, sourcePick, targetPick).value;
    var l := LinkGene(c, weight, true);
    PoolMembers(neurons);
    PickInPool(InputOrHiddenPool(neurons), sourcePick);
    PickInPool(OutputPool(neurons), targetPick);
    assert c.inputId != c.outputId;
    DistinctNotReaches(Edges(links), c.outputId, c.inputId);
    AddEdgeKeepsAcyclic(Edges(links), c.inputId, c.outputId);
    EdgesSnoc(links, l);
    UniqueSnoc(links, l);
  }

  /**
   * What mutate_add_link may do to the genes: the neurons stay; without a
   * candidate or with an existing key the links stay; otherwise the links
   * stay or gain exactly the new enabled key, whose target does not reach
   * its source.
   */
  ghost predicate AddLinkStep(s: GenomeState, t: GenomeState, sourcePick: nat, targetPick: nat, weight: Symmetric)
  {
    t.neurons == s.neurons
    && var c := AddLinkCandidate(s.neurons, sourcePick, targetPick);
       if c.None? || c.value in Edges(s.links) then t.links == s.links
       else t.links == s.links
            || (t.links == s.links + [LinkGene(c.value, weight, true)]
                && !ReachesInSteps(Edges(s.links), c.value.outputId, c.value.inputId))
  }

  /**
   * Mutator::mutate_add_link: an output picked as target, an input or hidden
   * neuron as source; nothing happens when either pool is empty or the key
   * already exists (the source re-enables a copy of the existing gene, which
   * leaves the genome as it was); otherwise a new enabled link is appended
   * unless the conservative cycle check objects.
   */
  method MutateAddLink(g: Genome, sourcePick: nat, targetPick: nat, weight: Symmetric)
    modifies g`links
    ensures AddLinkStep(GenomeState(old(g.neurons), old(g.links)), GenomeState(g.neurons, g.links), sourcePick, targetPick, weight)
    ensures WellFormed(g.neurons, old(g.links)) ==> WellFormed(g.neurons, g.links)
  {
    var inputId := ChooseRandomInputOrHiddenNeuron(g.neurons, sourcePick);
    var outputId := ChooseRandomOutputOrHiddenNeuron(g.neurons, targetPick);
    if inputId == -1 || outputId == -1 {
      return;
    }
    var linkId := LinkId(inputId, outputId);
    var existing := FindLink(g.links, linkId);
    if existing.Some? {
      var copy := existing.value;
      if !copy.isEnabled {
        copy := copy.(isEnabled := true);
      }
      return;
    }
    var cycle := WouldCreateCycle(g.links, inputId, outputId);
    if cycle {
      return;
    }
    if WellFormed(g.neurons, g.links) {
      AddLinkKeepsWellFormed(g.neurons, g.links, sourcePick, targetPick, weight);
    }
    g.AddLink(LinkGene(linkId, weight, true));
  }

  /** The inner loop over the links for one input neuron: inserts every key leaving it. */
  method InsertLinksFrom(links: seq<LinkGene>, source: int, essential: set<LinkId>) returns (r: set<LinkId>)
    ensures forall id :: id in r <==> id in essential || (id in Edges(links) && id.inputId == source)
  {
    r := essential;
    for j := 0 to |links|
      invariant forall id :: id in r <==> id in essential || (id in Edges(links[..j]) && id.inputId == source)
    {
      EdgesSnoc(links[..j], links[j]);
      assert links[..j + 1] == links[..j] + [links[j]];
      if links[j].linkId.inputId == source {
        r := r + {links[j].linkId};
      }
    }
    assert links[..|links|] == links;
  }

  /** The inner loop over the links for one output neuron: inserts every key entering it. */
  method InsertLinksInto(links: seq<LinkGene>, target: int, essential: set<LinkId>) returns (r: set<LinkId>)
    ensures forall id :: id in r <==> id in essential || (id in Edges(links) && id.outputId == target)
  {
    r := essential;
    for j := 0 to |links|
      invariant forall id :: id in r <==> id in essential || (id in Edges(links[..j]) && id.outputId == target)
    {
      EdgesSnoc(links[..j], links[j]);
      assert links[..j + 1] == links[..j] + [links[j]];
      if links[j].linkId.outputId == target {
        r := r + {links[j].linkId};
      }
    }
    assert links[..|links|] == links;
  }

  /** The last loop: inserts every key joining two non-input ids. */
  method InsertLinksBetweenNonInputs(links: seq<LinkGene>, ni: int, essential: set<LinkId>) returns (r: set<LinkId>)
    ensures forall id :: id in r <==> id in essential || (id in Edges(links) && id.inputId >= ni && id.outputId >= ni)
  {
    r := essential;
    for j := 0 to |links|
      invariant forall id :: id in r <==> id in essential || (id in Edges(links[..j]) && id.inputId >= ni && id.outputId >= ni)
    {
      EdgesSnoc(links[..j], links[j]);
      assert links[..j + 1] == links[..j] + [links[j]];
      if links[j].linkId.inputId >= ni && links[j].linkId.outputId >= ni {
        r := r + {links[j].linkId};
      }
    }
    assert links[..|links|] == links;
  }

  /**
   * The first part of mutate_remove_link: the keys of links that leave a
   * present input id, enter a present output id, or join two non-input ids.
   */
  method EssentialLinks(neurons: seq<NeuronGene>, links: seq<LinkGene>) returns (essential: set<LinkId>)
    ensures forall id :: id in essential <==> id in Edges(links) && IsEssentialKey(neurons, id)
  {
    var ni, no := DefaultConfig.numInputs, DefaultConfig.numOutputs;
    essential := {};
    for i := 0 to |neurons|
      invariant forall id :: id in essential <==>
                  id in Edges(links) && id.inputId < ni && id.inputId in NeuronIds(neurons[..i])
    {
      var n := neurons[i];
      if n.neuronId < ni {
        essential := InsertLinksFrom(links, n.neuronId, essential);
      }
      NeuronIdsSnoc(neurons[..i], n);
      assert neurons[..i + 1] == neurons[..i] + [n];
    }
    assert neurons[..|neurons|] == neurons;
    for i := 0 to |neurons|
      invariant forall id :: id in essential <==>
                  (id in Edges(links) && id.inputId < ni && id.inputId in NeuronIds(neurons))
                  || (id in Edges(links) && ni <= id.outputId < ni + no && id.outputId in NeuronIds(neurons[..i]))
    {
      var n := neurons[i];
      if n.neuronId >= ni && n.neuronId < ni + no {
        essential := InsertLinksInto(links, n.neuronId, essential);
      }
      NeuronIdsSnoc(neurons[..i], n);
      assert neurons[..i + 1] == neurons[..i] + [n];
    }
    essential := InsertLinksBetweenNonInputs(links, ni, essential);
  }

  /**
   * The links whose key is not in essential, in their order; with essential
   * holding exactly the present essential keys, these are the links the
   * DropEssential filter keeps.
   */
  method RemovableLinks(neurons: seq<NeuronGene>, links: seq<LinkGene>, essential: set<LinkId>)
    returns (removable: seq<LinkGene>)
    requires forall id :: id in essential <==> id in Edges(links) && IsEssentialKey(neurons, id)
    ensures removable == FilterLinks(links, DropEssential(neurons))
  {
    removable := [];
    var j := 0;
    while j < |links|
      invariant 0 <= j <= |links|
      invariant removable == FilterLinks(links[..j], DropEssential(neurons))
    {
      assert links[..j + 1][..j] == links[..j];
      assert links[j] in links;
      if links[j].linkId !in essential {
        removable := removable + [links[j]];
      }
      j := j + 1;
    }
    assert links[..|links|] == links;
  }

  /**
   * What mutate_remove_link does to the genes: the neurons stay; without a
   * removable link the links stay, otherwise every gene equal to the drawn
   * removable one goes.
   */
  ghost predicate RemoveLinkStep(s: GenomeState, t: GenomeState, pick: nat)
  {
    t.neurons == s.neurons
    && var removable := FilterLinks(s.links, DropEssential(s.neurons));
       t.links == if |removable| == 0 then s.links
                  else FilterLinks(s.links, DropEqual(removable[pick % |removable|]))
  }

  /**
   * Mutator::mutate_remove_link: among the links whose key is not essential,
   * the one at the drawn position is removed, together with every gene equal
   * to it; without such links nothing changes.
   */
  method MutateRemoveLink(g: Genome, pick: nat)
    modifies g`links
    ensures RemoveLinkStep(GenomeState(old(g.neurons), old(g.links)), GenomeState(g.neurons, g.links), pick)
    ensures forall l :: l in old(g.links) && IsEssentialKey(g.neurons, l.linkId) ==> l in g.links
    ensures forall l :: l in g.links ==> l in old(g.links)
    ensures WellFormed(g.neurons, old(g.links)) ==> WellFormed(g.neurons, g.links)
  {
    FilterLinksMembers(g.links, DropEssential(g.neurons));
    if |g.links| == 0 {
      return;
    }
    var essential := EssentialLinks(g.neurons, g.links);
    var removable := RemovableLinks(g.neurons, g.links, essential);
    if |removable| == 0 {
      return;
    }
    var toRemove := removable[pick % |removable|];
    assert toRemove in removable;
    FilterLinksMembers(g.links, DropEqual(toRemove));
    if WellFormed(g.neurons, g.links) {
      FilterKeepsWellFormed(g.neurons, g.links, DropEqual(toRemove));
    }
    g.links := FilterLinks(g.links, DropEqual(toRemove));
  }

  /** Splitting a link through a fresh neuron keeps the genome well formed. */
  lemma AddNeuronKeepsWellFormed(neurons: seq<NeuronGene>, links: seq<LinkGene>, split: LinkGene, n: NeuronGene)
    requires WellFormed(neurons, links) && split in links
    requires forall m :: m in neurons ==> m.neuronId < n.neuronId
    ensures var a, b := split.linkId.inputId, split.linkId.outputId;
      WellFormed(neurons + [n],
                 FilterLinks(links, DropKey(split.linkId))
                 + [LinkGene(LinkId(a, n.neuronId), 1.0, true), LinkGene(LinkId(n.neuronId, b), split.weight, true)])
  {
    var a, b, id := split.linkId.inputId, split.linkId.outputId, n.neuronId;
    var kept := FilterLinks(links, DropKey(split.linkId));
    var first := LinkGene(LinkId(a, id), 1.0, true);
    var second := LinkGene(LinkId(id, b), split.weight, true);
    var result := kept + [first, second];
    var E := Edges(links);
    NeuronIdsSnoc(neurons, n);
    FilterLinksMembers(links, DropKey(split.linkId));
    FilterLinksUnique(links, DropKey(split.linkId));
    assert id !in NeuronIds(neurons);
    assert Untouched(E, id);
    assert Edges(kept) <= E;
    assert result == (kept + [first]) + [second];
    EdgesSnoc(kept, first);
    EdgesSnoc(kept + [first], second);
    assert Edges(result) == Edges(kept) + {first.linkId, second.linkId};
    assert UniqueLinkIds(result) by {
      assert first.linkId !in Edges(kept);
      UniqueSnoc(kept, first);
      assert second.linkId !in Edges(kept + [first]);
      UniqueSnoc(kept + [first], second);
    }
    assert EndpointsAreNeurons(neurons + [n], result) by {
      forall l | l in result
        ensures l.linkId.inputId in NeuronIds(neurons + [n]) && l.linkId.outputId in NeuronIds(neurons + [n])
      {
        if l in kept {
          assert l in links;
        }
      }
    }
    assert SplitOf(Edges(result), E, a, b, id);
    SplitKeepsAcyclic(E, Edges(result), a, b, id);
  }

  /**
   * What mutate_add_neuron does to the genes: nothing without links;
   * otherwise the drawn link's key is dropped, a Sigmoid neuron whose id is
   * one past the largest existing id (or 1 when none is positive) is
   * appended, and the key is split through it.
   */
  ghost predicate AddNeuronStep(s: GenomeState, t: GenomeState, pick: nat, bias: Symmetric)
  {
    if |s.links| == 0 then t == s
    else
      var split := s.links[pick % |s.links|];
      var k := |s.neurons|;
      |t.neurons| == k + 1 && t.neurons[..k] == s.neurons
      && t.neurons[k] == NeuronGene(t.neurons[k].neuronId, bias, Sigmoid)
      && (forall m :: m in s.neurons ==> m.neuronId < t.neurons[k].neuronId)
      && (t.neurons[k].neuronId == 1 || exists m :: m in s.neurons && m.neuronId == t.neurons[k].neuronId - 1)
      && t.links == FilterLinks(s.links, DropKey(split.linkId))
                    + [LinkGene(LinkId(split.linkId.inputId, t.neurons[k].neuronId), 1.0, true),
                       LinkGene(LinkId(t.neurons[k].neuronId, split.linkId.outputId), split.weight, true)]
  }

  /**
   * Mutator::mutate_add_neuron: the drawn link is removed (with every gene of
   * its key), a Sigmoid neuron with the next free id is appended, and two
   * enabled links route the old connection through it: weight 1.0 into the
   * new neuron, the old weight out of it.
   */
  method MutateAddNeuron(g: Genome, pick: nat, bias: Symmetric)
    modifies g`neurons, g`links
    ensures AddNeuronStep(GenomeState(old(g.neurons), old(g.links)), GenomeState(g.neurons, g.links), pick, bias)
    ensures WellFormed(old(g.neurons), old(g.links)) ==> WellFormed(g.neurons, g.links)
    ensures UniqueNeuronIds(old(g.neurons)) ==> UniqueNeuronIds(g.neurons)
  {
    if |g.links| == 0 {
      return;
    }
    var split := g.links[pick % |g.links|];
    ghost var oldLinks := g.links;
    ghost var wasWellFormed := WellFormed(g.neurons, g.links);
    split := split.(isEnabled := false);
    g.links := FilterLinks(g.links, DropKey(split.linkId));
    var neuron := NeuronGene(0, bias, Sigmoid);
    var id := g.GenerateNextNeuronId();
    neuron := neuron.(neuronId := id);
    AppendFreshKeepsUniqueIds(g.neurons, neuron);
    if wasWellFormed {
      AddNeuronKeepsWellFormed(g.neurons, oldLinks, oldLinks[pick % |oldLinks|], neuron);
    }
    g.AddNeuron(neuron);
    g.AddLink(LinkGene(LinkId(split.linkId.inputId, id), 1.0, true));
    g.AddLink(LinkGene(LinkId(id, split.linkId.outputId), split.weight, true));
    assert g.links == FilterLinks(oldLinks, DropKey(split.linkId))
                      + [LinkGene(LinkId(split.linkId.inputId, id), 1.0, true)]
                      + [LinkGene(LinkId(id, split.linkId.outputId), split.weight, true)];
  }

  /** Appending a neuron whose id is above every existing one keeps the ids distinct. */
  lemma AppendFreshKeepsUniqueIds(neurons: seq<NeuronGene>, n: NeuronGene)
    requires forall m :: m in neurons ==> m.neuronId < n.neuronId
    ensures UniqueNeuronIds(neurons) ==> UniqueNeuronIds(neurons + [n])
  {
    var t := neurons + [n];
    if UniqueNeuronIds(neurons) {
      forall i, j | 0 <= i < j < |t|
        ensures t[i].neuronId != t[j].neuronId
      {
        assert t[i] == neurons[i];
        if j < |neurons| {
          assert t[j] == neurons[j];
        } else {
          assert neurons[i] in neurons;
        }
      }
    }
  }

  /** The genes after an add-neuron step have distinct ids when those before it do. */
  lemma AddNeuronStepKeepsUniqueIds(s: GenomeState, t: GenomeState, pick: nat, bias: Symmetric)
    requires AddNeuronStep(s, t, pick, bias) && UniqueNeuronIds(s.neurons)
    ensures UniqueNeuronIds(t.neurons)
  {
    if |s.links| > 0 {
      var k := |s.neurons|;
      assert t.neurons == s.neurons + [t.neurons[k]];
      AppendFreshKeepsUniqueIds(s.neurons, t.neurons[k]);
    }
  }

  lemma {:induction false} CountHiddenConcat(a: seq<NeuronGene>, b: seq<NeuronGene>)
    ensures CountHidden(a + b) == CountHidden(a) + CountHidden(b)
    decreases |b|
  {
    if b == [] {
      assert a + b == a;
    } else {
      var k := |b| - 1;
      assert (a + b)[..|a + b| - 1] == a + b[..k];
      assert (a + b)[|a + b| - 1] == b[k];
      CountHiddenConcat(a, b[..k]);
    }
  }

  /** Erasing one hidden neuron lowers the hidden count by exactly one. */
  lemma EraseHiddenCount(neurons: seq<NeuronGene>, k: nat)
    requires k < |neurons| && IsHiddenId(neurons[k].neuronId)
    ensures CountHidden(neurons[..k] + neurons[k + 1..]) == CountHidden(neurons) - 1
  {
    assert neurons == neurons[..k] + [neurons[k]] + neurons[k + 1..];
    CountHiddenConcat(neurons[..k] + [neurons[k]], neurons[k + 1..]);
    CountHiddenConcat(neurons[..k], [neurons[k]]);
    CountHiddenConcat(neurons[..k], neurons[k + 1..]);
    assert [neurons[k]][..0] == [];
  }

  /** Removing a neuron with every link touching it keeps the genome well formed. */
  lemma RemoveNeuronKeepsWellFormed(neurons: seq<NeuronGene>, links: seq<LinkGene>, k: nat)
    requires WellFormed(neurons, links) && k < |neurons|
    ensures WellFormed(neurons[..k] + neurons[k + 1..], FilterLinks(links, DropTouching(neurons[k])))
  {
    var rest := neurons[..k] + neurons[k + 1..];
    var kept := FilterLinks(links, DropTouching(neurons[k]));
    FilterKeepsWellFormed(neurons, links, DropTouching(neurons[k]));
    FilterLinksMembers(links, DropTouching(neurons[k]));
    forall id | id in NeuronIds(neurons) && id != neurons[k].neuronId
      ensures id in NeuronIds(rest)
    {
      var j :| 0 <= j < |neurons| && neurons[j].neuronId == id;
      if j < k {
        assert rest[j] == neurons[j];
      } else {
        assert rest[j - 1] == neurons[j];
      }
    }
  }

  /**
   * Erasing hidden neuron k with every link touching it keeps the genome
   * well formed and its ids distinct, and lowers the hidden count by one.
   */
  lemma RemoveHiddenNeuron(neurons: seq<NeuronGene>, links: seq<LinkGene>, k: nat)
    requires k < |neurons| && IsHiddenId(neurons[k].neuronId)
    ensures var rest := neurons[..k] + neurons[k + 1..];
      var kept := FilterLinks(links, DropTouching(neurons[k]));
      CountHidden(rest) == CountHidden(neurons) - 1
      && (WellFormed(neurons, links) ==> WellFormed(rest, kept))
      && (UniqueNeuronIds(neurons) ==> UniqueNeuronIds(rest))
  {
    if WellFormed(neurons, links) {
      RemoveNeuronKeepsWellFormed(neurons, links, k);
    }
    EraseHiddenCount(neurons, k);
    EraseKeepsUniqueIds(neurons, k);
  }

  /**
   * What mutate_remove_neuron does to the genes: nothing below two hidden
   * neurons; otherwise the drawn hidden neuron and every link touching it go,
   * order kept, and the hidden count drops by one.
   */
  ghost predicate RemoveNeuronStep(s: GenomeState, t: GenomeState, pick: nat)
  {
    if CountHidden(s.neurons) < 2 then t == s
    else
      var hidden := HiddenIndices(s.neurons);
      var k := hidden[pick % |hidden|];
      k < |s.neurons| && IsHiddenId(s.neurons[k].neuronId)
      && t.neurons == s.neurons[..k] + s.neurons[k + 1..]
      && t.links == FilterLinks(s.links, DropTouching(s.neurons[k]))
      && CountHidden(t.neurons) == CountHidden(s.neurons) - 1
  }

  /** Erasing one neuron keeps the remaining ids distinct. */
  lemma EraseKeepsUniqueIds(neurons: seq<NeuronGene>, k: nat)
    requires k < |neurons|
    ensures UniqueNeuronIds(neurons) ==> UniqueNeuronIds(neurons[..k] + neurons[k + 1..])
  {
    var t := neurons[..k] + neurons[k + 1..];
    if UniqueNeuronIds(neurons) {
      forall i, j | 0 <= i < j < |t|
        ensures t[i].neuronId != t[j].neuronId
      {
        var i' := if i < k then i else i + 1;
        var j' := if j < k then j else j + 1;
        assert t[i] == neurons[i'] && t[j] == neurons[j'];
      }
    }
  }

  /** The genes after a remove-neuron step have distinct ids when those before it do. */
  lemma RemoveNeuronStepKeepsUniqueIds(s: GenomeState, t: GenomeState, pick: nat)
    requires RemoveNeuronStep(s, t, pick) && UniqueNeuronIds(s.neurons)
    ensures UniqueNeuronIds(t.neurons)
  {
    if CountHidden(s.neurons) >= 2 {
      var hidden := HiddenIndices(s.neurons);
      EraseKeepsUniqueIds(s.neurons, hidden[pick % |hidden|]);
    }
  }

  /**
   * Mutator::mutate_remove_neuron: with at least two hidden neurons, the
   * drawn hidden neuron and every link touching it are removed; otherwise
   * nothing changes.
   */
  method MutateRemoveNeuron(g: Genome, pick: nat)
    modifies g`neurons, g`links
    ensures RemoveNeuronStep(GenomeState(old(g.neurons), old(g.links)), GenomeState(g.neurons, g.links), pick)
    ensures WellFormed(old(g.neurons), old(g.links)) ==> WellFormed(g.neurons, g.links)
    ensures UniqueNeuronIds(old(g.neurons)) ==> UniqueNeuronIds(g.neurons)
  {
    var hiddenCount := CountHidden(g.neurons);
    if hiddenCount < 2 {
      return;
    }
    var chosen := ChooseRandomHidden(g.neurons, pick);
    if chosen.Some? {
      var k := chosen.value;
      var victim := g.neurons[k];
      RemoveHiddenNeuron(g.neurons, g.links, k);
      g.links := FilterLinks(g.links, DropTouching(victim));
      g.neurons := g.neurons[..k] + g.neurons[k + 1..];
    }
  }

  /** mutate_delta: a clamped Gaussian step added to the value, then clamped again. */
  function MutateDelta(value: real, gaussian: real): (r: real)
    ensures DefaultDoubleConfig.minValue <= r <= DefaultDoubleConfig.maxValue
    ensures var step := Clamp(gaussian);
      DefaultDoubleConfig.minValue <= value + step <= DefaultDoubleConfig.maxValue ==> r == value + step
  {
    Clamp(value + Clamp(gaussian))
  }

  /** A zero step leaves a value already inside the bounds where it was. */
  lemma MutateDeltaZero(value: real)
    requires DefaultDoubleConfig.minValue <= value <= DefaultDoubleConfig.maxValue
    ensures MutateDelta(value, 0.0) == value
  {
  }

  /** Two link lists with the same key at every position have the same shape. */
  lemma SameKeysSameShape(neurons: seq<NeuronGene>, a: seq<LinkGene>, b: seq<LinkGene>)
    requires |a| == |b| && forall i :: 0 <= i < |a| ==> a[i].linkId == b[i].linkId
    ensures Edges(a) == Edges(b)
    ensures WellFormed(neurons, a) ==> WellFormed(neurons, b)
  {
    assert forall l :: l in b ==> exists i :: 0 <= i < |b| && b[i] == l;
    assert forall l :: l in a ==> exists i :: 0 <= i < |a| && a[i] == l;
    assert Edges(a) == Edges(b) by {
      forall l | l in b ensures l.linkId in Edges(a) {
        var i :| 0 <= i < |b| && b[i] == l;
        assert a[i] in a;
      }
      forall l | l in a ensures l.linkId in Edges(b) {
        var i :| 0 <= i < |a| && a[i] == l;
        assert b[i] in b;
      }
    }
    if WellFormed(neurons, a) {
      forall l | l in b
        ensures l.linkId.inputId in NeuronIds(neurons) && l.linkId.outputId in NeuronIds(neurons)
      {
        var i :| 0 <= i < |b| && b[i] == l;
        assert a[i] in a;
      }
    }
  }

  /** Changing one weight keeps the keys, and with them well-formedness. */
  lemma ReweightKeepsShape(neurons: seq<NeuronGene>, links: seq<LinkGene>, k: nat, w: real)
    requires k < |links|
    ensures Edges(links[k := links[k].(weight := w)]) == Edges(links)
    ensures WellFormed(neurons, links) ==> WellFormed(neurons, links[k := links[k].(weight := w)])
  {
    SameKeysSameShape(neurons, links, links[k := links[k].(weight := w)]);
  }

  /** What mutate_link_weight does to the genes: at most the drawn link's weight moves, and only on a hit roll. */
  ghost predicate LinkWeightStep(s: GenomeState, t: GenomeState, config: NeatConfig, pick: nat, roll: Unit, gaussian: real)
  {
    t.neurons == s.neurons
    && if |s.links| == 0 || roll >= config.probabilityMutateLinkWeight then t.links == s.links
       else var k := pick % |s.links|;
         t.links == s.links[k := s.links[k].(weight := MutateDelta(s.links[k].weight, gaussian))]
  }

  /**
   * Mutator::mutate_link_weight: the drawn link's weight gets a delta when
   * the roll falls below the configured probability; only that weight changes.
   */
  method MutateLinkWeight(g: Genome, config: NeatConfig, pick: nat, roll: Unit, gaussian: real)
    modifies g`links
    ensures LinkWeightStep(GenomeState(old(g.neurons), old(g.links)), GenomeState(g.neurons, g.links), config, pick, roll, gaussian)
    ensures Edges(g.links) == Edges(old(g.links))
    ensures WellFormed(g.neurons, old(g.links)) ==> WellFormed(g.neurons, g.links)
  {
    if |g.links| == 0 {
      return;
    }
    var k := pick % |g.links|;
    if roll < config.probabilityMutateLinkWeight {
      var link := g.links[k];
      ReweightKeepsShape(g.neurons, g.links, k, MutateDelta(link.weight, gaussian));
      g.links := g.links[k := link.(weight := MutateDelta(link.weight, gaussian))];
    }
  }

  /** What mutate_neuron_bias does to the genes: at most the drawn neuron's bias moves, and only on a hit roll. */
  ghost predicate NeuronBiasStep(s: GenomeState, t: GenomeState, config: NeatConfig, pick: nat, roll: Unit, gaussian: real)
  {
    t.links == s.links
    && if |s.neurons| == 0 || roll >= config.probabilityMutateNeuronBias then t.neurons == s.neurons
       else var k := pick % |s.neurons|;
         t.neurons == s.neurons[k := s.neurons[k].(bias := MutateDelta(s.neurons[k].bias, gaussian))]
  }

  /**
   * Mutator::mutate_neuron_bias: the drawn neuron's bias gets a delta when
   * the roll falls below the configured probability; only that bias changes.
   */
  method MutateNeuronBias(g: Genome, config: NeatConfig, pick: nat, roll: Unit, gaussian: real)
    modifies g`neurons
    ensures NeuronBiasStep(GenomeState(old(g.neurons), old(g.links)), GenomeState(g.neurons, g.links), config, pick, roll, gaussian)
    ensures NeuronIds(g.neurons) == NeuronIds(old(g.neurons))
    ensures WellFormed(old(g.neurons), g.links) ==> WellFormed(g.neurons, g.links)
    ensures UniqueNeuronIds(old(g.neurons)) ==> UniqueNeuronIds(g.neurons)
  {
    if |g.neurons| == 0 {
      return;
    }
    var k := pick % |g.neurons|;
    if roll < config.probabilityMutateNeuronBias {
      var neuron := g.neurons[k];
      ghost var before := g.neurons;
      g.neurons := g.neurons[k := neuron.(bias := MutateDelta(neuron.bias, gaussian))];
      forall id | id in NeuronIds(g.neurons)
        ensures id in NeuronIds(before)
      {
        var j :| 0 <= j < |g.neurons| && g.neurons[j].neuronId == id;
        assert before[j].neuronId == id;
      }
      forall id | id in NeuronIds(before)
        ensures id in NeuronIds(g.neurons)
      {
        var j :| 0 <= j < |before| && before[j].neuronId == id;
        assert g.neurons[j].neuronId == id;
      }
    }
  }

  /** The random draws one call of Mutator::mutate consumes, in the order it consumes them. */
  datatype MutationDraws = MutationDraws(
    addLinkRoll: Unit, linkSourcePick: nat, linkTargetPick: nat, newLinkWeight: Symmetric,
    removeLinkRoll: Unit, removeLinkPick: nat,
    addNeuronRoll: Unit, splitPick: nat, newNeuronBias: Symmetric,
    removeNeuronRoll: Unit, removeNeuronPick: nat,
    mutateWeight: bool, perturbPick: nat, perturbRoll: Unit, perturbGaussian: real)

  /**
   * The gene states one call of Mutator::mutate passes through: s0 on entry,
   * s1 to s4 after each of the four structural operators and s5 after the
   * perturbation. An operator whose roll misses leaves the state as it was;
   * one whose roll hits relates the two states as its own step predicate says.
   */
  ghost predicate MutationSteps(s0: GenomeState, s1: GenomeState, s2: GenomeState, s3: GenomeState,
                                s4: GenomeState, s5: GenomeState, config: NeatConfig, draws: MutationDraws)
  {
    (if draws.addLinkRoll < config.probabilityAddLink
     then AddLinkStep(s0, s1, draws.linkSourcePick, draws.linkTargetPick, draws.newLinkWeight)
     else s1 == s0)
    && (if draws.removeLinkRoll < config.probabilityRemoveLink
        then RemoveLinkStep(s1, s2, draws.removeLinkPick)
        else s2 == s1)
    && (if draws.addNeuronRoll < config.probabilityAddNeuron
        then AddNeuronStep(s2, s3, draws.splitPick, draws.newNeuronBias)
        else s3 == s2)
    && (if draws.removeNeuronRoll < config.probabilityRemoveNeuron
        then RemoveNeuronStep(s3, s4, draws.removeNeuronPick)
        else s4 == s3)
    && (if draws.mutateWeight
        then LinkWeightStep(s4, s5, config, draws.perturbPick, draws.perturbRoll, draws.perturbGaussian)
        else NeuronBiasStep(s4, s5, config, draws.perturbPick, draws.perturbRoll, draws.perturbGaussian))
  }

  /**
   * No mutation step makes two neuron genes share an id: link steps leave
   * the neurons alone, a bias step keeps every id in place, an added neuron
   * gets a fresh id and a removed one takes its id with it.
   */
  lemma MutationStepsKeepUniqueIds(s0: GenomeState, s1: GenomeState, s2: GenomeState, s3: GenomeState,
                                   s4: GenomeState, s5: GenomeState, config: NeatConfig, draws: MutationDraws)
    requires MutationSteps(s0, s1, s2, s3, s4, s5, config, draws)
    ensures UniqueNeuronIds(s0.neurons) ==> UniqueNeuronIds(s5.neurons)
  {
    if !UniqueNeuronIds(s0.neurons) {
      return;
    }
    assert s2.neurons == s0.neurons;
    if draws.addNeuronRoll < config.probabilityAddNeuron {
      AddNeuronStepKeepsUniqueIds(s2, s3, draws.splitPick, draws.newNeuronBias);
    }
    if draws.removeNeuronRoll < config.probabilityRemoveNeuron {
      RemoveNeuronStepKeepsUniqueIds(s3, s4, draws.removeNeuronPick);
    }
    if !draws.mutateWeight {
      forall i, j | 0 <= i < j < |s5.neurons|
        ensures s5.neurons[i].neuronId != s5.neurons[j].neuronId
      {
        assert s5.neurons[i].neuronId == s4.neurons[i].neuronId;
        assert s5.neurons[j].neuronId == s4.neurons[j].neuronId;
      }
    }
  }

  /**
   * Mutator::mutate: each structural operator runs when its roll falls below
   * its probability, then a coin chooses between a weight and a bias
   * perturbation. The ghost states s1 to s4 are the genes in between; the
   * genome stays well formed and its neuron ids stay distinct.
   */
  method Mutate(g: Genome, config: NeatConfig, draws: MutationDraws)
    returns (ghost s1: GenomeState, ghost s2: GenomeState, ghost s3: GenomeState, ghost s4: GenomeState)
    modifies g`neurons, g`links
    ensures MutationSteps(GenomeState(old(g.neurons), old(g.links)), s1, s2, s3, s4, GenomeState(g.neurons, g.links), config, draws)
    ensures WellFormed(old(g.neurons), old(g.links)) ==> WellFormed(g.neurons, g.links)
    ensures UniqueNeuronIds(old(g.neurons)) ==> UniqueNeuronIds(g.neurons)
    ensures draws.addLinkRoll >= config.probabilityAddLink && draws.removeLinkRoll >= config.probabilityRemoveLink
            && draws.addNeuronRoll >= config.probabilityAddNeuron && draws.removeNeuronRoll >= config.probabilityRemoveNeuron
            ==> NeuronIds(g.neurons) == NeuronIds(old(g.neurons)) && Edges(g.links) == Edges(old(g.links))
    ensures draws.addLinkRoll >= config.probabilityAddLink && draws.removeLinkRoll >= config.probabilityRemoveLink
            && draws.addNeuronRoll >= config.probabilityAddNeuron && draws.removeNeuronRoll >= config.probabilityRemoveNeuron
            && (if draws.mutateWeight then draws.perturbRoll >= config.probabilityMutateLinkWeight
                else draws.perturbRoll >= config.probabilityMutateNeuronBias)
            ==> g.neurons == old(g.neurons) && g.links == old(g.links)
  {
    ghost var s0 := GenomeState(g.neurons, g.links);
    if draws.addLinkRoll < config.probabilityAddLink {
      MutateAddLink(g, draws.linkSourcePick, draws.linkTargetPick, draws.newLinkWeight);
    }
    s1 := GenomeState(g.neurons, g.links);
    if draws.removeLinkRoll < config.probabilityRemoveLink {
      MutateRemoveLink(g, draws.removeLinkPick);
    }
    s2 := GenomeState(g.neurons, g.links);
    if draws.addNeuronRoll < config.probabilityAddNeuron {
      MutateAddNeuron(g, draws.splitPick, draws.newNeuronBias);
    }
    s3 := GenomeState(g.neurons, g.links);
    if draws.removeNeuronRoll < config.probabilityRemoveNeuron {
      MutateRemoveNeuron(g, draws.removeNeuronPick);
    }
    s4 := GenomeState(g.neurons, g.links);
    if draws.mutateWeight {
      MutateLinkWeight(g, config, draws.perturbPick, draws.perturbRoll, draws.perturbGaussian);
    } else {
      MutateNeuronBias(g, config, draws.perturbPick, draws.perturbRoll, draws.perturbGaussian);
    }
  }
}
