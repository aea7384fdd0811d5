/**
 * The layering the network compiler runs before it builds neurons:
 * identify_neuron_layers groups hidden ids by how they are discovered from
 * the inputs, and sort_neurons_by_layer relaxes longest-path levels from a
 * layer's ids and lists every id it reached in level order.
 */
module Layering {
  import opened Genes
  import opened Graphs
  import opened Sorting

  /** v can be reached from one of the seeds (a seed reaches itself). */
  ghost predicate ReachableFrom(E: set<LinkId>, seeds: seq<int>, v: int)
  {
    exists s :: s in seeds && Reaches(E, s, v)
  }

  /** A walk along E that starts at a seed. */
  ghost predicate SeededPath(E: set<LinkId>, seeds: seq<int>, p: seq<int>)
  {
    IsPath(E, p) && p[0] in seeds
  }

  /**
   * levels maps exactly the ids reachable from the seeds, each to the number
   * of links on the longest walk from a seed to it.
   */
  ghost predicate IsLongestPathLevels(levels: map<int, int>, seeds: seq<int>, E: set<LinkId>)
  {
    (forall v :: v in levels <==> ReachableFrom(E, seeds, v))
    && (forall v :: v in levels ==>
          exists p :: SeededPath(E, seeds, p) && p[|p| - 1] == v && |p| - 1 == levels[v])
    && (forall p :: SeededPath(E, seeds, p) ==> p[|p| - 1] in levels && |p| - 1 <= levels[p[|p| - 1]])
  }

  /** The ids a seeded walk can visit: the seeds and the link targets. */
  ghost function Nodes(E: set<LinkId>, seeds: seq<int>): set<int>
  {
    Elems(seeds) + set e | e in E :: e.outputId
  }

  /** The (id, level) pairs still above the current assignment; relaxation only removes pairs. */
  ghost function Pending(levels: map<int, int>, U: set<int>, n: int): set<(int, int)>
  {
    set v, k | v in U && 0 <= k < n && (v !in levels || levels[v] < k) :: (v, k)
  }

  /** Every relaxed level is witnessed by a seeded walk of that length. */
  ghost predicate Witnessed(levels: map<int, int>, paths: map<int, seq<int>>, seeds: seq<int>, E: set<LinkId>)
  {
    forall v :: v in levels ==>
      v in paths && SeededPath(E, seeds, paths[v]) && paths[v][|paths[v]| - 1] == v
      && |paths[v]| - 1 == levels[v]
  }

  /** No link leaving a levelled id can still raise its target. */
  ghost predicate Relaxed(levels: map<int, int>, E: set<LinkId>)
  {
    forall e :: e in E && e.inputId in levels ==>
      e.outputId in levels && levels[e.outputId] >= levels[e.inputId] + 1
  }

  lemma SeededPathInNodes(E: set<LinkId>, seeds: seq<int>, p: seq<int>)
    requires SeededPath(E, seeds, p)
    ensures forall i :: 0 <= i < |p| ==> p[i] in Nodes(E, seeds)
  {
    forall i | 0 < i < |p|
      ensures p[i] in Nodes(E, seeds)
    {
      PathStep(E, p, i - 1);
      assert LinkId(p[i - 1], p[i]) in E;
    }
  }

  /** Under simple walks, a seeded walk is no longer than the node count. */
  lemma SeededPathBound(E: set<LinkId>, seeds: seq<int>, p: seq<int>)
    requires SimplePathsFrom(E, seeds) && SeededPath(E, seeds, p)
    ensures |p| <= |Nodes(E, seeds)|
  {
    SeededPathInNodes(E, seeds, p);
    SimplePathBound(p, Nodes(E, seeds));
  }

  /** Along a seeded walk, relaxed levels grow by at least one per link. */
  lemma {:induction false} RelaxedBound(E: set<LinkId>, seeds: seq<int>, levels: map<int, int>, p: seq<int>)
    requires Relaxed(levels, E) && (forall s :: s in seeds ==> s in levels && levels[s] >= 0)
    requires SeededPath(E, seeds, p)
    ensures p[|p| - 1] in levels && |p| - 1 <= levels[p[|p| - 1]]
    decreases |p|
  {
    if |p| > 1 {
      var q := p[..|p| - 1];
      PathSlice(E, p, 0, |p| - 1);
      RelaxedBound(E, seeds, levels, q);
      PathStep(E, p, |p| - 2);
    }
  }

  /** A witnessed, relaxed assignment that covers the seeds is the longest-path assignment. */
  lemma RelaxedIsLongest(E: set<LinkId>, seeds: seq<int>, levels: map<int, int>, paths: map<int, seq<int>>)
    requires Witnessed(levels, paths, seeds, E) && Relaxed(levels, E)
    requires forall s :: s in seeds ==> s in levels
    ensures IsLongestPathLevels(levels, seeds, E)
  {
    forall s | s in seeds
      ensures levels[s] >= 0
    {
    }
    forall p | SeededPath(E, seeds, p)
      ensures p[|p| - 1] in levels && |p| - 1 <= levels[p[|p| - 1]]
    {
      RelaxedBound(E, seeds, levels, p);
    }
    forall v | ReachableFrom(E, seeds, v)
      ensures v in levels
    {
      var s :| s in seeds && Reaches(E, s, v);
      var p :| IsPath(E, p) && p[0] == s && p[|p| - 1] == v;
      RelaxedBound(E, seeds, levels, p);
    }
    forall v | v in levels
      ensures ReachableFrom(E, seeds, v)
    {
      assert Reaches(E, paths[v][0], v);
    }
  }

  /** One relaxation step keeps the witnesses and removes at least one pending pair. */
  lemma RaiseStep(E: set<LinkId>, seeds: seq<int>, levels: map<int, int>, paths: map<int, seq<int>>, u: int, v: int)
    requires SimplePathsFrom(E, seeds) && Witnessed(levels, paths, seeds, E)
    requires LinkId(u, v) in E && u in levels
    requires v !in levels || levels[v] < levels[u] + 1
    ensures var levels', paths' := levels[v := levels[u] + 1], paths[v := paths[u] + [v]];
      Witnessed(levels', paths', seeds, E)
      && Pending(levels', Nodes(E, seeds), |Nodes(E, seeds)|) < Pending(levels, Nodes(E, seeds), |Nodes(E, seeds)|)
  {
    var U := Nodes(E, seeds);
    var n := |U|;
    var m := levels[u] + 1;
    var levels', paths' := levels[v := m], paths[v := paths[u] + [v]];
    PathExtend(E, paths[u], v);
    assert SeededPath(E, seeds, paths[u] + [v]);
    SeededPathBound(E, seeds, paths[u] + [v]);
    SeededPathInNodes(E, seeds, paths[u] + [v]);
    assert v in U && m < n;
    assert (v, m) in Pending(levels, U, n);
    assert (v, m) !in Pending(levels', U, n);
  }

  /** s lists each id of K exactly once (in some order) and nothing else. */
  ghost predicate ListsOnce(s: seq<int>, K: set<int>)
  {
    forall x :: multiset(s)[x] == if x in K then 1 else 0
  }

  lemma ListsOnceSnoc(s: seq<int>, K: set<int>, v: int)
    requires ListsOnce(s, K) && v !in K
    ensures ListsOnce(s + [v], K + {v})
  {
    assert multiset(s + [v]) == multiset(s) + multiset{v};
  }

  lemma StrictSubsetTrans(a: set<(int, int)>, b: set<(int, int)>, c: set<(int, int)>)
    requires a < b && b <= c
    ensures a < c
  {
    var x :| x in b && x !in a;
  }

  /** The state a relaxation pass keeps between links. */
  ghost predicate PassState(seeds: seq<int>, E: set<LinkId>, levels: map<int, int>, paths: map<int, seq<int>>, keys: seq<int>)
  {
    (forall s :: s in seeds ==> s in levels) && Witnessed(levels, paths, seeds, E) && ListsOnce(keys, levels.Keys)
  }

  /** Raising one target keeps the pass state and removes a pending pair. */
  lemma RaisePreservesState(seeds: seq<int>, E: set<LinkId>, levels: map<int, int>, paths: map<int, seq<int>>, keys: seq<int>, u: int, v: int,
                             levels': map<int, int>, paths': map<int, seq<int>>, keys': seq<int>)
    requires SimplePathsFrom(E, seeds) && PassState(seeds, E, levels, paths, keys)
    requires LinkId(u, v) in E && u in levels
    requires v !in levels || levels[v] < levels[u] + 1
    requires levels' == levels[v := levels[u] + 1] && paths' == paths[v := paths[u] + [v]]
    requires keys' == if v in levels then keys else keys + [v]
    ensures PassState(seeds, E, levels', paths', keys')
    ensures Pending(levels', Nodes(E, seeds), |Nodes(E, seeds)|) < Pending(levels, Nodes(E, seeds), |Nodes(E, seeds)|)
  {
    RaiseStep(E, seeds, levels, paths, u, v);
    if v !in levels {
      ListsOnceSnoc(keys, levels.Keys, v);
      assert levels[v := levels[u] + 1].Keys == levels.Keys + {v};
    } else {
      assert levels[v := levels[u] + 1].Keys == levels.Keys;
    }
  }

  /** None of the first j links can raise its target. */
  ghost predicate CheckedUpTo(links: seq<LinkGene>, levels: map<int, int>, j: int)
    requires 0 <= j <= |links|
  {
    forall k :: 0 <= k < j && links[k].linkId.inputId in levels ==>
      links[k].linkId.outputId in levels
      && levels[links[k].linkId.outputId] >= levels[links[k].linkId.inputId] + 1
  }

  lemma CheckedStep(links: seq<LinkGene>, levels: map<int, int>, j: int)
    requires 0 <= j < |links| && CheckedUpTo(links, levels, j)
    requires links[j].linkId.inputId in levels ==>
               links[j].linkId.outputId in levels
               && levels[links[j].linkId.outputId] >= levels[links[j].linkId.inputId] + 1
    ensures CheckedUpTo(links, levels, j + 1)
  {
  }

  /** A pass that checked every link without raising anything leaves the levels relaxed. */
  lemma PassClosure(links: seq<LinkGene>, levels: map<int, int>)
    requires CheckedUpTo(links, levels, |links|)
    ensures Relaxed(levels, Edges(links))
  {
    forall e | e in Edges(links) && e.inputId in levels
      ensures e.outputId in levels && levels[e.outputId] >= levels[e.inputId] + 1
    {
      var l :| l in links && l.linkId == e;
      var k :| 0 <= k < |links| && links[k] == l;
    }
  }

  /**
   * The body of a relaxation pass for link j: a target below one past its
   * levelled source is raised (and recorded in keys the first time it gets a
   * level); otherwise nothing changes and the link cannot raise its target.
   */
  method RelaxLink(seeds: seq<int>, links: seq<LinkGene>, j: int,
                   levels: map<int, int>, ghost paths: map<int, seq<int>>, keys: seq<int>)
    returns (levels': map<int, int>, ghost paths': map<int, seq<int>>, keys': seq<int>, raised: bool)
    requires 0 <= j < |links|
    requires SimplePathsFrom(Edges(links), seeds)
    requires PassState(seeds, Edges(links), levels, paths, keys)
    ensures PassState(seeds, Edges(links), levels', paths', keys')
    ensures raised ==> Pending(levels', Nodes(Edges(links), seeds), |Nodes(Edges(links), seeds)|)
                       < Pending(levels, Nodes(Edges(links), seeds), |Nodes(Edges(links), seeds)|)
    ensures !raised ==> levels' == levels && keys' == keys && paths' == paths
    ensures !raised && links[j].linkId.inputId in levels ==>
              links[j].linkId.outputId in levels
              && levels[links[j].linkId.outputId] >= levels[links[j].linkId.inputId] + 1
  {
    var inputNeuron := links[j].linkId.inputId;
    var outputNeuron := links[j].linkId.outputId;
    if inputNeuron !in levels || (outputNeuron in levels && levels[outputNeuron] >= levels[inputNeuron] + 1) {
      return levels, paths, keys, false;
    }
    var expectedOutputLayer := levels[inputNeuron] + 1;
    assert links[j] in links;
    keys' := if outputNeuron in levels then keys else keys + [outputNeuron];
    levels' := levels[outputNeuron := expectedOutputLayer];
    paths' := paths[outputNeuron := paths[inputNeuron] + [outputNeuron]];
    RaisePreservesState(seeds, Edges(links), levels, paths, keys, inputNeuron, outputNeuron, levels', paths', keys');
    raised := true;
  }

  /**
   * One pass of the relaxation over every link, in order. keys records the
   * ids in the order they first receive a level, standing for the
   * unordered map's iteration order.
   */
  method RelaxPass(seeds: seq<int>, links: seq<LinkGene>, start: map<int, int>, ghost startPaths: map<int, seq<int>>, startKeys: seq<int>)
    returns (levels: map<int, int>, ghost paths: map<int, seq<int>>, keys: seq<int>, changed: bool)
    requires SimplePathsFrom(Edges(links), seeds)
    requires PassState(seeds, Edges(links), start, startPaths, startKeys)
    ensures PassState(seeds, Edges(links), levels, paths, keys)
    ensures changed ==> Pending(levels, Nodes(Edges(links), seeds), |Nodes(Edges(links), seeds)|)
                        < Pending(start, Nodes(Edges(links), seeds), |Nodes(Edges(links), seeds)|)
    ensures !changed ==> levels == start && keys == startKeys && Relaxed(levels, Edges(links))
  {
    ghost var U := Nodes(Edges(links), seeds);
    ghost var pendingAtStart := Pending(start, U, |U|);
    levels, paths, keys, changed := start, startPaths, startKeys, false;
    for j := 0 to |links|
      invariant PassState(seeds, Edges(links), levels, paths, keys)
      invariant changed ==> Pending(levels, U, |U|) < pendingAtStart
      invariant !changed ==> levels == start && keys == startKeys
      invariant !changed ==> CheckedUpTo(links, levels, j)
    {
      ghost var before := Pending(levels, U, |U|);
      var raised;
      levels, paths, keys, raised := RelaxLink(seeds, links, j, levels, paths, keys);
      if raised {
        if changed {
          StrictSubsetTrans(Pending(levels, U, |U|), before, pendingAtStart);
        }
        changed := true;
      } else if !changed {
        CheckedStep(links, levels, j);
      }
    }
    if !changed {
      PassClosure(links, levels);
    }
  }

  /**
   * The relaxation shared by sort_neurons_by_layer and
   * LayerManager::sort_by_layer: the seeds start at level 0, then passes over
   * every link raise a target to one past its source until a pass changes
   * nothing. The loop ends only when no walk from a seed repeats an id.
   * keys lists the levelled ids once each, in the order they were first
   * levelled.
   */
  method RelaxLevels(seeds: seq<int>, links: seq<LinkGene>) returns (levels: map<int, int>, keys: seq<int>)
    requires SimplePathsFrom(Edges(links), seeds)
    ensures IsLongestPathLevels(levels, seeds, Edges(links))
    ensures ListsOnce(keys, levels.Keys)
  {
    ghost var E := Edges(links);
    ghost var U := Nodes(E, seeds);
    ghost var paths: map<int, seq<int>> := map[];
    levels, keys := map[], [];
    for i := 0 to |seeds|
      invariant forall s :: s in seeds[..i] ==> s in levels
      invariant forall v :: v in levels ==> v in seeds
      invariant Witnessed(levels, paths, seeds, E)
      invariant ListsOnce(keys, levels.Keys)
    {
      if seeds[i] !in levels {
        ListsOnceSnoc(keys, levels.Keys, seeds[i]);
        keys := keys + [seeds[i]];
      }
      assert levels[seeds[i] := 0].Keys == levels.Keys + {seeds[i]};
      levels := levels[seeds[i] := 0];
      paths := paths[seeds[i] := [seeds[i]]];
    }
    assert seeds[..|seeds|] == seeds;
    var changed := true;
    while changed
      invariant PassState(seeds, E, levels, paths, keys)
      invariant !changed ==> Relaxed(levels, E)
      decreases Pending(levels, U, |U|), if changed then 1 else 0
    {
      levels, paths, keys, changed := RelaxPass(seeds, links, levels, paths, keys);
    }
    RelaxedIsLongest(E, seeds, levels, paths);
  }

  /** Longest-path levels rise by at least one along every link out of a levelled id. */
  lemma LevelsRiseAlongLinks(levels: map<int, int>, seeds: seq<int>, E: set<LinkId>, u: int, v: int)
    requires IsLongestPathLevels(levels, seeds, E)
    requires u in levels && LinkId(u, v) in E
    ensures v in levels && levels[v] >= levels[u] + 1
  {
    var p :| SeededPath(E, seeds, p) && p[|p| - 1] == u && |p| - 1 == levels[u];
    PathExtend(E, p, v);
    assert SeededPath(E, seeds, p + [v]);
  }

  /** Seeds get level 0 exactly when no longer walk reaches them. */
  lemma LevelsAreNonNegative(levels: map<int, int>, seeds: seq<int>, E: set<LinkId>)
    requires IsLongestPathLevels(levels, seeds, E)
    ensures forall v :: v in levels ==> levels[v] >= 0
    ensures forall s :: s in seeds ==> s in levels
  {
    forall s | s in seeds
      ensures s in levels
    {
      assert SeededPath(E, seeds, [s]);
    }
  }

  /** There is only one longest-path assignment for given seeds and links. */
  lemma LongestPathLevelsUnique(a: map<int, int>, b: map<int, int>, seeds: seq<int>, E: set<LinkId>)
    requires IsLongestPathLevels(a, seeds, E) && IsLongestPathLevels(b, seeds, E)
    ensures a == b
  {
    forall v | v in a
      ensures v in b && a[v] <= b[v]
    {
      var p :| SeededPath(E, seeds, p) && p[|p| - 1] == v && |p| - 1 == a[v];
    }
    forall v | v in b
      ensures v in a && b[v] <= a[v]
    {
      var q :| SeededPath(E, seeds, q) && q[|q| - 1] == v && |q| - 1 == b[v];
    }
    assert a.Keys == b.Keys;
  }

  /** s lists each key of levels once, in non-decreasing level order. */
  ghost predicate IsLevelOrder(s: seq<int>, levels: map<int, int>)
  {
    ListsOnce(s, levels.Keys)
    && forall i, j :: 0 <= i < j < |s| ==> s[i] in levels && s[j] in levels && levels[s[i]] <= levels[s[j]]
  }

  /** The level of an id as a sort key (ids without a level sort as level 0). */
  function LevelKey(levels: map<int, int>): int -> real
  {
    v => if v in levels then levels[v] as real else 0.0
  }

  lemma LevelKeyOf(levels: map<int, int>, v: int)
    requires v in levels
    ensures LevelKey(levels)(v) == levels[v] as real
  {
  }

  lemma ListedAreKeys(s: seq<int>, K: set<int>, i: int)
    requires ListsOnce(s, K) && 0 <= i < |s|
    ensures s[i] in K
  {
    var x := s[i];
    assert x in multiset(s);
  }

  /** Sorting by LevelKey orders a list of levelled ids by level. */
  lemma SortedByLevel(s: seq<int>, levels: map<int, int>)
    requires SortedBy(s, LevelKey(levels)) && ListsOnce(s, levels.Keys)
    ensures IsLevelOrder(s, levels)
  {
    forall i, j | 0 <= i < j < |s|
      ensures s[i] in levels && s[j] in levels && levels[s[i]] <= levels[s[j]]
    {
      SortedPairByLevel(s, levels, i, j);
    }
  }

  lemma SortedPairByLevel(s: seq<int>, levels: map<int, int>, i: int, j: int)
    requires SortedBy(s, LevelKey(levels)) && ListsOnce(s, levels.Keys) && 0 <= i < j < |s|
    ensures s[i] in levels && s[j] in levels && levels[s[i]] <= levels[s[j]]
  {
    ListedAreKeys(s, levels.Keys, i);
    ListedAreKeys(s, levels.Keys, j);
    LevelKeyOf(levels, s[i]);
    LevelKeyOf(levels, s[j]);
  }

  /** The source of every link between two listed ids is listed before its target. */
  ghost predicate TopologicalOrder(s: seq<int>, E: set<LinkId>)
  {
    forall i, j :: 0 <= i < |s| && 0 <= j < |s| && LinkId(s[i], s[j]) in E ==> i < j
  }

  /** A level order of the longest-path levels lists exactly the ids reachable from the seeds. */
  lemma LevelOrderListsReachable(s: seq<int>, levels: map<int, int>, seeds: seq<int>, E: set<LinkId>)
    requires IsLongestPathLevels(levels, seeds, E) && IsLevelOrder(s, levels)
    ensures forall v :: v in s <==> ReachableFrom(E, seeds, v)
  {
    forall v
      ensures v in s <==> v in levels
    {
      assert v in s <==> v in multiset(s);
    }
  }

  /** A level order of the longest-path levels puts the source of every link before its target. */
  lemma LevelOrderIsTopological(s: seq<int>, levels: map<int, int>, seeds: seq<int>, E: set<LinkId>)
    requires IsLongestPathLevels(levels, seeds, E) && IsLevelOrder(s, levels)
    ensures TopologicalOrder(s, E)
  {
    forall i, j | 0 <= i < |s| && 0 <= j < |s| && LinkId(s[i], s[j]) in E
      ensures i < j
    {
      LinkSourceFirst(s, levels, seeds, E, i, j);
    }
  }

  lemma LinkSourceFirst(s: seq<int>, levels: map<int, int>, seeds: seq<int>, E: set<LinkId>, i: int, j: int)
    requires IsLongestPathLevels(levels, seeds, E) && IsLevelOrder(s, levels)
    requires 0 <= i < |s| && 0 <= j < |s| && LinkId(s[i], s[j]) in E
    ensures i < j
  {
    ListedAreKeys(s, levels.Keys, i);
    LevelsRiseAlongLinks(levels, seeds, E, s[i], s[j]);
  }

  /**
   * sort_neurons_by_layer: relaxes levels from the layer's ids and returns
   * every id that received a level, ordered by level. std::sort's order
   * among equal levels is left open.
   */
  method SortNeuronsByLayer(layer: seq<int>, outputs: seq<int>, links: seq<LinkGene>)
    returns (sorted: seq<int>, ghost levels: map<int, int>)
    requires SimplePathsFrom(Edges(links), layer)
    ensures IsLongestPathLevels(levels, layer, Edges(links))
    ensures IsLevelOrder(sorted, levels)
    ensures forall v :: v in sorted <==> ReachableFrom(Edges(links), layer, v)
    ensures TopologicalOrder(sorted, Edges(links))
  {
    var neuronLayers, collected := RelaxLevels(layer, links);
    levels := neuronLayers;
    sorted := SortBy(collected, LevelKey(neuronLayers));
    SortedByLevel(sorted, levels);
    LevelOrderListsReachable(sorted, levels, layer, Edges(links));
    LevelOrderIsTopological(sorted, levels, layer, Edges(links));
  }

  /** Concatenation of a list of layers, in order. */
  function Flatten(layers: seq<seq<int>>): seq<int>
  {
    if layers == [] then []
    else
      var k := |layers| - 1;
      Flatten(layers[..k]) + layers[k]
  }

  /** What identify_neuron_layers guarantees about the layers it returns. */
  ghost predicate IsLayering(layers: seq<seq<int>>, inputs: seq<int>, outputs: seq<int>, E: set<LinkId>)
  {
    |layers| >= 2 && layers[0] == inputs && layers[|layers| - 1] == outputs
    && (forall k :: 1 <= k < |layers| - 1 ==> |layers[k]| > 0)
    && var middle := Flatten(layers[1..|layers| - 1]);
       Distinct(middle)
       && (forall v :: v in middle ==> v !in inputs && v !in outputs && ReachableFrom(E, inputs, v))
       && (forall i :: 0 <= i < |middle| ==>
             exists u :: (u in inputs || u in middle[..i]) && LinkId(u, middle[i]) in E)
       && (forall e :: e in E && (e.inputId in inputs || e.inputId in middle) ==>
             e.outputId in inputs || e.outputId in middle || e.outputId in outputs)
  }

  /** Every layer after the first is non-empty. */
  ghost predicate LayersNonEmpty(layers: seq<seq<int>>)
  {
    forall k :: 1 <= k < |layers| ==> |layers[k]| > 0
  }

  lemma LayersNonEmptySnoc(layers: seq<seq<int>>, layer: seq<int>)
    requires LayersNonEmpty(layers) && |layer| > 0
    ensures LayersNonEmpty(layers + [layer])
  {
    forall k | 1 <= k < |layers + [layer]|
      ensures |(layers + [layer])[k]| > 0
    {
      if k < |layers| {
        assert (layers + [layer])[k] == layers[k];
      }
    }
  }

  /** Once no pass adds a layer, appending the outputs completes a layering. */
  lemma FinishLayering(layers: seq<seq<int>>, inputs: seq<int>, outputs: seq<int>, E: set<LinkId>,
                       middle: seq<int>, known: set<int>)
    requires |layers| >= 1 && layers[0] == inputs && LayersNonEmpty(layers)
    requires middle == Flatten(layers[1..])
    requires known == Elems(inputs) + Elems(middle)
    requires Discovered(middle, inputs, outputs, E)
    requires forall e :: e in E && e.inputId in known ==> e.outputId in known || e.outputId in outputs
    ensures IsLayering(layers + [outputs], inputs, outputs, E)
  {
    var all := layers + [outputs];
    assert all[0] == inputs && all[|all| - 1] == outputs;
    assert all[1..|all| - 1] == layers[1..];
    assert Flatten(all[1..|all| - 1]) == middle;
    forall k | 1 <= k < |all| - 1
      ensures |all[k]| > 0
    {
      assert all[k] == layers[k];
    }
    forall e | e in E && (e.inputId in inputs || e.inputId in middle)
      ensures e.outputId in inputs || e.outputId in middle || e.outputId in outputs
    {
      assert e.inputId in known;
    }
  }

  lemma FlattenSnoc(layers: seq<seq<int>>, layer: seq<int>)
    ensures Flatten(layers + [layer]) == Flatten(layers) + layer
  {
    assert (layers + [layer])[..|layers|] == layers;
  }

  /** A link out of an id reachable from the seeds leads to an id reachable from them. */
  lemma ReachableStep(E: set<LinkId>, seeds: seq<int>, u: int, v: int)
    requires ReachableFrom(E, seeds, u) && LinkId(u, v) in E
    ensures ReachableFrom(E, seeds, v)
  {
    var s :| s in seeds && Reaches(E, s, u);
    var p :| IsPath(E, p) && p[0] == s && p[|p| - 1] == u;
    PathExtend(E, p, v);
    assert (p + [v])[0] == s && (p + [v])[|p + [v]| - 1] == v;
  }

  lemma SeedReachable(E: set<LinkId>, seeds: seq<int>, s: int)
    requires s in seeds
    ensures ReachableFrom(E, seeds, s)
  {
    assert IsPath(E, [s]);
  }

  /** The invariant of the discovery passes, over the inputs and the ids discovered so far. */
  ghost predicate Discovered(middle: seq<int>, inputs: seq<int>, outputs: seq<int>, E: set<LinkId>)
  {
    Distinct(middle)
    && (forall v :: v in middle ==> v !in inputs && v !in outputs && ReachableFrom(E, inputs, v))
    && (forall i :: 0 <= i < |middle| ==>
          exists u :: (u in inputs || u in middle[..i]) && LinkId(u, middle[i]) in E)
  }

  lemma DiscoverStep(middle: seq<int>, inputs: seq<int>, outputs: seq<int>, E: set<LinkId>, u: int, v: int)
    requires Discovered(middle, inputs, outputs, E)
    requires (u in inputs || u in middle) && LinkId(u, v) in E
    requires v !in inputs && v !in middle && v !in outputs
    ensures Discovered(middle + [v], inputs, outputs, E)
  {
    var m := middle + [v];
    if u in inputs {
      SeedReachable(E, inputs, u);
    }
    ReachableStep(E, inputs, u, v);
    forall i | 0 <= i < |m|
      ensures exists w :: (w in inputs || w in m[..i]) && LinkId(w, m[i]) in E
    {
      if i < |middle| {
        var w :| (w in inputs || w in middle[..i]) && LinkId(w, middle[i]) in E;
        assert m[..i] == middle[..i];
      } else {
        assert m[..i] == middle;
        assert (u in inputs || u in m[..i]) && LinkId(u, m[i]) in E;
      }
    }
  }

  lemma ElemsSnoc(s: seq<int>, x: int)
    ensures Elems(s + [x]) == Elems(s) + {x}
  {
    assert forall y :: y in s + [x] <==> y in s || y == x;
  }

  /** Every one of the first j links out of an id in `from` leads to an id in `to` or an output. */
  ghost predicate Covered(links: seq<LinkGene>, from: set<int>, to: set<int>, outputs: seq<int>, j: int)
    requires 0 <= j <= |links|
  {
    forall k :: 0 <= k < j && links[k].linkId.inputId in from ==>
      links[k].linkId.outputId in to || links[k].linkId.outputId in outputs
  }

  lemma CoveredStep(links: seq<LinkGene>, from: set<int>, to: set<int>, to': set<int>, outputs: seq<int>, j: int)
    requires 0 <= j < |links| && Covered(links, from, to, outputs, j) && to <= to'
    requires links[j].linkId.inputId in from ==>
               links[j].linkId.outputId in to' || links[j].linkId.outputId in outputs
    ensures Covered(links, from, to', outputs, j + 1)
  {
  }

  lemma CoveredAll(links: seq<LinkGene>, from: set<int>, to: set<int>, outputs: seq<int>)
    requires Covered(links, from, to, outputs, |links|)
    ensures forall e :: e in Edges(links) && e.inputId in from ==> e.outputId in to || e.outputId in outputs
  {
    forall e | e in Edges(links) && e.inputId in from
      ensures e.outputId in to || e.outputId in outputs
    {
      var l :| l in links && l.linkId == e;
      var k :| 0 <= k < |links| && links[k] == l;
    }
  }

  /**
   * One discovery pass of identify_neuron_layers over every link, in order:
   * the new layer, and the known ids after the pass.
   */
  method DiscoveryPass(inputs: seq<int>, outputs: seq<int>, links: seq<LinkGene>, outputNeurons: set<int>,
                       known: set<int>, ghost middle: seq<int>)
    returns (newLayer: seq<int>, knownNeurons: set<int>, addedNewLayer: bool)
    requires outputNeurons == Elems(outputs)
    requires known == Elems(inputs) + Elems(middle) && known <= Nodes(Edges(links), inputs)
    requires Discovered(middle, inputs, outputs, Edges(links))
    ensures knownNeurons == Elems(inputs) + Elems(middle + newLayer)
    ensures Discovered(middle + newLayer, inputs, outputs, Edges(links))
    ensures addedNewLayer <==> |newLayer| > 0
    ensures known <= knownNeurons <= Nodes(Edges(links), inputs)
    ensures addedNewLayer ==> knownNeurons != known
    ensures forall e :: e in Edges(links) && e.inputId in known ==> e.outputId in knownNeurons || e.outputId in outputs
    ensures !addedNewLayer ==> forall e :: e in Edges(links) && e.inputId in knownNeurons ==>
              e.outputId in knownNeurons || e.outputId in outputs
  {
    ghost var E := Edges(links);
    knownNeurons, newLayer, addedNewLayer := known, [], false;
    assert middle + newLayer == middle;
    for j := 0 to |links|
      invariant knownNeurons == Elems(inputs) + Elems(middle + newLayer)
      invariant Discovered(middle + newLayer, inputs, outputs, E)
      invariant addedNewLayer <==> |newLayer| > 0
      invariant known <= knownNeurons <= Nodes(E, inputs)
      invariant addedNewLayer ==> knownNeurons != known
      invariant !addedNewLayer ==> knownNeurons == known
      invariant Covered(links, known, knownNeurons, outputs, j)
    {
      ghost var knownBefore := knownNeurons;
      var link := links[j];
      assert link in links;
      if link.linkId.inputId in knownNeurons && link.linkId.outputId !in knownNeurons
         && link.linkId.outputId !in outputNeurons {
        DiscoverStep(middle + newLayer, inputs, outputs, E, link.linkId.inputId, link.linkId.outputId);
        assert middle + newLayer + [link.linkId.outputId] == middle + (newLayer + [link.linkId.outputId]);
        ElemsSnoc(middle + newLayer, link.linkId.outputId);
        newLayer := newLayer + [link.linkId.outputId];
        knownNeurons := knownNeurons + {link.linkId.outputId};
        addedNewLayer := true;
      }
      CoveredStep(links, known, knownBefore, knownNeurons, outputs, j);
    }
    CoveredAll(links, known, knownNeurons, outputs);
  }

  /**
   * identify_neuron_layers (and LayerManager::organize_layers, which is the
   * same code): the inputs first; then, pass after pass over the links, each
   * id not yet known and not an output that a known id links to joins the
   * pass's layer (and is known at once); the outputs last.
   */
  method IdentifyNeuronLayers(inputs: seq<int>, outputs: seq<int>, links: seq<LinkGene>)
    returns (layers: seq<seq<int>>)
    ensures IsLayering(layers, inputs, outputs, Edges(links))
  {
    ghost var E := Edges(links);
    ghost var U := Nodes(E, inputs);
    var knownNeurons := Elems(inputs);
    var outputNeurons := Elems(outputs);
    layers := [inputs];
    ghost var middle: seq<int> := [];
    var addedNewLayer := true;
    while addedNewLayer
      invariant |layers| >= 1 && layers[0] == inputs
      invariant LayersNonEmpty(layers)
      invariant middle == Flatten(layers[1..])
      invariant knownNeurons == Elems(inputs) + Elems(middle)
      invariant Discovered(middle, inputs, outputs, E)
      invariant !addedNewLayer ==> forall e :: e in E && e.inputId in knownNeurons ==>
                  e.outputId in knownNeurons || e.outputId in outputs
      invariant knownNeurons <= U
      decreases U - knownNeurons, if addedNewLayer then 1 else 0
    {
      var newLayer;
      newLayer, knownNeurons, addedNewLayer := DiscoveryPass(inputs, outputs, links, outputNeurons, knownNeurons, middle);
      if |newLayer| > 0 {
        FlattenSnoc(layers[1..], newLayer);
        assert (layers + [newLayer])[1..] == layers[1..] + [newLayer];
        LayersNonEmptySnoc(layers, newLayer);
        layers := layers + [newLayer];
        middle := middle + newLayer;
      } else {
        assert middle + newLayer == middle;
      }
    }
    FinishLayering(layers, inputs, outputs, E, middle, knownNeurons);
    layers := layers + [outputs];
  }

  /** Every walk from an id the seeds reach is a tail of a walk from a seed. */
  lemma SimpleFromReachable(E: set<LinkId>, seeds: seq<int>, layer: seq<int>)
    requires SimplePathsFrom(E, seeds)
    requires forall v :: v in layer ==> ReachableFrom(E, seeds, v)
    ensures SimplePathsFrom(E, layer)
  {
    forall p | IsPath(E, p) && p[0] in layer
      ensures Distinct(p)
    {
      var s :| s in seeds && Reaches(E, s, p[0]);
      var q :| IsPath(E, q) && q[0] == s && q[|q| - 1] == p[0];
      PathJoin(E, q, p);
      var r := q + p[1..];
      assert r[0] == s;
      forall i, j | 0 <= i < j < |p|
        ensures p[i] != p[j]
      {
        assert p[i] == r[|q| - 1 + i] && p[j] == r[|q| - 1 + j];
      }
    }
  }

  lemma {:induction false} FlattenMember(layers: seq<seq<int>>, k: int, v: int)
    requires 0 <= k < |layers| && v in layers[k]
    ensures v in Flatten(layers)
    decreases |layers|
  {
    var n := |layers| - 1;
    if k < n {
      FlattenMember(layers[..n], k, v);
    }
  }

  /** Each identified layer's walks are simple when those from the inputs and outputs are. */
  lemma LayerWalksSimple(layers: seq<seq<int>>, inputs: seq<int>, outputs: seq<int>, E: set<LinkId>, k: int)
    requires IsLayering(layers, inputs, outputs, E) && 0 <= k < |layers|
    requires SimplePathsFrom(E, inputs) && SimplePathsFrom(E, outputs)
    ensures SimplePathsFrom(E, layers[k])
  {
    if 0 < k < |layers| - 1 {
      var middle := Flatten(layers[1..|layers| - 1]);
      forall v | v in layers[k]
        ensures ReachableFrom(E, inputs, v)
      {
        FlattenMember(layers[1..|layers| - 1], k - 1, v);
      }
      SimpleFromReachable(E, inputs, layers[k]);
    }
  }

  /** One layer of feed_forward_layer's result: its longest-walk levels and an ordering by them. */
  ghost predicate LayerSorted(sorted: seq<int>, levels: map<int, int>, layer: seq<int>, E: set<LinkId>)
  {
    IsLongestPathLevels(levels, layer, E) && IsLevelOrder(sorted, levels)
  }

  /**
   * feed_forward_layer: the identified layers, each replaced by the
   * level-ordered list of every id reachable from it.
   */
  method FeedForwardLayer(inputs: seq<int>, outputs: seq<int>, links: seq<LinkGene>)
    returns (sorted: seq<seq<int>>, ghost layers: seq<seq<int>>, ghost levels: seq<map<int, int>>)
    requires SimplePathsFrom(Edges(links), inputs) && SimplePathsFrom(Edges(links), outputs)
    ensures IsLayering(layers, inputs, outputs, Edges(links))
    ensures |sorted| == |layers| == |levels|
    ensures forall k :: 0 <= k < |layers| ==>
              IsLongestPathLevels(levels[k], layers[k], Edges(links)) && IsLevelOrder(sorted[k], levels[k])
    ensures forall k :: 0 <= k < |sorted| ==> TopologicalOrder(sorted[k], Edges(links))
  {
    var identified := IdentifyNeuronLayers(inputs, outputs, links);
    layers := identified;
    sorted, levels := [], [];
    for k := 0 to |identified|
      invariant |sorted| == k && |levels| == k
      invariant forall i :: 0 <= i < k ==> LayerSorted(sorted[i], levels[i], layers[i], Edges(links))
    {
      LayerWalksSimple(identified, inputs, outputs, Edges(links), k);
      var layer, layerLevels := SortNeuronsByLayer(identified[k], outputs, links);
      assert LayerSorted(layer, layerLevels, layers[k], Edges(links));
      ghost var sortedBefore, levelsBefore := sorted, levels;
      sorted := sorted + [layer];
      levels := levels + [layerLevels];
      forall i | 0 <= i < k + 1
        ensures LayerSorted(sorted[i], levels[i], layers[i], Edges(links))
      {
        if i < k {
          assert sorted[i] == sortedBefore[i] && levels[i] == levelsBefore[i];
        }
      }
    }
    forall k | 0 <= k < |layers|
      ensures IsLongestPathLevels(levels[k], layers[k], Edges(links)) && IsLevelOrder(sorted[k], levels[k])
      ensures TopologicalOrder(sorted[k], Edges(links))
    {
      assert LayerSorted(sorted[k], levels[k], layers[k], Edges(links));
      LevelOrderIsTopological(sorted[k], levels[k], layers[k], Edges(links));
    }
  }
}
