/**
 * LayerManager: the stand-alone copy of the layering steps, with
 * sort_by_layer ordering the given layer itself rather than everything
 * reachable from it.
 */
module LayerManager {
  import opened Genes
  import opened Graphs
  import opened Sorting
  import opened Layering

  /** LayerManager::organize_layers is the same code as identify_neuron_layers. */
  method OrganizeLayers(inputs: seq<int>, outputs: seq<int>, links: seq<LinkGene>)
    returns (layers: seq<seq<int>>)
    ensures IsLayering(layers, inputs, outputs, Edges(links))
  {
    layers := IdentifyNeuronLayers(inputs, outputs, links);
  }

  /** Every listed id has a level and the levels never decrease along the list. */
  ghost predicate InLevelOrder(s: seq<int>, levels: map<int, int>)
  {
    forall i, j :: 0 <= i < j < |s| ==> s[i] in levels && s[j] in levels && levels[s[i]] <= levels[s[j]]
  }

  /** Sorting levelled seeds by LevelKey puts them in level order. */
  lemma SortedSeedsByLevel(layer: seq<int>, levels: map<int, int>)
    requires forall x :: x in layer ==> x in levels
    ensures InLevelOrder(SortBy(layer, LevelKey(levels)), levels)
  {
    var key := LevelKey(levels);
    var s := SortBy(layer, key);
    assert SortedBy(s, key);
    forall i | 0 <= i < |s|
      ensures s[i] in levels && key(s[i]) == levels[s[i]] as real
    {
      assert s[i] in multiset(s);
      assert s[i] in multiset(layer);
      LevelKeyOf(levels, s[i]);
    }
    forall i, j | 0 <= i < j < |s|
      ensures s[i] in levels && s[j] in levels && levels[s[i]] <= levels[s[j]]
    {
      assert key(s[i]) <= key(s[j]);
    }
  }

  /**
   * LayerManager::sort_by_layer: the same relaxation from the layer's ids,
   * then a copy of the layer sorted by level.
   */
  method SortByLayer(layer: seq<int>, links: seq<LinkGene>) returns (sorted: seq<int>, ghost levels: map<int, int>)
    requires SimplePathsFrom(Edges(links), layer)
    ensures IsLongestPathLevels(levels, layer, Edges(links))
    ensures multiset(sorted) == multiset(layer)
    ensures InLevelOrder(sorted, levels)
  {
    var neuronLayers, _ := RelaxLevels(layer, links);
    levels := neuronLayers;
    LevelsAreNonNegative(levels, layer, Edges(links));
    SortedSeedsByLevel(layer, neuronLayers);
    sorted := SortBy(layer, LevelKey(neuronLayers));
  }
}
