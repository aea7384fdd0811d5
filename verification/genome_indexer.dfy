/** GenomeIndexer.cpp: a counter that hands out consecutive genome indices. */
module GenomeIndexing {

  class GenomeIndexer {
    var currentIndex: int
    /** The indices handed out so far, oldest first. */
    ghost var issued: seq<int>

    /** The indices handed out are exactly 0, 1, …, currentIndex - 1. */
    ghost predicate Valid()
      reads this
    {
      currentIndex == |issued| && forall k :: 0 <= k < |issued| ==> issued[k] == k
    }

    /** GenomeIndexer(): starts at index 0. */
    constructor ()
      ensures currentIndex == 0 && issued == [] && Valid()
    {
      currentIndex := 0;
      issued := [];
    }

    /** next: the index before the call; the counter moves up by one. */
    method Next() returns (index: int)
      requires Valid()
      modifies this
      ensures index == old(currentIndex) && currentIndex == old(currentIndex) + 1
      ensures issued == old(issued) + [index] && index !in old(issued)
      ensures Valid()
    {
      index := currentIndex;
      currentIndex := currentIndex + 1;
      issued := issued + [index];
    }
  }
}
