/**
 * Paths, reachability and acyclicity over a set of directed connection keys.
 * These are the notions the genome's cycle checks, the mutation operators and
 * the layering of the compiled network are stated in.
 */
module Graphs {
  import opened Genes

  /** Every connection key of a link list, enabled or not. */
  ghost function Edges(links: seq<LinkGene>): set<LinkId>
  {
    set l | l in links :: l.linkId
  }

  /** The connection keys of the enabled links only. */
  ghost function EnabledEdges(links: seq<LinkGene>): set<LinkId>
  {
    set l | l in links && l.isEnabled :: l.linkId
  }

  lemma EdgesSnoc(links: seq<LinkGene>, l: LinkGene)
    ensures Edges(links + [l]) == Edges(links) + {l.linkId}
    ensures EnabledEdges(links + [l]) == EnabledEdges(links) + (if l.isEnabled then {l.linkId} else {})
  {
    assert forall m :: m in links + [l] <==> m in links || m == l;
  }

  /** The enabled keys are among all keys, so a cycle over enabled links is a cycle over all links. */
  lemma EnabledSubsetOfAll(links: seq<LinkGene>)
    ensures EnabledEdges(links) <= Edges(links)
    ensures Acyclic(Edges(links)) ==> Acyclic(EnabledEdges(links))
  {
    if Acyclic(Edges(links)) {
      AcyclicSubset(EnabledEdges(links), Edges(links));
    }
  }

  /** p is a non-empty walk whose consecutive nodes are joined by keys of E. */
  ghost predicate IsPath(E: set<LinkId>, p: seq<int>)
    decreases |p|
  {
    |p| >= 1 && (|p| == 1 || (LinkId(p[0], p[1]) in E && IsPath(E, p[1..])))
  }

  /** v can be reached from u, in zero or more steps. */
  ghost predicate Reaches(E: set<LinkId>, u: int, v: int)
  {
    exists p :: IsPath(E, p) && p[0] == u && p[|p| - 1] == v
  }

  /** No walk of one step or more returns to where it started. */
  ghost predicate Acyclic(E: set<LinkId>)
  {
    forall p :: IsPath(E, p) && |p| >= 2 ==> p[0] != p[|p| - 1]
  }

  ghost predicate Distinct(p: seq<int>)
  {
    forall i, j :: 0 <= i < j < |p| ==> p[i] != p[j]
  }

  /** Every walk starting at one of the seeds visits each node at most once. */
  ghost predicate SimplePathsFrom(E: set<LinkId>, seeds: seq<int>)
  {
    forall p :: IsPath(E, p) && p[0] in seeds ==> Distinct(p)
  }

  lemma {:induction false} PathStep(E: set<LinkId>, p: seq<int>, i: int)
    requires IsPath(E, p) && 0 <= i < |p| - 1
    ensures LinkId(p[i], p[i + 1]) in E
    decreases |p|
  {
    if i > 0 {
      PathStep(E, p[1..], i - 1);
    }
  }

  lemma {:induction false} PathFromSteps(E: set<LinkId>, p: seq<int>)
    requires |p| >= 1
    requires forall i :: 0 <= i < |p| - 1 ==> LinkId(p[i], p[i + 1]) in E
    ensures IsPath(E, p)
    decreases |p|
  {
    if |p| > 1 {
      forall i | 0 <= i < |p| - 2
        ensures LinkId(p[1..][i], p[1..][i + 1]) in E
      {
        assert p[1..][i] == p[i + 1] && p[1..][i + 1] == p[i + 2];
      }
      PathFromSteps(E, p[1..]);
    }
  }

  /** Any stretch of a walk is a walk. */
  lemma PathSlice(E: set<LinkId>, p: seq<int>, i: int, j: int)
    requires IsPath(E, p) && 0 <= i < j <= |p|
    ensures IsPath(E, p[i..j])
  {
    forall k | 0 <= k < j - i - 1
      ensures LinkId(p[i..j][k], p[i..j][k + 1]) in E
    {
      PathStep(E, p, i + k);
    }
    PathFromSteps(E, p[i..j]);
  }

  /** Two walks that meet end to start join into one. */
  lemma PathJoin(E: set<LinkId>, p: seq<int>, q: seq<int>)
    requires IsPath(E, p) && IsPath(E, q) && p[|p| - 1] == q[0]
    ensures IsPath(E, p + q[1..])
  {
    var r := p + q[1..];
    forall k | 0 <= k < |r| - 1
      ensures LinkId(r[k], r[k + 1]) in E
    {
      if k < |p| - 1 {
        PathStep(E, p, k);
      } else {
        PathStep(E, q, k - |p| + 1);
      }
    }
    PathFromSteps(E, r);
  }

  /** A walk extended by one more key. */
  lemma PathExtend(E: set<LinkId>, p: seq<int>, v: int)
    requires IsPath(E, p) && LinkId(p[|p| - 1], v) in E
    ensures IsPath(E, p + [v])
  {
    PathFromSteps(E, [p[|p| - 1], v]);
    PathJoin(E, p, [p[|p| - 1], v]);
    assert [p[|p| - 1], v][1..] == [v];
  }

  /** A walk over fewer keys is a walk over more keys. */
  lemma {:induction false} PathSubset(E: set<LinkId>, F: set<LinkId>, p: seq<int>)
    requires IsPath(E, p) && E <= F
    ensures IsPath(F, p)
    decreases |p|
  {
    if |p| > 1 {
      PathSubset(E, F, p[1..]);
    }
  }

  /** Removing keys keeps a graph acyclic. */
  lemma AcyclicSubset(E: set<LinkId>, F: set<LinkId>)
    requires Acyclic(F) && E <= F
    ensures Acyclic(E)
  {
    forall p | IsPath(E, p) && |p| >= 2
      ensures p[0] != p[|p| - 1]
    {
      PathSubset(E, F, p);
    }
  }

  lemma ReachesStep(E: set<LinkId>, u: int, v: int, w: int)
    requires LinkId(u, v) in E && Reaches(E, v, w)
    ensures Reaches(E, u, w)
  {
    var p :| IsPath(E, p) && p[0] == v && p[|p| - 1] == w;
    assert ([u] + p)[1..] == p;
    assert IsPath(E, [u] + p);
  }

  /** In an acyclic graph no walk repeats a node. */
  lemma AcyclicPathsAreSimple(E: set<LinkId>, p: seq<int>)
    requires Acyclic(E) && IsPath(E, p)
    ensures Distinct(p)
  {
    forall i, j | 0 <= i < j < |p|
      ensures p[i] != p[j]
    {
      PathSlice(E, p, i, j + 1);
    }
  }

  lemma AcyclicSimpleFrom(E: set<LinkId>, seeds: seq<int>)
    requires Acyclic(E)
    ensures SimplePathsFrom(E, seeds)
  {
    forall p | IsPath(E, p) && p[0] in seeds
      ensures Distinct(p)
    {
      AcyclicPathsAreSimple(E, p);
    }
  }

  /** The set of nodes a sequence visits. */
  function Elems(s: seq<int>): set<int>
  {
    set x | x in s
  }

  lemma {:induction false} DistinctElems(p: seq<int>)
    requires Distinct(p)
    ensures |Elems(p)| == |p|
    decreases |p|
  {
    if |p| > 0 {
      var t := p[1..];
      assert Distinct(t) by {
        forall i, j | 0 <= i < j < |t| ensures t[i] != t[j] {
          assert t[i] == p[i + 1] && t[j] == p[j + 1];
        }
      }
      DistinctElems(t);
      assert Elems(p) == {p[0]} + Elems(t);
      forall k | 0 <= k < |t|
        ensures t[k] != p[0]
      {
        assert t[k] == p[k + 1];
      }
    }
  }

  lemma SubsetCard(A: set<int>, B: set<int>)
    requires A <= B
    ensures |A| <= |B|
  {
    assert B == A + (B - A);
  }

  /** A walk that repeats no node is no longer than the set its nodes come from. */
  lemma SimplePathBound(p: seq<int>, U: set<int>)
    requires Distinct(p) && forall i :: 0 <= i < |p| ==> p[i] in U
    ensures |p| <= |U|
  {
    DistinctElems(p);
    SubsetCard(Elems(p), U);
  }

  /** A node set closed under the keys holds the end of every walk that starts in it. */
  lemma {:induction false} ClosedSetHoldsWalks(E: set<LinkId>, S: set<int>, p: seq<int>)
    requires IsPath(E, p) && p[0] in S
    requires forall u, v :: u in S && LinkId(u, v) in E ==> v in S
    ensures p[|p| - 1] in S
    decreases |p|
  {
    if |p| > 1 {
      ClosedSetHoldsWalks(E, S, p[1..]);
    }
  }

  /**
   * A walk through E + {a -> b} that is not a walk through E uses the new key:
   * the first time it does, the walk so far stays inside E.
   */
  lemma {:induction false} FirstUse(E: set<LinkId>, a: int, b: int, q: seq<int>) returns (j: int)
    requires IsPath(E + {LinkId(a, b)}, q) && !IsPath(E, q)
    ensures 0 <= j < |q| - 1 && q[j] == a && q[j + 1] == b && IsPath(E, q[..j + 1])
    decreases |q|
  {
    if LinkId(q[0], q[1]) == LinkId(a, b) {
      j := 0;
    } else {
      var j' := FirstUse(E, a, b, q[1..]);
      j := j' + 1;
      assert q[..j + 1][1..] == q[1..][..j' + 1];
    }
  }

  /**
   * Adding the key a -> b to an acyclic graph keeps it acyclic when the two
   * ends differ and a cannot already be reached from b.
   */
  lemma AddEdgeKeepsAcyclic(E: set<LinkId>, a: int, b: int)
    requires Acyclic(E) && a != b && !Reaches(E, b, a)
    ensures Acyclic(E + {LinkId(a, b)})
  {
    var F := E + {LinkId(a, b)};
    forall c | IsPath(F, c) && |c| >= 2
      ensures c[0] != c[|c| - 1]
    {
      if c[0] == c[|c| - 1] && !IsPath(E, c) {
        CycleThroughNewKey(E, a, b, c);
      }
    }
  }

  /** A cycle read from position j + 1 round to position j is again a walk. */
  lemma RotateCycle(F: set<LinkId>, c: seq<int>, j: int) returns (r: seq<int>)
    requires IsPath(F, c) && c[0] == c[|c| - 1] && 0 <= j < |c| - 1
    ensures IsPath(F, r) && r[0] == c[j + 1] && r[|r| - 1] == c[j]
  {
    PathSlice(F, c, j + 1, |c|);
    PathSlice(F, c, 0, j + 1);
    assert c[j + 1..|c|] == c[j + 1..] && c[0..j + 1] == c[..j + 1];
    PathJoin(F, c[j + 1..], c[..j + 1]);
    r := c[j + 1..] + c[..j + 1][1..];
    if j == 0 {
      assert r == c[1..];
    } else {
      assert r[|r| - 1] == c[..j + 1][j];
    }
  }

  /** A cycle that needs the new key a -> b yields a walk from b back to a inside E. */
  lemma CycleThroughNewKey(E: set<LinkId>, a: int, b: int, c: seq<int>)
    requires IsPath(E + {LinkId(a, b)}, c) && !IsPath(E, c) && c[0] == c[|c| - 1]
    ensures Reaches(E, b, a)
  {
    var j := FirstUse(E, a, b, c);
    var r := RotateCycle(E + {LinkId(a, b)}, c, j);
    var w: seq<int>;
    if IsPath(E, r) {
      w := r;
    } else {
      var j2 := FirstUse(E, a, b, r);
      w := r[..j2 + 1];
    }
    assert IsPath(E, w) && w[0] == b && w[|w| - 1] == a;
  }

  /** The walk with every visit to n dropped. */
  function Contract(p: seq<int>, n: int): seq<int>
  {
    if p == [] then [] else (if p[0] == n then [] else [p[0]]) + Contract(p[1..], n)
  }

  /** No key of E starts or ends at n. */
  ghost predicate Untouched(E: set<LinkId>, n: int)
  {
    forall e :: e in E ==> e.inputId != n && e.outputId != n
  }

  /** F keeps keys of E and may add a -> n and n -> b. */
  ghost predicate SplitOf(F: set<LinkId>, E: set<LinkId>, a: int, b: int, n: int)
  {
    forall e :: e in F ==> e in E || e == LinkId(a, n) || e == LinkId(n, b)
  }

  lemma ContractFront(p: seq<int>, n: int)
    requires |p| >= 1 && p[0] != n
    ensures Contract(p, n) == [p[0]] + Contract(p[1..], n)
  {
  }

  lemma {:induction false} ContractLast(p: seq<int>, n: int)
    requires |p| >= 1 && p[|p| - 1] != n
    ensures |Contract(p, n)| >= 1 && Contract(p, n)[|Contract(p, n)| - 1] == p[|p| - 1]
    decreases |p|
  {
    if |p| > 1 {
      ContractLast(p[1..], n);
    }
  }

  /** The only key of F into n is a -> n, and the only key out of n is n -> b. */
  lemma SplitKeysAtN(E: set<LinkId>, F: set<LinkId>, a: int, b: int, n: int, u: int, v: int)
    requires Untouched(E, n) && SplitOf(F, E, a, b, n) && a != n && b != n
    requires LinkId(u, v) in F
    ensures v == n ==> u == a
    ensures u == n ==> v == b
    ensures u != n && v != n ==> LinkId(u, v) in E
  {
  }

  lemma {:induction false} ContractWalk(E: set<LinkId>, F: set<LinkId>, a: int, b: int, n: int, p: seq<int>)
    requires LinkId(a, b) in E && Untouched(E, n) && SplitOf(F, E, a, b, n) && a != n && b != n
    requires IsPath(F, p) && p[0] != n && p[|p| - 1] != n
    ensures IsPath(E, Contract(p, n)) && Contract(p, n)[0] == p[0]
    decreases |p|
  {
    ContractFront(p, n);
    if |p| > 1 {
      var q := p[1..];
      SplitKeysAtN(E, F, a, b, n, p[0], p[1]);
      if p[1] != n {
        ContractWalk(E, F, a, b, n, q);
        assert ([p[0]] + Contract(q, n))[1..] == Contract(q, n);
      } else {
        PathStep(F, p, 1);
        SplitKeysAtN(E, F, a, b, n, p[1], p[2]);
        PathSlice(F, p, 2, |p|);
        assert p[2..|p|] == p[2..] == q[1..];
        ContractWalk(E, F, a, b, n, q[1..]);
        assert Contract(p, n) == [a] + Contract(q[1..], n);
        assert ([a] + Contract(q[1..], n))[1..] == Contract(q[1..], n);
      }
    }
  }

  /** A cycle through F that avoids n at its ends contracts to a cycle through E. */
  lemma ContractCycle(E: set<LinkId>, F: set<LinkId>, a: int, b: int, n: int, c: seq<int>)
    requires LinkId(a, b) in E && Untouched(E, n) && SplitOf(F, E, a, b, n) && a != n && b != n
    requires IsPath(F, c) && |c| >= 2 && c[0] != n && c[0] == c[|c| - 1]
    ensures !Acyclic(E)
  {
    ContractWalk(E, F, a, b, n, c);
    ContractLast(c, n);
    ContractFront(c, n);
    ContractLast(c[1..], n);
    var r := Contract(c, n);
    assert |r| >= 2 && r[0] == r[|r| - 1];
  }

  /**
   * Splitting the key a -> b through a fresh node n (a -> n -> b), while
   * possibly dropping other keys, keeps an acyclic graph acyclic.
   */
  lemma SplitKeepsAcyclic(E: set<LinkId>, F: set<LinkId>, a: int, b: int, n: int)
    requires Acyclic(E) && LinkId(a, b) in E && Untouched(E, n) && SplitOf(F, E, a, b, n)
    ensures Acyclic(F)
  {
    assert a != n && b != n;
    forall c | IsPath(F, c) && |c| >= 2
      ensures c[0] != c[|c| - 1]
    {
      if c[0] == c[|c| - 1] {
        if c[0] != n {
          ContractCycle(E, F, a, b, n, c);
        } else {
          // Rotate the cycle so that it starts and ends at c[1] instead.
          PathStep(F, c, 0);
          PathSlice(F, c, 1, |c|);
          PathExtend(F, c[1..], c[1]);
          var r := c[1..] + [c[1]];
          SplitKeysAtN(E, F, a, b, n, c[0], c[1]);
          ContractCycle(E, F, a, b, n, r);
        }
      }
    }
  }

  /** A rank that every key strictly increases rules out cycles and backward reachability. */
  lemma {:induction false} RankGrowsAlongWalk(E: set<LinkId>, rank: int -> int, p: seq<int>)
    requires forall e :: e in E ==> rank(e.inputId) < rank(e.outputId)
    requires IsPath(E, p) && |p| >= 2
    ensures rank(p[0]) < rank(p[|p| - 1])
    decreases |p|
  {
    if |p| > 2 {
      RankGrowsAlongWalk(E, rank, p[1..]);
    }
  }

  lemma RankedNotReaches(E: set<LinkId>, rank: int -> int, u: int, v: int)
    requires forall e :: e in E ==> rank(e.inputId) < rank(e.outputId)
    requires rank(u) < rank(v)
    ensures !Reaches(E, v, u)
  {
    if Reaches(E, v, u) {
      var p :| IsPath(E, p) && p[0] == v && p[|p| - 1] == u;
      RankGrowsAlongWalk(E, rank, p);
    }
  }

  lemma RankedAcyclic(E: set<LinkId>, rank: int -> int)
    requires forall e :: e in E ==> rank(e.inputId) < rank(e.outputId)
    ensures Acyclic(E)
  {
    forall p | IsPath(E, p) && |p| >= 2
      ensures p[0] != p[|p| - 1]
    {
      RankGrowsAlongWalk(E, rank, p);
    }
  }
}
