/**
 * Domain/range compatibility over the ontology's subclass relation (recommendations.py,
 * `_is_descendent_of`, `_has_ancestor_in`, `_has_intersection`).
 */
module Subclass {
  import opened Wrappers

  /**
   * The `rdfs:subClassOf` triples of the graph whose object is a URI, as (str(subject), object)
   * pairs in graph order. The scan looks objects up as a `URIRef`, which never matches a blank
   * node, so triples with a blank-node object are not among the edges.
   */
  type Edges = seq<(string, string)>

  /**
   * A ranking that places every subclass strictly below its superclass: the relation has no
   * cycle. The source's unguarded recursion stops on every acyclic relation; the model asks
   * this of the whole relation, not only of the part a scan reaches.
   */
  ghost predicate EdgesRanked(edges: Edges, rank: map<string, nat>) {
    forall e :: e in edges ==> e.0 in rank && e.1 in rank && rank[e.0] < rank[e.1]
  }

  ghost function Height(rank: map<string, nat>, s: string): nat {
    if s in rank then rank[s] + 1 else 0
  }

  /**
   * `_is_descendent_of(classe, super_classe)`: some direct subclass of `sup` is `classe` or has
   * `classe` among its descendants. The entity may be absent (`None`), which equals no subject.
   */
  function IsDescendentOf(edges: Edges, classe: Option<string>, sup: string, ghost rank: map<string, nat>): bool
    requires EdgesRanked(edges, rank)
    decreases Height(rank, sup), 1
  {
    ScanSubjects(edges, classe, sup, 0, rank)
  }

  /** The loop over `graph.subjects(subClassOf, sup)` from position `i` of the graph on. */
  function ScanSubjects(edges: Edges, classe: Option<string>, sup: string, i: nat, ghost rank: map<string, nat>): bool
    requires EdgesRanked(edges, rank) && i <= |edges|
    decreases Height(rank, sup), 0, |edges| - i
  {
    if i == |edges| then false
    else if edges[i].1 == sup && (Some(edges[i].0) == classe || IsDescendentOf(edges, classe, edges[i].0, rank)) then true
    else ScanSubjects(edges, classe, sup, i + 1, rank)
  }

  /** A chain of one or more subclass edges, from `p[0]` up to its last element. */
  ghost predicate SubclassChain(edges: Edges, p: seq<string>) {
    |p| >= 2 && forall i :: 0 <= i < |p| - 1 ==> (p[i], p[i + 1]) in edges
  }

  /** `_is_descendent_of` is reachability by one or more subclass edges. */
  lemma DescendentIffChain(edges: Edges, c: string, sup: string, rank: map<string, nat>)
    requires EdgesRanked(edges, rank)
    ensures IsDescendentOf(edges, Some(c), sup, rank) <==>
      exists p :: SubclassChain(edges, p) && p[0] == c && p[|p| - 1] == sup
  {
    if IsDescendentOf(edges, Some(c), sup, rank) {
      var p := DescendentChain(edges, c, sup, rank);
    }
    if exists p :: SubclassChain(edges, p) && p[0] == c && p[|p| - 1] == sup {
      var p :| SubclassChain(edges, p) && p[0] == c && p[|p| - 1] == sup;
      ChainDescendent(edges, p, rank);
    }
  }

  /** A chain witnessing a positive answer. */
  lemma {:induction false} DescendentChain(edges: Edges, c: string, sup: string, rank: map<string, nat>)
      returns (p: seq<string>)
    requires EdgesRanked(edges, rank)
    requires IsDescendentOf(edges, Some(c), sup, rank)
    ensures SubclassChain(edges, p) && p[0] == c && p[|p| - 1] == sup
    decreases Height(rank, sup), 1
  {
    p := ScanChain(edges, c, sup, 0, rank);
  }

  lemma {:induction false} ScanChain(edges: Edges, c: string, sup: string, i: nat, rank: map<string, nat>)
      returns (p: seq<string>)
    requires EdgesRanked(edges, rank) && i <= |edges|
    requires ScanSubjects(edges, Some(c), sup, i, rank)
    ensures SubclassChain(edges, p) && p[0] == c && p[|p| - 1] == sup
    decreases Height(rank, sup), 0, |edges| - i
  {
    var e := edges[i];
    if e.1 == sup && Some(e.0) == Some(c) {
      p := [c, sup];
      assert (p[0], p[1]) == e;
    } else if e.1 == sup && IsDescendentOf(edges, Some(c), e.0, rank) {
      assert e in edges;
      var q := DescendentChain(edges, c, e.0, rank);
      p := q + [sup];
      forall j | 0 <= j < |p| - 1 ensures (p[j], p[j + 1]) in edges {
        if j < |q| - 1 {
          assert (p[j], p[j + 1]) == (q[j], q[j + 1]);
        } else {
          assert (p[j], p[j + 1]) == e;
        }
      }
    } else {
      p := ScanChain(edges, c, sup, i + 1, rank);
    }
  }

  /** Every chain is found by the search. */
  lemma {:induction false} ChainDescendent(edges: Edges, p: seq<string>, rank: map<string, nat>)
    requires EdgesRanked(edges, rank)
    requires SubclassChain(edges, p)
    ensures IsDescendentOf(edges, Some(p[0]), p[|p| - 1], rank)
    decreases |p|
  {
    var n := |p|;
    var last := (p[n - 2], p[n - 1]);
    assert last in edges;
    var k :| 0 <= k < |edges| && edges[k] == last;
    if n > 2 {
      var q := p[..n - 1];
      assert forall j :: 0 <= j < |q| - 1 ==> (q[j], q[j + 1]) == (p[j], p[j + 1]);
      ChainDescendent(edges, q, rank);
    }
    ScanFinds(edges, Some(p[0]), p[n - 1], 0, k, rank);
  }

  /** The scan succeeds once it reaches a matching edge. */
  lemma {:induction false} ScanFinds(edges: Edges, classe: Option<string>, sup: string, i: nat, k: nat, rank: map<string, nat>)
    requires EdgesRanked(edges, rank) && i <= k < |edges|
    requires edges[k].1 == sup && (Some(edges[k].0) == classe || IsDescendentOf(edges, classe, edges[k].0, rank))
    ensures ScanSubjects(edges, classe, sup, i, rank)
    decreases k - i
  {
    if i < k {
      ScanFinds(edges, classe, sup, i + 1, k, rank);
    }
  }

  /** A descendant ranks strictly below its ancestor. */
  lemma {:induction false} DescendentRanksBelow(edges: Edges, c: string, sup: string, rank: map<string, nat>)
    requires EdgesRanked(edges, rank)
    requires IsDescendentOf(edges, Some(c), sup, rank)
    ensures c in rank && sup in rank && rank[c] < rank[sup]
  {
    var p := DescendentChain(edges, c, sup, rank);
    ChainRanksBelow(edges, p, rank);
  }

  lemma {:induction false} ChainRanksBelow(edges: Edges, p: seq<string>, rank: map<string, nat>)
    requires EdgesRanked(edges, rank) && SubclassChain(edges, p)
    ensures p[0] in rank && p[|p| - 1] in rank && rank[p[0]] < rank[p[|p| - 1]]
    decreases |p|
  {
    assert (p[0], p[1]) in edges;
    if |p| > 2 {
      var q := p[1..];
      assert forall j :: 0 <= j < |q| - 1 ==> (q[j], q[j + 1]) == (p[j + 1], p[j + 2]);
      ChainRanksBelow(edges, q, rank);
    }
  }

  /** No class is its own descendant, and an absent entity is nobody's descendant. */
  lemma NotOwnDescendent(edges: Edges, x: string, rank: map<string, nat>)
    requires EdgesRanked(edges, rank)
    ensures !IsDescendentOf(edges, Some(x), x, rank)
    ensures forall s :: !IsDescendentOf(edges, None, s, rank)
  {
    if IsDescendentOf(edges, Some(x), x, rank) {
      DescendentRanksBelow(edges, x, x, rank);
    }
    forall s ensures !IsDescendentOf(edges, None, s, rank) {
      NoneNotDescendent(edges, s, rank);
    }
  }

  lemma {:induction false} NoneNotDescendent(edges: Edges, sup: string, rank: map<string, nat>)
    requires EdgesRanked(edges, rank)
    ensures !IsDescendentOf(edges, None, sup, rank)
    decreases Height(rank, sup), 1
  {
    NoneNotFound(edges, sup, 0, rank);
  }

  lemma {:induction false} NoneNotFound(edges: Edges, sup: string, i: nat, rank: map<string, nat>)
    requires EdgesRanked(edges, rank) && i <= |edges|
    ensures !ScanSubjects(edges, None, sup, i, rank)
    decreases Height(rank, sup), 0, |edges| - i
  {
    if i < |edges| {
      if edges[i].1 == sup {
        assert edges[i] in edges;
        NoneNotDescendent(edges, edges[i].0, rank);
      }
      NoneNotFound(edges, sup, i + 1, rank);
    }
  }

  /**
   * `_has_ancestor_in(ref, candidates)`: the first candidate that `ref` descends from, or
   * `None` when there is none.
   */
  function HasAncestorIn(edges: Edges, ref: Option<string>, candidates: seq<string>, ghost rank: map<string, nat>): Option<string>
    requires EdgesRanked(edges, rank)
  {
    if candidates == [] then None
    else if IsDescendentOf(edges, ref, candidates[0], rank) then Some(candidates[0])
    else HasAncestorIn(edges, ref, candidates[1..], rank)
  }

  /** The answer is `None` exactly when `ref` descends from no candidate, and otherwise the first one it descends from. */
  lemma {:induction false} HasAncestorInFirst(edges: Edges, ref: Option<string>, candidates: seq<string>, rank: map<string, nat>)
    requires EdgesRanked(edges, rank)
    ensures var r := HasAncestorIn(edges, ref, candidates, rank);
      && (r.None? <==> forall c :: c in candidates ==> !IsDescendentOf(edges, ref, c, rank))
      && (r.Some? ==> exists i :: 0 <= i < |candidates| && candidates[i] == r.value
                                 && IsDescendentOf(edges, ref, candidates[i], rank)
                                 && forall j :: 0 <= j < i ==> !IsDescendentOf(edges, ref, candidates[j], rank))
    decreases |candidates|
  {
    if candidates != [] {
      if IsDescendentOf(edges, ref, candidates[0], rank) {
        assert candidates[0] in candidates;
      } else {
        HasAncestorInFirst(edges, ref, candidates[1..], rank);
        assert forall j :: 1 <= j < |candidates| ==> candidates[j] == candidates[1..][j - 1];
        assert forall c :: c in candidates <==> c == candidates[0] || c in candidates[1..];
        var r := HasAncestorIn(edges, ref, candidates[1..], rank);
        if r.Some? {
          var i :| 0 <= i < |candidates[1..]| && candidates[1..][i] == r.value
                   && IsDescendentOf(edges, ref, candidates[1..][i], rank)
                   && forall j :: 0 <= j < i ==> !IsDescendentOf(edges, ref, candidates[1..][j], rank);
          assert candidates[i + 1] == r.value;
        }
      }
    }
  }

  /** `_has_intersection(g1, g2)`: despite its name, whether every element of `g1` is in `g2`. */
  function HasIntersection(g1: seq<string>, g2: seq<string>): (r: bool)
    ensures r <==> forall x :: x in g1 ==> x in g2
    ensures g1 == g2 ==> r
  {
    if g1 == [] then true
    else if g1[0] !in g2 then false
    else HasIntersection(g1[1..], g2)
  }
}
