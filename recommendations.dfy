/**
 * The recommendation pipeline (recommendations.py): the filtering rules that pick related
 * properties and classes, and `get_recommendations`, which walks the question's triples with a
 * list of entities already visited.
 */
module Recommendations {
  import opened Wrappers
  import opened Seqs
  import opened Nodes
  import opened OntoTrees
  import opened Subclass
  import opened Engine
  import opened Relatives
  import opened Exchange

  /** Which list of a node a rule consults: `"domain"` or `"range"`. */
  datatype ListRef = DomainList | RangeList

  /** `node_list_ref[list_ref]` */
  function Listed(n: NodeRecord, l: ListRef): seq<string> {
    match l
    case DomainList => n.domains
    case RangeList => n.ranges
  }

  /** The URIs of a list of nodes, in order: node identity is the URI the node is stored under. */
  function UrisOf(s: seq<NodeRecord>): (r: seq<string>)
    ensures |r| == |s| && forall i :: 0 <= i < |s| ==> r[i] == s[i].data
    decreases |s|
  {
    if s == [] then [] else UrisOf(s[..|s| - 1]) + [s[|s| - 1].data]
  }

  lemma UrisOfMembers(s: seq<NodeRecord>, u: string)
    ensures u in UrisOf(s) <==> exists x :: x in s && x.data == u
  {
    var r := UrisOf(s);
    if u in r {
      var i :| 0 <= i < |r| && r[i] == u;
      assert s[i] in s;
    }
  }

  // ---------------------------------------------------------------------------------------
  // Related properties (_add_related_properties, _get_related_properties)

  /**
   * The test of `_add_related_properties` on the consulted list `l` of a candidate property:
   * with a class URI, the class is in the list or descends from one of its entries (the first
   * such entry must be a non-empty URI); without one, `_has_intersection(l, l)`, which always
   * holds.
   */
  function PropertyRelated(edges: Edges, classUri: Option<string>, l: seq<string>, ghost rank: map<string, nat>): (r: bool)
    requires EdgesRanked(edges, rank)
  {
    if Truthy(classUri) then
      classUri.value in l || Truthy(HasAncestorIn(edges, classUri, l, rank))
    else
      HasIntersection(l, l)
  }

  /** What the test means in terms of the subclass relation. */
  lemma PropertyRelatedMeans(edges: Edges, classUri: Option<string>, l: seq<string>, rank: map<string, nat>)
    requires EdgesRanked(edges, rank)
    ensures !Truthy(classUri) ==> PropertyRelated(edges, classUri, l, rank)
    ensures Truthy(classUri) && classUri.value in l ==> PropertyRelated(edges, classUri, l, rank)
    ensures Truthy(classUri) && classUri.value !in l && PropertyRelated(edges, classUri, l, rank) ==>
      exists c :: c in l && c != "" && IsDescendentOf(edges, classUri, c, rank)
    ensures Truthy(classUri) && classUri.value !in l && (forall c :: c in l ==> !IsDescendentOf(edges, classUri, c, rank)) ==>
      !PropertyRelated(edges, classUri, l, rank)
    ensures Truthy(classUri) && FirstAncestorNonEmpty(edges, classUri, l, rank) ==> PropertyRelated(edges, classUri, l, rank)
  {
    HasAncestorInFirst(edges, classUri, l, rank);
    if Truthy(classUri) && FirstAncestorNonEmpty(edges, classUri, l, rank) {
      var i :| 0 <= i < |l| && l[i] != "" && IsDescendentOf(edges, classUri, l[i], rank)
        && forall j :: 0 <= j < i ==> !IsDescendentOf(edges, classUri, l[j], rank);
      var r := HasAncestorIn(edges, classUri, l, rank);
      assert l[i] in l;
      var k :| 0 <= k < |l| && l[k] == r.value && IsDescendentOf(edges, classUri, l[k], rank)
        && forall j :: 0 <= j < k ==> !IsDescendentOf(edges, classUri, l[j], rank);
      assert k == i;
    }
  }

  /** The first entry of `l` that the class descends from exists and is a non-empty URI. */
  ghost predicate FirstAncestorNonEmpty(edges: Edges, classUri: Option<string>, l: seq<string>, rank: map<string, nat>)
    requires EdgesRanked(edges, rank)
  {
    exists i :: 0 <= i < |l| && l[i] != "" && IsDescendentOf(edges, classUri, l[i], rank)
      && forall j :: 0 <= j < i ==> !IsDescendentOf(edges, classUri, l[j], rank)
  }

  /** `_add_related_properties`: append the candidate when its consulted list passes the test. */
  method AddRelatedProperties(rec: Recommender, classUri: Option<string>, nodeRef: NodeRecord,
                              related: seq<NodeRecord>, listRef: ListRef, ghost rank: map<string, nat>)
      returns (out: seq<NodeRecord>)
    requires EdgesRanked(rec.subClassOf, rank)
    ensures out == related + (if PropertyRelated(rec.subClassOf, classUri, Listed(nodeRef, listRef), rank) then [nodeRef] else [])
  {
    var l := Listed(nodeRef, listRef);
    out := related;
    if Truthy(classUri) {
      if classUri.value in l {
        out := related + [nodeRef];
      } else {
        var ancestor := HasAncestorIn(rec.subClassOf, classUri, l, rank);
        if Truthy(ancestor) {
          out := related + [nodeRef];
        }
      }
    } else {
      var checkDomain := HasIntersection(l, l);
      if checkDomain {
        out := related + [nodeRef];
      }
    }
  }

  /** The domain rule applies: domain filtering is on (always for data properties) and the candidate has domains. */
  predicate DomainCheck(rec: Recommender, kind: TreeKind, n: NodeRecord) {
    (rec.ByDomain() || kind == DataProperties) && n.domains != []
  }

  /** The range rule applies: range filtering is on, the candidate has ranges, and it is not a data property. */
  predicate RangeCheck(rec: Recommender, kind: TreeKind, n: NodeRecord) {
    rec.ByRange() && n.ranges != [] && kind != DataProperties
  }

  /** A candidate property is accepted by the domain rule or by the range rule. */
  predicate Accepts(rec: Recommender, kind: TreeKind, domainUri: Option<string>, rangeUri: Option<string>,
                    n: NodeRecord, ghost rank: map<string, nat>)
    requires EdgesRanked(rec.subClassOf, rank)
  {
    || (DomainCheck(rec, kind, n) && PropertyRelated(rec.subClassOf, domainUri, n.domains, rank))
    || (RangeCheck(rec, kind, n) && PropertyRelated(rec.subClassOf, rangeUri, n.ranges, rank))
  }

  /**
   * One candidate of the loop in `_get_related_properties`: it is appended at most once, and
   * exactly when it is not yet in the list and one of the two rules accepts it.
   */
  function PropertyStep(rec: Recommender, kind: TreeKind, domainUri: Option<string>, rangeUri: Option<string>,
                        related: seq<NodeRecord>, n: NodeRecord, ghost rank: map<string, nat>): seq<NodeRecord>
    requires EdgesRanked(rec.subClassOf, rank)
  {
    if n.data !in UrisOf(related) && Accepts(rec, kind, domainUri, rangeUri, n, rank) then related + [n] else related
  }

  lemma UrisOfSnoc(s: seq<NodeRecord>, n: NodeRecord)
    ensures UrisOf(s + [n]) == UrisOf(s) + [n.data]
  {
    assert (s + [n])[..|s|] == s;
  }

  /** The loop over the candidates, one `PropertyStep` per candidate, in order. */
  function PropertiesFrom(rec: Recommender, kind: TreeKind, domainUri: Option<string>, rangeUri: Option<string>,
                          nodes: seq<NodeRecord>, ghost rank: map<string, nat>): seq<NodeRecord>
    requires EdgesRanked(rec.subClassOf, rank)
    decreases |nodes|
  {
    if nodes == [] then []
    else PropertyStep(rec, kind, domainUri, rangeUri,
                      PropertiesFrom(rec, kind, domainUri, rangeUri, nodes[..|nodes| - 1], rank), nodes[|nodes| - 1], rank)
  }

  /** One step keeps a duplicate-free sublist of the candidates seen so far. */
  lemma PropertyStepShape(rec: Recommender, kind: TreeKind, domainUri: Option<string>, rangeUri: Option<string>,
                          related: seq<NodeRecord>, seen: seq<NodeRecord>, n: NodeRecord, rank: map<string, nat>)
    requires EdgesRanked(rec.subClassOf, rank)
    requires NoDuplicates(UrisOf(related)) && IsSubsequence(related, seen)
    ensures var r := PropertyStep(rec, kind, domainUri, rangeUri, related, n, rank);
      NoDuplicates(UrisOf(r)) && IsSubsequence(r, seen + [n])
  {
    if n.data !in UrisOf(related) && Accepts(rec, kind, domainUri, rangeUri, n, rank) {
      SubsequenceExtend(related, seen, n);
      UrisOfSnoc(related, n);
      NoDuplicatesSnoc(UrisOf(related), n.data);
    } else {
      SubsequenceOfLonger(related, seen, n);
    }
  }

  /** The loop keeps a duplicate-free sublist of the candidates, in their order. */
  lemma {:induction false} PropertiesFromShape(rec: Recommender, kind: TreeKind, domainUri: Option<string>,
      rangeUri: Option<string>, nodes: seq<NodeRecord>, rank: map<string, nat>)
    requires EdgesRanked(rec.subClassOf, rank)
    ensures var r := PropertiesFrom(rec, kind, domainUri, rangeUri, nodes, rank);
      NoDuplicates(UrisOf(r)) && IsSubsequence(r, nodes)
    decreases |nodes|
  {
    if nodes != [] {
      var ns', n := nodes[..|nodes| - 1], nodes[|nodes| - 1];
      assert nodes == ns' + [n];
      var r' := PropertiesFrom(rec, kind, domainUri, rangeUri, ns', rank);
      assert PropertiesFrom(rec, kind, domainUri, rangeUri, nodes, rank)
          == PropertyStep(rec, kind, domainUri, rangeUri, r', n, rank);
      PropertiesFromShape(rec, kind, domainUri, rangeUri, ns', rank);
      PropertyStepShape(rec, kind, domainUri, rangeUri, r', ns', n, rank);
    }
  }

  lemma PropertiesFromSnoc(rec: Recommender, kind: TreeKind, domainUri: Option<string>, rangeUri: Option<string>,
                           nodes: seq<NodeRecord>, n: NodeRecord, rank: map<string, nat>)
    requires EdgesRanked(rec.subClassOf, rank)
    ensures PropertiesFrom(rec, kind, domainUri, rangeUri, nodes + [n], rank)
         == PropertyStep(rec, kind, domainUri, rangeUri, PropertiesFrom(rec, kind, domainUri, rangeUri, nodes, rank), n, rank)
  {
    assert (nodes + [n])[..|nodes|] == nodes;
  }

  /** No two different nodes of the list share a URI. */
  ghost predicate KeyedByUri(s: seq<NodeRecord>) {
    forall x, y :: x in s && y in s && x.data == y.data ==> x == y
  }

  /** When candidates are identified by their URIs, the loop keeps exactly the accepted ones. */
  lemma {:induction false} PropertiesFromMembers(rec: Recommender, kind: TreeKind, domainUri: Option<string>,
      rangeUri: Option<string>, nodes: seq<NodeRecord>, rank: map<string, nat>, x: NodeRecord)
    requires EdgesRanked(rec.subClassOf, rank)
    requires KeyedByUri(nodes)
    ensures x in PropertiesFrom(rec, kind, domainUri, rangeUri, nodes, rank) <==>
      x in nodes && Accepts(rec, kind, domainUri, rangeUri, x, rank)
    decreases |nodes|
  {
    if nodes != [] {
      var ns', n := nodes[..|nodes| - 1], nodes[|nodes| - 1];
      assert nodes == ns' + [n];
      assert forall y :: y in nodes <==> y in ns' || y == n;
      assert KeyedByUri(ns');
      var r' := PropertiesFrom(rec, kind, domainUri, rangeUri, ns', rank);
      assert PropertiesFrom(rec, kind, domainUri, rangeUri, nodes, rank)
          == PropertyStep(rec, kind, domainUri, rangeUri, r', n, rank);
      PropertiesFromMembers(rec, kind, domainUri, rangeUri, ns', rank, x);
      if x == n && Accepts(rec, kind, domainUri, rangeUri, n, rank) && n.data in UrisOf(r') {
        UrisOfMembers(r', n.data);
        var y :| y in r' && y.data == n.data;
        PropertiesFromMembers(rec, kind, domainUri, rangeUri, ns', rank, y);
      }
    }
  }

  /** `_get_related_properties` without the shuffling and similarity orderings. */
  function RelatedProperties(rec: Recommender, kind: TreeKind, nodeKey: string, domainUri: Option<string>,
                             rangeUri: Option<string>, ghost rank: map<string, nat>): (r: Result<seq<NodeRecord>>)
    requires rec.Valid(rank)
    ensures nodeKey !in rec.Tree(kind) ==> r == Ok([])
    ensures r.Ok? ==> NoDuplicates(UrisOf(r.value))
    ensures r.Ok? ==> forall x :: x in r.value ==> x.data != nodeKey && Member(rec.Tree(kind), x)
  {
    if nodeKey !in rec.Tree(kind) then Ok([])
    else
      var nodes :- Search(rec, kind, Some(nodeKey), rec.Root(kind));
      var r := PropertiesFrom(rec, kind, domainUri, rangeUri, nodes, rank);
      PropertiesFromShape(rec, kind, domainUri, rangeUri, nodes, rank);
      SubsequenceMembers(r, nodes);
      Ok(r)
  }

  /**
   * The related properties are the searched nodes, in order, that one of the rules accepts;
   * without class URIs every candidate passing the filter-mode and non-empty-list checks is
   * accepted.
   */
  lemma RelatedPropertiesAreAccepted(rec: Recommender, kind: TreeKind, nodeKey: string, domainUri: Option<string>,
                                     rangeUri: Option<string>, rank: map<string, nat>, x: NodeRecord)
    requires rec.Valid(rank) && nodeKey in rec.Tree(kind)
    requires RelatedProperties(rec, kind, nodeKey, domainUri, rangeUri, rank).Ok?
    ensures var nodes := Search(rec, kind, Some(nodeKey), rec.Root(kind));
      var r := RelatedProperties(rec, kind, nodeKey, domainUri, rangeUri, rank).value;
      && nodes.Ok?
      && IsSubsequence(r, nodes.value)
      && (x in r <==> x in nodes.value && Accepts(rec, kind, domainUri, rangeUri, x, rank))
      && (!Truthy(domainUri) && !Truthy(rangeUri) ==>
            (x in r <==> x in nodes.value && (DomainCheck(rec, kind, x) || RangeCheck(rec, kind, x))))
  {
    var nodes := Search(rec, kind, Some(nodeKey), rec.Root(kind)).value;
    assert KeyedByUri(nodes);
    PropertiesFromShape(rec, kind, domainUri, rangeUri, nodes, rank);
    PropertiesFromMembers(rec, kind, domainUri, rangeUri, nodes, rank, x);
    PropertyRelatedMeans(rec.subClassOf, domainUri, x.domains, rank);
    PropertyRelatedMeans(rec.subClassOf, rangeUri, x.ranges, rank);
  }

  /** `_get_related_properties`, appending into `related`. */
  method GetRelatedProperties(rec: Recommender, kind: TreeKind, nodeKey: string, domainUri: Option<string>,
                              rangeUri: Option<string>, ghost rank: map<string, nat>) returns (r: Result<seq<NodeRecord>>)
    requires rec.Valid(rank)
    ensures r == RelatedProperties(rec, kind, nodeKey, domainUri, rangeUri, rank)
  {
    if nodeKey !in rec.Tree(kind) {
      return Ok([]);
    }
    var found := SearchNodes(rec, kind, Some(nodeKey), rec.Root(kind));
    if found.KeyError? {
      return KeyError;
    }
    var related := ConsiderProperties(rec, kind, domainUri, rangeUri, found.value, rank);
    r := Ok(related);
  }

  /** The loop of `_get_related_properties` over the searched nodes. */
  method ConsiderProperties(rec: Recommender, kind: TreeKind, domainUri: Option<string>, rangeUri: Option<string>,
                            nodes: seq<NodeRecord>, ghost rank: map<string, nat>) returns (related: seq<NodeRecord>)
    requires EdgesRanked(rec.subClassOf, rank)
    ensures related == PropertiesFrom(rec, kind, domainUri, rangeUri, nodes, rank)
  {
    related := [];
    for i := 0 to |nodes|
      invariant related == PropertiesFrom(rec, kind, domainUri, rangeUri, nodes[..i], rank)
    {
      assert nodes[..i + 1] == nodes[..i] + [nodes[i]];
      PropertiesFromSnoc(rec, kind, domainUri, rangeUri, nodes[..i], nodes[i], rank);
      related := ConsiderProperty(rec, kind, domainUri, rangeUri, related, nodes[i], rank);
    }
    assert nodes[..|nodes|] == nodes;
  }

  /** The domain rule alone: a new candidate whose domain list passes the test is appended. */
  function DomainStep(rec: Recommender, kind: TreeKind, domainUri: Option<string>, related: seq<NodeRecord>,
                      n: NodeRecord, ghost rank: map<string, nat>): seq<NodeRecord>
    requires EdgesRanked(rec.subClassOf, rank)
  {
    if n.data !in UrisOf(related) && DomainCheck(rec, kind, n)
       && PropertyRelated(rec.subClassOf, domainUri, n.domains, rank)
    then related + [n] else related
  }

  /** The range rule alone: a new candidate whose range list passes the test is appended. */
  function RangeStep(rec: Recommender, kind: TreeKind, rangeUri: Option<string>, related: seq<NodeRecord>,
                     n: NodeRecord, ghost rank: map<string, nat>): seq<NodeRecord>
    requires EdgesRanked(rec.subClassOf, rank)
  {
    if n.data !in UrisOf(related) && RangeCheck(rec, kind, n)
       && PropertyRelated(rec.subClassOf, rangeUri, n.ranges, rank)
    then related + [n] else related
  }

  /** Applying the domain rule and then the range rule is one step: a candidate is appended at most once. */
  lemma PropertyStepInTwo(rec: Recommender, kind: TreeKind, domainUri: Option<string>, rangeUri: Option<string>,
                          related: seq<NodeRecord>, n: NodeRecord, rank: map<string, nat>)
    requires EdgesRanked(rec.subClassOf, rank)
    ensures PropertyStep(rec, kind, domainUri, rangeUri, related, n, rank)
         == RangeStep(rec, kind, rangeUri, DomainStep(rec, kind, domainUri, related, n, rank), n, rank)
  {
    var byDomain := DomainCheck(rec, kind, n) && PropertyRelated(rec.subClassOf, domainUri, n.domains, rank);
    var byRange := RangeCheck(rec, kind, n) && PropertyRelated(rec.subClassOf, rangeUri, n.ranges, rank);
    assert Accepts(rec, kind, domainUri, rangeUri, n, rank) == (byDomain || byRange);
    if n.data !in UrisOf(related) && byDomain {
      UrisOfSnoc(related, n);
      assert n.data in UrisOf(related + [n]);
    }
  }

  /** The body of the loop of `_get_related_properties`: the domain rule, then the range rule. */
  method ConsiderProperty(rec: Recommender, kind: TreeKind, domainUri: Option<string>, rangeUri: Option<string>,
                          related: seq<NodeRecord>, node: NodeRecord, ghost rank: map<string, nat>) returns (out: seq<NodeRecord>)
    requires EdgesRanked(rec.subClassOf, rank)
    ensures out == PropertyStep(rec, kind, domainUri, rangeUri, related, node, rank)
  {
    PropertyStepInTwo(rec, kind, domainUri, rangeUri, related, node, rank);
    out := ApplyDomainRule(rec, kind, domainUri, related, node, rank);
    out := ApplyRangeRule(rec, kind, rangeUri, out, node, rank);
  }

  method ApplyDomainRule(rec: Recommender, kind: TreeKind, domainUri: Option<string>,
                         related: seq<NodeRecord>, node: NodeRecord, ghost rank: map<string, nat>) returns (out: seq<NodeRecord>)
    requires EdgesRanked(rec.subClassOf, rank)
    ensures out == DomainStep(rec, kind, domainUri, related, node, rank)
  {
    out := related;
    if node.data !in UrisOf(out) && (rec.ByDomain() || kind == DataProperties) && node.domains != [] {
      out := AddRelatedProperties(rec, domainUri, node, out, DomainList, rank);
    }
  }

  method ApplyRangeRule(rec: Recommender, kind: TreeKind, rangeUri: Option<string>,
                        related: seq<NodeRecord>, node: NodeRecord, ghost rank: map<string, nat>) returns (out: seq<NodeRecord>)
    requires EdgesRanked(rec.subClassOf, rank)
    ensures out == RangeStep(rec, kind, rangeUri, related, node, rank)
  {
    out := related;
    if node.data !in UrisOf(out) && rec.ByRange() && node.ranges != [] && kind != DataProperties {
      out := AddRelatedProperties(rec, rangeUri, node, out, RangeList, rank);
    }
  }

  // ---------------------------------------------------------------------------------------
  // Related classes (_add_related_classes, _get_related_classes)

  /** `node.data in l`, as the filter of the first branch of `_add_related_classes`. */
  function ListedIn(l: seq<string>): NodeRecord -> bool {
    (x: NodeRecord) => x.data in l
  }

  /** `node.data != a`, as the filter of the second branch of `_add_related_classes`. */
  function Except(a: string): NodeRecord -> bool {
    (x: NodeRecord) => x.data != a
  }

  /** The classes found around class `c` (up to the classes root) that are in the list `l`. */
  function ClassesInList(rec: Recommender, c: string, l: seq<string>, ghost rank: map<string, nat>): (r: Result<seq<NodeRecord>>)
    requires rec.Valid(rank)
    ensures c !in rec.classes ==> r == KeyError
    ensures r.Ok? ==> forall x :: x in r.value ==> Member(rec.classes, x) && x.data != c && x.data in l
  {
    var nodes :- Search(rec, Classes, Some(c), rec.classesRoot);
    FilterMeans(nodes, ListedIn(l));
    Ok(Filter(nodes, ListedIn(l)))
  }

  /** The classes found around `classUri` up to the ceiling `a`, the ceiling itself excluded. */
  function ClassesBelow(rec: Recommender, classUri: Option<string>, a: string, ghost rank: map<string, nat>): (r: Result<seq<NodeRecord>>)
    requires rec.Valid(rank)
    ensures classUri.None? ==> r == KeyError
    ensures r.Ok? ==> forall x :: x in r.value ==> Member(rec.classes, x) && x.data != classUri.value && x.data != a
  {
    var nodes :- Search(rec, Classes, classUri, a);
    FilterMeans(nodes, Except(a));
    Ok(Filter(nodes, Except(a)))
  }

  /**
   * `_add_related_classes`: the classes it appends. When the class is itself in the consulted
   * list, the classes found around it that are also in the list; otherwise, when it descends
   * from an entry of the list, the classes found around it up to that ancestor, the ancestor
   * excluded; otherwise none.
   */
  function ClassesAdded(rec: Recommender, classUri: Option<string>, nodeRef: NodeRecord, listRef: ListRef,
                        ghost rank: map<string, nat>): (r: Result<seq<NodeRecord>>)
    requires rec.Valid(rank)
    ensures classUri.None? ==> r == Ok([])
    ensures classUri.Some? && classUri.value in Listed(nodeRef, listRef) && classUri.value !in rec.classes ==> r == KeyError
  {
    var l := Listed(nodeRef, listRef);
    if classUri.Some? && classUri.value in l then
      ClassesInList(rec, classUri.value, l, rank)
    else
      NotOwnDescendent(rec.subClassOf, "", rank);
      HasAncestorInFirst(rec.subClassOf, classUri, l, rank);
      var ancestor := HasAncestorIn(rec.subClassOf, classUri, l, rank);
      if Truthy(ancestor) then
        ClassesBelow(rec, classUri, ancestor.value, rank)
      else
        Ok([])
  }

  /**
   * The classes `_add_related_classes` appends are stored classes other than the class itself;
   * in the first branch they are in the consulted list, in the second each one differs from an
   * entry of the list that the class descends from.
   */
  lemma ClassesAddedMeans(rec: Recommender, classUri: Option<string>, nodeRef: NodeRecord, listRef: ListRef,
                          rank: map<string, nat>)
    requires rec.Valid(rank)
    ensures var r := ClassesAdded(rec, classUri, nodeRef, listRef, rank);
      && (r.Ok? ==> forall x :: x in r.value ==> Member(rec.classes, x) && classUri.Some? && x.data != classUri.value)
      && (r.Ok? && classUri.Some? && classUri.value in Listed(nodeRef, listRef) ==>
            forall x :: x in r.value ==> x.data in Listed(nodeRef, listRef))
      && (r.Ok? && classUri.Some? && classUri.value !in Listed(nodeRef, listRef) ==>
            forall x :: x in r.value ==> exists a :: a in Listed(nodeRef, listRef) && a != x.data
                                                   && IsDescendentOf(rec.subClassOf, classUri, a, rank))
  {
    var l := Listed(nodeRef, listRef);
    if !(classUri.Some? && classUri.value in l) {
      HasAncestorInFirst(rec.subClassOf, classUri, l, rank);
      var ancestor := HasAncestorIn(rec.subClassOf, classUri, l, rank);
      if Truthy(ancestor) {
        assert ancestor.value in l && IsDescendentOf(rec.subClassOf, classUri, ancestor.value, rank);
      }
    }
  }

  /** The first branch keeps exactly the searched classes that are in the list, in search order. */
  lemma ClassesInListExact(rec: Recommender, c: string, l: seq<string>, rank: map<string, nat>)
    requires rec.Valid(rank)
    ensures var s := Search(rec, Classes, Some(c), rec.classesRoot);
            var r := ClassesInList(rec, c, l, rank);
      && (r.KeyError? <==> s.KeyError?)
      && (r.Ok? ==> IsSubsequence(r.value, s.value) && forall x :: x in r.value <==> x in s.value && x.data in l)
  {
    var s := Search(rec, Classes, Some(c), rec.classesRoot);
    if s.Ok? {
      FilterMeans(s.value, ListedIn(l));
    }
  }

  /** The second branch keeps exactly the searched classes other than the ancestor, in search order. */
  lemma ClassesBelowExact(rec: Recommender, classUri: Option<string>, a: string, rank: map<string, nat>)
    requires rec.Valid(rank)
    ensures var s := Search(rec, Classes, classUri, a);
            var r := ClassesBelow(rec, classUri, a, rank);
      && (r.KeyError? <==> s.KeyError?)
      && (r.Ok? ==> IsSubsequence(r.value, s.value) && forall x :: x in r.value <==> x in s.value && x.data != a)
  {
    var s := Search(rec, Classes, classUri, a);
    if s.Ok? {
      FilterMeans(s.value, Except(a));
    }
  }

  /**
   * Which branch `_add_related_classes` takes: the first when the class is in the consulted
   * list; otherwise the second with the first entry of the list that the class descends from,
   * unless that entry is empty or there is none, when nothing is added.
   */
  lemma ClassesAddedExact(rec: Recommender, classUri: Option<string>, nodeRef: NodeRecord, listRef: ListRef,
                          rank: map<string, nat>)
    requires rec.Valid(rank)
    ensures var l := Listed(nodeRef, listRef);
            var r := ClassesAdded(rec, classUri, nodeRef, listRef, rank);
      && (classUri.Some? && classUri.value in l ==> r == ClassesInList(rec, classUri.value, l, rank))
      && ((!(classUri.Some? && classUri.value in l) && forall a :: a in l ==> !IsDescendentOf(rec.subClassOf, classUri, a, rank))
            ==> r == Ok([]))
      && (!(classUri.Some? && classUri.value in l) ==>
            forall i :: 0 <= i < |l| && IsDescendentOf(rec.subClassOf, classUri, l[i], rank)
                        && (forall j :: 0 <= j < i ==> !IsDescendentOf(rec.subClassOf, classUri, l[j], rank)) ==>
              r == if l[i] == "" then Ok([]) else ClassesBelow(rec, classUri, l[i], rank))
  {
    var l := Listed(nodeRef, listRef);
    if !(classUri.Some? && classUri.value in l) {
      HasAncestorInFirst(rec.subClassOf, classUri, l, rank);
      var ancestor := HasAncestorIn(rec.subClassOf, classUri, l, rank);
      if ancestor.Some? {
        var i0 :| 0 <= i0 < |l| && l[i0] == ancestor.value && IsDescendentOf(rec.subClassOf, classUri, l[i0], rank)
                  && forall j :: 0 <= j < i0 ==> !IsDescendentOf(rec.subClassOf, classUri, l[j], rank);
        forall i | 0 <= i < |l| && IsDescendentOf(rec.subClassOf, classUri, l[i], rank)
                   && (forall j :: 0 <= j < i ==> !IsDescendentOf(rec.subClassOf, classUri, l[j], rank))
          ensures i == i0
        {
        }
      }
    }
  }

  /** `related` after `_add_related_classes` appended to it. */
  function ClassesAppended(rec: Recommender, classUri: Option<string>, nodeRef: NodeRecord, listRef: ListRef,
                           related: seq<NodeRecord>, ghost rank: map<string, nat>): Result<seq<NodeRecord>>
    requires rec.Valid(rank)
  {
    var added :- ClassesAdded(rec, classUri, nodeRef, listRef, rank);
    Ok(related + added)
  }

  /** `_add_related_classes`, appending into `related`. */
  method AddRelatedClasses(rec: Recommender, classUri: Option<string>, nodeRef: NodeRecord,
                           related: seq<NodeRecord>, listRef: ListRef, ghost rank: map<string, nat>)
      returns (r: Result<seq<NodeRecord>>)
    requires rec.Valid(rank)
    ensures r == ClassesAppended(rec, classUri, nodeRef, listRef, related, rank)
  {
    var l := Listed(nodeRef, listRef);
    if classUri.Some? && classUri.value in l {
      r := AddClassesInList(rec, classUri.value, l, related, rank);
    } else {
      var ancestor := HasAncestorIn(rec.subClassOf, classUri, l, rank);
      if Truthy(ancestor) {
        r := AddClassesBelow(rec, classUri, ancestor.value, related, rank);
      } else {
        assert related + [] == related;
        r := Ok(related);
      }
    }
  }

  /** The first branch of `_add_related_classes`. */
  method AddClassesInList(rec: Recommender, c: string, l: seq<string>, related: seq<NodeRecord>, ghost rank: map<string, nat>)
      returns (r: Result<seq<NodeRecord>>)
    requires rec.Valid(rank)
    ensures r == (var added :- ClassesInList(rec, c, l, rank); Ok(related + added))
  {
    var found := SearchNodes(rec, Classes, Some(c), rec.classesRoot);
    if found.KeyError? {
      return KeyError;
    }
    r := AppendWhere(related, found.value, ListedIn(l));
  }

  /** The second branch of `_add_related_classes`, once an ancestor `a` is found. */
  method AddClassesBelow(rec: Recommender, classUri: Option<string>, a: string, related: seq<NodeRecord>, ghost rank: map<string, nat>)
      returns (r: Result<seq<NodeRecord>>)
    requires rec.Valid(rank)
    ensures r == (var added :- ClassesBelow(rec, classUri, a, rank); Ok(related + added))
  {
    var found := SearchNodes(rec, Classes, classUri, a);
    if found.KeyError? {
      return KeyError;
    }
    r := AppendWhere(related, found.value, Except(a));
  }

  /** The guarded append loop of both branches: every node that passes the test is appended, in order. */
  method AppendWhere(related: seq<NodeRecord>, nodes: seq<NodeRecord>, p: NodeRecord -> bool) returns (r: Result<seq<NodeRecord>>)
    ensures r == Ok(related + Filter(nodes, p))
  {
    var out := related;
    for i := 0 to |nodes|
      invariant out == related + Filter(nodes[..i], p)
    {
      assert nodes[..i + 1][..i] == nodes[..i];
      if p(nodes[i]) {
        out := out + [nodes[i]];
      }
    }
    assert nodes[..|nodes|] == nodes;
    r := Ok(out);
  }

  /** The domain rule, then (for an object property) the range rule, of `_get_related_classes`. */
  function PropertyClasses(rec: Recommender, kind: TreeKind, node: NodeRecord, domainUri: Option<string>,
                           rangeUri: Option<string>, ghost rank: map<string, nat>): (r: Result<seq<NodeRecord>>)
    requires rec.Valid(rank)
    ensures domainUri.None? && rangeUri.None? ==> r == Ok([])
    ensures r.Ok? ==> forall x :: x in r.value ==> Member(rec.classes, x)
  {
    ClassesAddedMeans(rec, domainUri, node, DomainList, rank);
    ClassesAddedMeans(rec, rangeUri, node, RangeList, rank);
    var none: seq<NodeRecord> := [];
    assert none + none == none;
    var byDomain :- if rec.ByDomain() && node.domains != [] then ClassesAppended(rec, domainUri, node, DomainList, [], rank)
                    else Ok([]);
    if kind != DataProperties && rec.ByRange() && node.ranges != [] then
      ClassesAppended(rec, rangeUri, node, RangeList, byDomain, rank)
    else Ok(byDomain)
  }

  /**
   * `_get_related_classes` without the shuffling and similarity orderings: the classes related
   * to an object property (domain and range rules) or a data property (domain rule only).
   */
  function RelatedClasses(rec: Recommender, nodeKey: string, domainUri: Option<string>, rangeUri: Option<string>,
                          ghost rank: map<string, nat>): (r: Result<seq<NodeRecord>>)
    requires rec.Valid(rank)
    ensures nodeKey !in rec.objectProperties && nodeKey !in rec.dataProperties ==> r == Ok([])
    ensures r.Ok? ==> forall x :: x in r.value ==> Member(rec.classes, x)
  {
    if nodeKey in rec.objectProperties then
      PropertyClasses(rec, ObjectProperties, rec.objectProperties[nodeKey], domainUri, rangeUri, rank)
    else if nodeKey in rec.dataProperties then
      PropertyClasses(rec, DataProperties, rec.dataProperties[nodeKey], domainUri, rangeUri, rank)
    else Ok([])
  }

  /** A data property's related classes never depend on the range class, and with no class URIs nothing is related. */
  lemma RelatedClassesUses(rec: Recommender, nodeKey: string, domainUri: Option<string>, rangeUri1: Option<string>,
                           rangeUri2: Option<string>, rank: map<string, nat>)
    requires rec.Valid(rank)
    ensures nodeKey !in rec.objectProperties ==>
      RelatedClasses(rec, nodeKey, domainUri, rangeUri1, rank) == RelatedClasses(rec, nodeKey, domainUri, rangeUri2, rank)
    ensures RelatedClasses(rec, nodeKey, None, None, rank) == Ok([])
  {
  }

  /** The classes one rule of `_get_related_classes` contributes: `ClassesAdded` when the rule applies, else none. */
  function ClassRule(rec: Recommender, applies: bool, classUri: Option<string>, node: NodeRecord, listRef: ListRef,
                     ghost rank: map<string, nat>): Result<seq<NodeRecord>>
    requires rec.Valid(rank)
  {
    if applies then ClassesAdded(rec, classUri, node, listRef, rank) else Ok([])
  }

  /** Two results one after the other; a `KeyError` in either is the outcome. */
  function Joined(a: Result<seq<NodeRecord>>, b: Result<seq<NodeRecord>>): Result<seq<NodeRecord>> {
    if a.KeyError? || b.KeyError? then KeyError else Ok(a.value + b.value)
  }

  /**
   * The shared list of `_get_related_classes` ends as the domain rule's classes followed by the
   * range rule's (an object property only), each computed on its own.
   */
  lemma PropertyClassesParts(rec: Recommender, kind: TreeKind, node: NodeRecord, domainUri: Option<string>,
                             rangeUri: Option<string>, rank: map<string, nat>)
    requires rec.Valid(rank)
    ensures var byDomain := ClassRule(rec, rec.ByDomain() && node.domains != [], domainUri, node, DomainList, rank);
            var byRange := ClassRule(rec, kind != DataProperties && rec.ByRange() && node.ranges != [], rangeUri, node, RangeList, rank);
            var r := PropertyClasses(rec, kind, node, domainUri, rangeUri, rank);
      && r == Joined(byDomain, byRange)
      && (r.Ok? ==> forall x :: x in r.value <==> x in byDomain.value || x in byRange.value)
  {
    var none: seq<NodeRecord> := [];
    var byDomain := ClassRule(rec, rec.ByDomain() && node.domains != [], domainUri, node, DomainList, rank);
    if byDomain.Ok? {
      assert none + byDomain.value == byDomain.value;
      assert byDomain.value + none == byDomain.value;
    }
  }

  /** `_get_related_classes` is the domain rule then the range rule for an object property, and the domain rule alone for a data property. */
  lemma RelatedClassesParts(rec: Recommender, nodeKey: string, domainUri: Option<string>, rangeUri: Option<string>,
                            rank: map<string, nat>)
    requires rec.Valid(rank)
    ensures nodeKey in rec.objectProperties ==>
      var n := rec.objectProperties[nodeKey];
      RelatedClasses(rec, nodeKey, domainUri, rangeUri, rank)
        == Joined(ClassRule(rec, rec.ByDomain() && n.domains != [], domainUri, n, DomainList, rank),
                  ClassRule(rec, rec.ByRange() && n.ranges != [], rangeUri, n, RangeList, rank))
    ensures nodeKey !in rec.objectProperties && nodeKey in rec.dataProperties ==>
      var n := rec.dataProperties[nodeKey];
      RelatedClasses(rec, nodeKey, domainUri, rangeUri, rank)
        == ClassRule(rec, rec.ByDomain() && n.domains != [], domainUri, n, DomainList, rank)
  {
    if nodeKey in rec.objectProperties {
      PropertyClassesParts(rec, ObjectProperties, rec.objectProperties[nodeKey], domainUri, rangeUri, rank);
    } else if nodeKey in rec.dataProperties {
      var n := rec.dataProperties[nodeKey];
      PropertyClassesParts(rec, DataProperties, n, domainUri, rangeUri, rank);
      var byDomain := ClassRule(rec, rec.ByDomain() && n.domains != [], domainUri, n, DomainList, rank);
      if byDomain.Ok? {
        assert byDomain.value + [] == byDomain.value;
      }
    }
  }

  /** `_get_related_classes`, appending into `related`. */
  method GetRelatedClasses(rec: Recommender, nodeKey: string, domainUri: Option<string>, rangeUri: Option<string>,
                           ghost rank: map<string, nat>) returns (r: Result<seq<NodeRecord>>)
    requires rec.Valid(rank)
    ensures r == RelatedClasses(rec, nodeKey, domainUri, rangeUri, rank)
  {
    if nodeKey in rec.objectProperties {
      r := AddPropertyClasses(rec, ObjectProperties, rec.objectProperties[nodeKey], domainUri, rangeUri, rank);
    } else if nodeKey in rec.dataProperties {
      r := AddPropertyClasses(rec, DataProperties, rec.dataProperties[nodeKey], domainUri, rangeUri, rank);
    } else {
      r := Ok([]);
    }
  }

  /** The body of `_get_related_classes` once the property node is found. */
  method AddPropertyClasses(rec: Recommender, kind: TreeKind, node: NodeRecord, domainUri: Option<string>,
                            rangeUri: Option<string>, ghost rank: map<string, nat>) returns (r: Result<seq<NodeRecord>>)
    requires rec.Valid(rank)
    ensures r == PropertyClasses(rec, kind, node, domainUri, rangeUri, rank)
  {
    var related: seq<NodeRecord> := [];
    if rec.ByDomain() && node.domains != [] {
      var added := AddRelatedClasses(rec, domainUri, node, related, DomainList, rank);
      if added.KeyError? {
        return KeyError;
      }
      related := added.value;
    }
    if kind != DataProperties {
      if rec.ByRange() && node.ranges != [] {
        r := AddRelatedClasses(rec, rangeUri, node, related, RangeList, rank);
        return;
      }
    }
    r := Ok(related);
  }

  // ---------------------------------------------------------------------------------------
  // The pipeline (get_recommendations)

  /** The visited entities and the rendered recommendations so far. */
  datatype Progress = Progress(verified: seq<string>, recommendations: seq<string>)

  /** One rendering of the suggestion template per related node, from its name, in order. */
  function Rendered(rs: seq<NodeRecord>, render: Option<string> -> string): (r: seq<string>)
    ensures |r| == |rs| && forall i :: 0 <= i < |rs| ==> r[i] == render(rs[i].name)
    decreases |rs|
  {
    if rs == [] then [] else Rendered(rs[..|rs| - 1], render) + [render(rs[|rs| - 1].name)]
  }

  /** Every triple's subject and object, and a non-value triple's predicate, have a flag. */
  ghost predicate Flagged(ex: map<string, bool>, ts: seq<Triple>) {
    forall t :: t in ts ==> t.subj in ex && t.obj in ex && (t.pred != HasValue ==> t.pred in ex)
  }

  /**
   * What every step keeps: the visited list and recommendations only grow, each newly visited
   * entity is an exchangeable subject or object of the triple, and recommendations are added
   * only together with a newly visited entity.
   */
  ghost predicate Advances(s: Progress, r: Progress, ex: map<string, bool>, t: Triple) {
    && IsPrefix(s.verified, r.verified)
    && IsPrefix(s.recommendations, r.recommendations)
    && (forall u :: u in r.verified && u !in s.verified ==> (u == t.subj || u == t.obj) && u in ex && ex[u])
    && (r.verified == s.verified ==> r.recommendations == s.recommendations)
    && (NoDuplicates(s.verified) ==> NoDuplicates(r.verified))
  }

  /** Visiting one new exchangeable entity of the triple advances the progress. */
  lemma VisitAdvances(s: Progress, u: string, recs: seq<string>, ex: map<string, bool>, t: Triple)
    requires u !in s.verified && u in ex && ex[u] && (u == t.subj || u == t.obj)
    requires IsPrefix(s.recommendations, recs)
    ensures Advances(s, Progress(s.verified + [u], recs), ex, t)
  {
    var v := s.verified + [u];
    assert v[..|s.verified|] == s.verified;
    assert forall u' :: u' in v <==> u' in s.verified || u' == u;
  }

  /** The branch of a `has_value` triple: the exchangeable value class, once, via its property link. */
  function ValueTripleStep(rec: Recommender, ex: map<string, bool>, propRef: map<string, string>,
                           render: Option<string> -> string, s: Progress, t: Triple, ghost rank: map<string, nat>): (r: Result<Progress>)
    requires rec.Valid(rank) && t.obj in ex
    ensures ex[t.obj] && t.obj !in s.verified && t.obj !in propRef ==> r == KeyError
    ensures !ex[t.obj] || t.obj in s.verified ==> r == Ok(s)
    ensures r.Ok? ==> Advances(s, r.value, ex, t)
  {
    if ex[t.obj] && t.obj !in s.verified then
      var v := s.verified + [t.obj];
      if t.obj !in propRef then KeyError
      else if t.subj in rec.classes then
        var rs :- RelatedClasses(rec, propRef[t.obj], None, Some(t.obj), rank);
        VisitAdvances(s, t.obj, s.recommendations + Rendered(rs, render), ex, t);
        Ok(Progress(v, s.recommendations + Rendered(rs, render)))
      else
        VisitAdvances(s, t.obj, s.recommendations, ex, t);
        Ok(Progress(v, s.recommendations))
    else Ok(s)
  }

  /** The object block of a non-value triple: the related properties of its predicate, once per object. */
  function ObjectStep(rec: Recommender, ex: map<string, bool>, render: Option<string> -> string, s: Progress,
                      t: Triple, ghost rank: map<string, nat>): (r: Result<Progress>)
    requires rec.Valid(rank) && t.obj in ex && t.pred in ex
    ensures !ex[t.obj] || !ex[t.pred] || t.obj in s.verified ==> r == Ok(s)
    ensures r.Ok? ==> Advances(s, r.value, ex, t)
  {
    if ex[t.obj] && ex[t.pred] && t.obj !in s.verified then
      var v := s.verified + [t.obj];
      if t.pred in rec.objectProperties then
        var rs :- RelatedProperties(rec, ObjectProperties, t.pred, Some(t.subj), Some(t.obj), rank);
        VisitAdvances(s, t.obj, s.recommendations + Rendered(rs, render), ex, t);
        Ok(Progress(v, s.recommendations + Rendered(rs, render)))
      else if t.pred in rec.dataProperties then
        var rs :- RelatedProperties(rec, DataProperties, t.pred, Some(t.subj), None, rank);
        VisitAdvances(s, t.obj, s.recommendations + Rendered(rs, render), ex, t);
        Ok(Progress(v, s.recommendations + Rendered(rs, render)))
      else
        VisitAdvances(s, t.obj, s.recommendations, ex, t);
        Ok(Progress(v, s.recommendations))
    else Ok(s)
  }

  /** The subject block of a non-value triple: the classes related to the subject via the predicate, once. */
  function SubjectStep(rec: Recommender, ex: map<string, bool>, render: Option<string> -> string, s: Progress,
                       t: Triple, ghost rank: map<string, nat>): (r: Result<Progress>)
    requires rec.Valid(rank) && t.subj in ex
    ensures !ex[t.subj] || t.subj in s.verified ==> r == Ok(s)
    ensures r.Ok? ==> Advances(s, r.value, ex, t)
  {
    if ex[t.subj] && t.subj !in s.verified then
      var v := s.verified + [t.subj];
      if t.subj in rec.classes then
        var rs :- RelatedClasses(rec, t.pred, Some(t.subj), None, rank);
        VisitAdvances(s, t.subj, s.recommendations + Rendered(rs, render), ex, t);
        Ok(Progress(v, s.recommendations + Rendered(rs, render)))
      else
        VisitAdvances(s, t.subj, s.recommendations, ex, t);
        Ok(Progress(v, s.recommendations))
    else Ok(s)
  }

  /** One iteration of the loop of `get_recommendations`. */
  function TripleStep(rec: Recommender, ex: map<string, bool>, propRef: map<string, string>,
                      render: Option<string> -> string, s: Progress, t: Triple, ghost rank: map<string, nat>): (r: Result<Progress>)
    requires rec.Valid(rank) && Flagged(ex, [t])
    ensures r.Ok? ==> Advances(s, r.value, ex, t)
  {
    assert t in [t];
    if t.pred == HasValue then ValueTripleStep(rec, ex, propRef, render, s, t, rank)
    else
      var s1 :- ObjectStep(rec, ex, render, s, t, rank);
      var r := SubjectStep(rec, ex, render, s1, t, rank);
      assert r.Ok? ==> Advances(s, r.value, ex, t) by {
        if r.Ok? {
          AdvancesTrans(s, s1, r.value, ex, t);
        }
      }
      r
  }

  lemma AdvancesTrans(s: Progress, s1: Progress, s2: Progress, ex: map<string, bool>, t: Triple)
    requires Advances(s, s1, ex, t) && Advances(s1, s2, ex, t)
    ensures Advances(s, s2, ex, t)
  {
    assert s2.verified[..|s.verified|] == s2.verified[..|s1.verified|][..|s.verified|];
    assert s2.recommendations[..|s.recommendations|] == s2.recommendations[..|s1.recommendations|][..|s.recommendations|];
  }

  /** The loop of `get_recommendations` over the triples in order; a KeyError ends it. */
  function StepsFrom(rec: Recommender, ex: map<string, bool>, propRef: map<string, string>,
                     render: Option<string> -> string, ts: seq<Triple>, ghost rank: map<string, nat>): Result<Progress>
    requires rec.Valid(rank) && Flagged(ex, ts)
    decreases |ts|
  {
    if ts == [] then Ok(Progress([], []))
    else
      var t := ts[|ts| - 1];
      assert t in ts;
      var s :- StepsFrom(rec, ex, propRef, render, ts[..|ts| - 1], rank);
      TripleStep(rec, ex, propRef, render, s, t, rank)
  }

  /**
   * Over the whole loop the visited list has no duplicates and holds only exchangeable subjects
   * and objects of the question, so each entity triggers at most one recommendation pass.
   */
  lemma {:induction false} StepsVisitOnce(rec: Recommender, ex: map<string, bool>, propRef: map<string, string>,
                                          render: Option<string> -> string, ts: seq<Triple>, rank: map<string, nat>)
    requires rec.Valid(rank) && Flagged(ex, ts)
    requires StepsFrom(rec, ex, propRef, render, ts, rank).Ok?
    ensures var p := StepsFrom(rec, ex, propRef, render, ts, rank).value;
      && NoDuplicates(p.verified)
      && (forall u :: u in p.verified ==> u in ex && ex[u] && exists t :: t in ts && (u == t.subj || u == t.obj))
    decreases |ts|
  {
    if ts != [] {
      var ts', t := ts[..|ts| - 1], ts[|ts| - 1];
      assert forall x :: x in ts <==> x in ts' || x == t;
      StepsVisitOnce(rec, ex, propRef, render, ts', rank);
      var s := StepsFrom(rec, ex, propRef, render, ts', rank).value;
      var p := StepsFrom(rec, ex, propRef, render, ts, rank).value;
    }
  }

  /** `recommendations[:size]`: Python's slice up to `size`, which counts from the end when negative. */
  function SlicePrefix(s: seq<string>, size: int): (r: seq<string>)
    ensures IsPrefix(r, s)
    ensures size >= 0 ==> |r| == (if size <= |s| then size else |s|)
    ensures size < 0 ==> |r| == (if -size <= |s| then |s| + size else 0)
  {
    if size >= 0 then (if size <= |s| then s[..size] else s)
    else if -size <= |s| then s[..|s| + size] else []
  }

  /**
   * `get_recommendations`: classify the question's entities, walk its triples, and return the
   * suggestion text with the first `size` rendered recommendations; a value class that is
   * exchangeable but has no property link raises KeyError.
   */
  function RecommendationsFor(rec: Recommender, ts: seq<Triple>, render: Option<string> -> string,
                              ghost rank: map<string, nat>): (r: Result<(string, seq<string>)>)
    requires rec.Valid(rank)
    ensures r.Ok? ==> r.value.0 == rec.suggestionText
    ensures r.Ok? && rec.size >= 0 ==> |r.value.1| <= rec.size
  {
    var (propRef, ex) := Exchangeable(ts, rec.classes);
    ExchangeCovers(ts, rec.classes);
    var p :- StepsFrom(rec, ex, propRef, render, ts, rank);
    Ok((rec.suggestionText, SlicePrefix(p.recommendations, rec.size)))
  }

  /**
   * The returned list is a prefix of everything the loop rendered, cut to `size`, and the loop
   * visited each exchangeable subject or object at most once.
   */
  lemma RecommendationsArePrefix(rec: Recommender, ts: seq<Triple>, render: Option<string> -> string, rank: map<string, nat>)
    requires rec.Valid(rank)
    requires RecommendationsFor(rec, ts, render, rank).Ok?
    ensures var (propRef, ex) := Exchangeable(ts, rec.classes);
      && Flagged(ex, ts)
      && StepsFrom(rec, ex, propRef, render, ts, rank).Ok?
      && var p := StepsFrom(rec, ex, propRef, render, ts, rank).value;
      && var out := RecommendationsFor(rec, ts, render, rank).value.1;
      && IsPrefix(out, p.recommendations)
      && (0 <= rec.size <= |p.recommendations| ==> |out| == rec.size)
      && (rec.size >= |p.recommendations| ==> out == p.recommendations)
      && NoDuplicates(p.verified)
      && (forall u :: u in p.verified ==> u in ex && ex[u] && exists t :: t in ts && (u == t.subj || u == t.obj))
  {
    var (propRef, ex) := Exchangeable(ts, rec.classes);
    ExchangeCovers(ts, rec.classes);
    StepsVisitOnce(rec, ex, propRef, render, ts, rank);
  }

  // ---------------------------------------------------------------------------------------
  // The same, with the lists updated step by step

  /** The append loop: the rendering of each related node is appended to the recommendations, in order. */
  method AppendRendered(recommendations: seq<string>, rs: seq<NodeRecord>, render: Option<string> -> string)
      returns (out: seq<string>)
    ensures out == recommendations + Rendered(rs, render)
  {
    out := recommendations;
    for i := 0 to |rs|
      invariant out == recommendations + Rendered(rs[..i], render)
    {
      assert rs[..i + 1][..i] == rs[..i];
      out := out + [render(rs[i].name)];
    }
    assert rs[..|rs|] == rs;
  }

  method ProcessValueTriple(rec: Recommender, ex: map<string, bool>, propRef: map<string, string>,
                            render: Option<string> -> string, s: Progress, t: Triple, ghost rank: map<string, nat>)
      returns (r: Result<Progress>)
    requires rec.Valid(rank) && t.obj in ex
    ensures r == ValueTripleStep(rec, ex, propRef, render, s, t, rank)
  {
    var verified, recommendations := s.verified, s.recommendations;
    if ex[t.obj] && t.obj !in verified {
      verified := verified + [t.obj];
      if t.obj !in propRef {
        return KeyError;
      }
      var prop := propRef[t.obj];
      if t.subj in rec.classes {
        var rs := GetRelatedClasses(rec, prop, None, Some(t.obj), rank);
        if rs.KeyError? {
          return KeyError;
        }
        recommendations := AppendRendered(recommendations, rs.value, render);
      }
    }
    r := Ok(Progress(verified, recommendations));
  }

  method ProcessObject(rec: Recommender, ex: map<string, bool>, render: Option<string> -> string,
                       s: Progress, t: Triple, ghost rank: map<string, nat>) returns (r: Result<Progress>)
    requires rec.Valid(rank) && t.obj in ex && t.pred in ex
    ensures r == ObjectStep(rec, ex, render, s, t, rank)
  {
    var verified, recommendations := s.verified, s.recommendations;
    if ex[t.obj] && ex[t.pred] && t.obj !in verified {
      verified := verified + [t.obj];
      if t.pred in rec.objectProperties {
        var rs := GetRelatedProperties(rec, ObjectProperties, t.pred, Some(t.subj), Some(t.obj), rank);
        if rs.KeyError? {
          return KeyError;
        }
        recommendations := AppendRendered(recommendations, rs.value, render);
      } else if t.pred in rec.dataProperties {
        var rs := GetRelatedProperties(rec, DataProperties, t.pred, Some(t.subj), None, rank);
        if rs.KeyError? {
          return KeyError;
        }
        recommendations := AppendRendered(recommendations, rs.value, render);
      }
    }
    r := Ok(Progress(verified, recommendations));
  }

  method ProcessSubject(rec: Recommender, ex: map<string, bool>, render: Option<string> -> string,
                        s: Progress, t: Triple, ghost rank: map<string, nat>) returns (r: Result<Progress>)
    requires rec.Valid(rank) && t.subj in ex
    ensures r == SubjectStep(rec, ex, render, s, t, rank)
  {
    var verified, recommendations := s.verified, s.recommendations;
    if ex[t.subj] && t.subj !in verified {
      verified := verified + [t.subj];
      if t.subj in rec.classes {
        var rs := GetRelatedClasses(rec, t.pred, Some(t.subj), None, rank);
        if rs.KeyError? {
          return KeyError;
        }
        recommendations := AppendRendered(recommendations, rs.value, render);
      }
    }
    r := Ok(Progress(verified, recommendations));
  }

  /** One iteration of the loop of `get_recommendations`. */
  method ProcessTriple(rec: Recommender, ex: map<string, bool>, propRef: map<string, string>,
                       render: Option<string> -> string, s: Progress, t: Triple, ghost rank: map<string, nat>)
      returns (r: Result<Progress>)
    requires rec.Valid(rank) && Flagged(ex, [t])
    ensures r == TripleStep(rec, ex, propRef, render, s, t, rank)
  {
    assert t in [t];
    if t.pred == HasValue {
      r := ProcessValueTriple(rec, ex, propRef, render, s, t, rank);
    } else {
      r := ProcessObject(rec, ex, render, s, t, rank);
      if r.Ok? {
        r := ProcessSubject(rec, ex, render, r.value, t, rank);
      }
    }
  }

  /** The loop over one more triple is one more `TripleStep`. */
  lemma StepsFromSnoc(rec: Recommender, ex: map<string, bool>, propRef: map<string, string>,
                      render: Option<string> -> string, ts: seq<Triple>, i: nat, rank: map<string, nat>)
    requires rec.Valid(rank) && Flagged(ex, ts) && i < |ts|
    ensures Flagged(ex, ts[..i]) && Flagged(ex, [ts[i]])
    ensures StepsFrom(rec, ex, propRef, render, ts[..i], rank).Ok? ==>
      StepsFrom(rec, ex, propRef, render, ts[..i + 1], rank)
        == TripleStep(rec, ex, propRef, render, StepsFrom(rec, ex, propRef, render, ts[..i], rank).value, ts[i], rank)
    ensures StepsFrom(rec, ex, propRef, render, ts[..i], rank).KeyError? ==>
      StepsFrom(rec, ex, propRef, render, ts[..i + 1], rank).KeyError?
  {
    assert ts[i] in ts;
    assert forall t :: t in ts[..i] ==> t in ts;
    assert ts[..i + 1][..i] == ts[..i];
  }

  /** A KeyError part-way through ends the whole loop with KeyError. */
  lemma {:induction false} StepsFailureSticks(rec: Recommender, ex: map<string, bool>, propRef: map<string, string>,
                                              render: Option<string> -> string, ts: seq<Triple>, i: nat, rank: map<string, nat>)
    requires rec.Valid(rank) && Flagged(ex, ts) && i <= |ts|
    requires StepsFrom(rec, ex, propRef, render, ts[..i], rank).KeyError?
    ensures StepsFrom(rec, ex, propRef, render, ts, rank).KeyError?
    decreases |ts| - i
  {
    if i < |ts| {
      StepsFromSnoc(rec, ex, propRef, render, ts, i, rank);
      StepsFailureSticks(rec, ex, propRef, render, ts, i + 1, rank);
    } else {
      assert ts[..i] == ts;
    }
  }

  /** `get_recommendations`. */
  method GetRecommendations(rec: Recommender, ts: seq<Triple>, render: Option<string> -> string, ghost rank: map<string, nat>)
      returns (r: Result<(string, seq<string>)>)
    requires rec.Valid(rank)
    ensures r == RecommendationsFor(rec, ts, render, rank)
  {
    var propRef, entities := EntitiesThatCanBeExchanged(ts, rec.classes);
    ExchangeCovers(ts, rec.classes);
    var progress := Progress([], []);
    for i := 0 to |ts|
      invariant StepsFrom(rec, entities, propRef, render, ts[..i], rank) == Ok(progress)
    {
      StepsFromSnoc(rec, entities, propRef, render, ts, i, rank);
      var step := ProcessTriple(rec, entities, propRef, render, progress, ts[i], rank);
      if step.KeyError? {
        StepsFailureSticks(rec, entities, propRef, render, ts, i + 1, rank);
        return KeyError;
      }
      progress := step.value;
    }
    assert ts[..|ts|] == ts;
    r := Ok((rec.suggestionText, SlicePrefix(progress.recommendations, rec.size)));
  }
}
