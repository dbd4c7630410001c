/** One entity of a hierarchy (ontotrees/node.py). */
module Nodes {
  import opened Wrappers
  import opened Seqs

  /**
   * The state of a node: its URI (`data`), the URI of its single parent, an optional display
   * name, the insertion-ordered sets of child, domain and range URIs, and the leaf flag.
   * The operations of node.py are defined once here, on this value; class `Node` below
   * performs them in place.
   */
  datatype NodeRecord = NodeRecord(
    data: string,
    parent: Option<string>,
    name: Option<string>,
    children: seq<string>,
    domains: seq<string>,
    ranges: seq<string>,
    isLeaf: bool)
  {
    /** `add_child`: a child not yet present is appended and clears the leaf flag. */
    function WithChild(c: string): (r: NodeRecord)
      ensures c in r.children
      ensures forall x :: x in r.children <==> x in children || x == c
      ensures c in children ==> r == this
      ensures c !in children ==> r.children == children + [c] && !r.isLeaf
      ensures !isLeaf ==> !r.isLeaf
      ensures r.(children := children, isLeaf := isLeaf) == this
    {
      if c in children then this else this.(isLeaf := false, children := children + [c])
    }

    /** `add_domain`: appends a domain not yet present; nothing else changes. */
    function WithDomain(d: string): (r: NodeRecord)
      ensures d in r.domains
      ensures forall x :: x in r.domains <==> x in domains || x == d
      ensures r.domains == domains || r.domains == domains + [d]
      ensures d in domains <==> r == this
      ensures r.(domains := domains) == this
    {
      this.(domains := AppendNew(domains, d))
    }

    /** `add_range`: appends a range not yet present; nothing else changes. */
    function WithRange(g: string): (r: NodeRecord)
      ensures g in r.ranges
      ensures forall x :: x in r.ranges <==> x in ranges || x == g
      ensures r.ranges == ranges || r.ranges == ranges + [g]
      ensures g in ranges <==> r == this
      ensures r.(ranges := ranges) == this
    {
      this.(ranges := AppendNew(ranges, g))
    }
  }

  /** The node `Node(data, parent, name)` starts as: no children, domains or ranges, a leaf. */
  function NewNode(data: string, parent: Option<string>, name: Option<string>): NodeRecord {
    NodeRecord(data, parent, name, [], [], [], true)
  }

  /**
   * What node.py's methods maintain: the three lists hold no duplicates and the node is a leaf
   * exactly while it has no child.
   */
  ghost predicate Coherent(n: NodeRecord) {
    && NoDuplicates(n.children)
    && NoDuplicates(n.domains)
    && NoDuplicates(n.ranges)
    && (n.isLeaf <==> n.children == [])
  }

  /** Each of node.py's updates keeps a coherent node coherent. */
  lemma UpdatesKeepCoherent(n: NodeRecord, x: string)
    requires Coherent(n)
    ensures Coherent(n.WithChild(x)) && Coherent(n.WithDomain(x)) && Coherent(n.WithRange(x))
  {
  }

  /** Adding the same child, domain or range twice is the same as adding it once. */
  lemma AddTwiceIsAddOnce(n: NodeRecord, x: string)
    ensures n.WithChild(x).WithChild(x) == n.WithChild(x)
    ensures n.WithDomain(x).WithDomain(x) == n.WithDomain(x)
    ensures n.WithRange(x).WithRange(x) == n.WithRange(x)
  {
  }

  /** A node object whose lists are updated in place, as in node.py. */
  class Node {
    var parent: Option<string>
    var data: string
    var name: Option<string>
    var children: seq<string>
    var domains: seq<string>
    var ranges: seq<string>
    var isLeaf: bool

    /** The current state of this node as a value. */
    function Record(): NodeRecord
      reads this
    {
      NodeRecord(data, parent, name, children, domains, ranges, isLeaf)
    }

    constructor (data: string, parent: Option<string>, name: Option<string>)
      ensures Record() == NewNode(data, parent, name)
      ensures children == [] && domains == [] && ranges == [] && isLeaf
      ensures Coherent(Record())
    {
      this.parent := parent;
      this.data := data;
      this.name := name;
      this.children := [];
      this.domains := [];
      this.ranges := [];
      this.isLeaf := true;
    }

    method AddChild(child: string)
      modifies this
      ensures Record() == old(Record()).WithChild(child)
    {
      if child !in children {
        isLeaf := false;
        children := children + [child];
      }
    }

    method AddDomain(domain: string)
      modifies this
      ensures Record() == old(Record()).WithDomain(domain)
    {
      if domain !in domains {
        domains := domains + [domain];
      }
    }

    method AddRange(range: string)
      modifies this
      ensures Record() == old(Record()).WithRange(range)
    {
      if range !in ranges {
        ranges := ranges + [range];
      }
    }
  }
}
