/**
 * Finding the relatives of a node in a hierarchy (recommendations.py, `_get_ascedent`,
 * `_get_reference_node`, `_get_given_level`, `_get_level_order`, `_search_nodes`): climb
 * from the node to a reference node, then collect the nodes level by level below it.
 */
module Relatives {
  import opened Wrappers
  import opened Nodes
  import opened OntoTrees
  import opened Engine
  import opened Seqs

  /** `n` is the hierarchy's own node for its URI, the one object stored under that key. */
  predicate Member(tree: Hierarchy, n: NodeRecord) {
    n.data in tree && tree[n.data] == n
  }

  // ---------------------------------------------------------------------------------------
  // Climbing (_get_ascedent, _get_reference_node)

  /**
   * `_get_ascedent(level, node, key_tree, root)`: from a non-positive `level`, follow parent
   * links until the level reaches 0 or the node is the ceiling `root`. Looking up a missing
   * parent (a stub's absent parent, or an unknown URI) raises KeyError.
   */
  function Ascendant(tree: Hierarchy, level: int, node: NodeRecord, ceiling: string): (r: Result<NodeRecord>)
    requires level <= 0
    ensures level == 0 || node.data == ceiling ==> r == Ok(node)
    ensures KeysMatch(tree) && Member(tree, node) && r.Ok? ==> Member(tree, r.value)
    decreases -level
  {
    if level == 0 then Ok(node)
    else if ceiling == node.data then Ok(node)
    else if node.parent.None? || node.parent.value !in tree then KeyError
    else Ascendant(tree, level + 1, tree[node.parent.value], ceiling)
  }

  /** The reference definition: the node `k` parent links above `node`, if every link exists. */
  function Climb(tree: Hierarchy, node: NodeRecord, k: nat): Option<NodeRecord>
    decreases k
  {
    if k == 0 then Some(node)
    else if node.parent.Some? && node.parent.value in tree then Climb(tree, tree[node.parent.value], k - 1)
    else None
  }

  /**
   * `x` is where a climb of at most `n` links from `node` stops: `k` links up, with no node on
   * the way being the ceiling, and either all `n` links taken or `x` the ceiling.
   */
  ghost predicate StopsAt(tree: Hierarchy, node: NodeRecord, ceiling: string, n: nat, x: NodeRecord, k: nat) {
    && k <= n
    && Climb(tree, node, k) == Some(x)
    && (k == n || x.data == ceiling)
    && forall j :: 0 <= j < k ==> Climb(tree, node, j).Some? && Climb(tree, node, j).value.data != ceiling
  }

  lemma {:induction false} AscendantStops(tree: Hierarchy, n: nat, node: NodeRecord, ceiling: string) returns (k: nat)
    requires Ascendant(tree, -(n as int), node, ceiling).Ok?
    ensures StopsAt(tree, node, ceiling, n, Ascendant(tree, -(n as int), node, ceiling).value, k)
    decreases n
  {
    if n == 0 || node.data == ceiling {
      k := 0;
    } else {
      var p := tree[node.parent.value];
      var k' := AscendantStops(tree, n - 1, p, ceiling);
      k := k' + 1;
      assert forall j :: 0 < j ==> Climb(tree, node, j) == Climb(tree, p, j - 1);
    }
  }

  lemma {:induction false} StopsAscendant(tree: Hierarchy, n: nat, node: NodeRecord, ceiling: string, x: NodeRecord, k: nat)
    requires StopsAt(tree, node, ceiling, n, x, k)
    ensures Ascendant(tree, -(n as int), node, ceiling) == Ok(x)
    decreases n
  {
    if k > 0 {
      assert Climb(tree, node, 0).value.data != ceiling;
      var p := tree[node.parent.value];
      assert forall j :: 0 < j ==> Climb(tree, node, j) == Climb(tree, p, j - 1);
      assert forall j :: 0 <= j < k - 1 ==> Climb(tree, p, j) == Climb(tree, node, j + 1);
      StopsAscendant(tree, n - 1, p, ceiling, x, k - 1);
    }
  }

  /**
   * `_get_ascedent(-n, …)` returns exactly the node where a climb of at most `n` parent links
   * stops, early at the ceiling; it raises KeyError exactly when the climb breaks off first.
   */
  lemma AscendantIsClimb(tree: Hierarchy, n: nat, node: NodeRecord, ceiling: string, x: NodeRecord)
    ensures Ascendant(tree, -(n as int), node, ceiling) == Ok(x) <==> ClimbsTo(tree, node, ceiling, n, x)
  {
    if Ascendant(tree, -(n as int), node, ceiling) == Ok(x) {
      var k := AscendantStops(tree, n, node, ceiling);
    }
    if ClimbsTo(tree, node, ceiling, n, x) {
      var k :| StopsAt(tree, node, ceiling, n, x, k);
      StopsAscendant(tree, n, node, ceiling, x, k);
    }
  }

  /** Some climb of at most `n` links from `node` stops at `x`. */
  ghost predicate ClimbsTo(tree: Hierarchy, node: NodeRecord, ceiling: string, n: nat, x: NodeRecord) {
    exists k :: StopsAt(tree, node, ceiling, n, x, k)
  }

  /**
   * `_get_reference_node`: with a negative family position, the ascendant that many levels
   * up (bounded by the ceiling); otherwise the node itself.
   */
  function ReferenceNode(rec: Recommender, kind: TreeKind, node: NodeRecord, ceiling: string): (r: Result<NodeRecord>)
    ensures rec.familyPosition >= 0 ==> r == Ok(node)
    ensures rec.familyPosition < 0 && r.Ok? ==> ClimbsTo(rec.Tree(kind), node, ceiling, -rec.familyPosition, r.value)
    ensures rec.familyPosition < 0 ==> forall x :: ClimbsTo(rec.Tree(kind), node, ceiling, -rec.familyPosition, x) ==> r == Ok(x)
    ensures KeysMatch(rec.Tree(kind)) && Member(rec.Tree(kind), node) && r.Ok? ==> Member(rec.Tree(kind), r.value)
  {
    if rec.familyPosition < 0 then
      var n: nat := -rec.familyPosition;
      var r := Ascendant(rec.Tree(kind), rec.familyPosition, node, ceiling);
      assert r.Ok? ==> ClimbsTo(rec.Tree(kind), node, ceiling, n, r.value) by {
        if r.Ok? {
          AscendantIsClimb(rec.Tree(kind), n, node, ceiling, r.value);
        }
      }
      assert forall x :: ClimbsTo(rec.Tree(kind), node, ceiling, n, x) ==> r == Ok(x) by {
        forall x | ClimbsTo(rec.Tree(kind), node, ceiling, n, x) ensures r == Ok(x) {
          AscendantIsClimb(rec.Tree(kind), n, node, ceiling, x);
        }
      }
      r
    else Ok(node)
  }

  // ---------------------------------------------------------------------------------------
  // Level search (_get_given_level, _get_level_order)

  /**
   * The nodes `_get_given_level` appends: at level 1 the root unless it is the ignored node,
   * at a deeper level the given level of each child subtree in child order, nothing for a
   * root that is not in the hierarchy or a level below 1.
   */
  function GivenLevel(tree: Hierarchy, ignore: string, root: NodeRecord, level: int): (r: seq<NodeRecord>)
    requires WellFormed(tree) && (root.data in tree ==> tree[root.data] == root)
    ensures level < 1 || root.data !in tree ==> r == []
    decreases level, 0
  {
    if root.data !in tree then []
    else if level == 1 then (if root.data != ignore then [root] else [])
    else if level > 1 then ChildrenLevel(tree, ignore, root.children, level - 1)
    else []
  }

  /** The loop over `root.children` in `_get_given_level`: the levels of the children, in order. */
  function ChildrenLevel(tree: Hierarchy, ignore: string, cs: seq<string>, level: int): seq<NodeRecord>
    requires WellFormed(tree) && forall c :: c in cs ==> c in tree
    decreases level, 1, |cs|
  {
    if cs == [] then []
    else ChildrenLevel(tree, ignore, cs[..|cs| - 1], level) + GivenLevel(tree, ignore, tree[cs[|cs| - 1]], level)
  }

  /** The children's levels hold exactly what the level of some child holds. */
  lemma ChildrenLevelMembers(tree: Hierarchy, ignore: string, cs: seq<string>, level: int, x: NodeRecord)
    requires WellFormed(tree) && forall c :: c in cs ==> c in tree
    ensures x in ChildrenLevel(tree, ignore, cs, level) <==> exists c :: c in cs && x in GivenLevel(tree, ignore, tree[c], level)
  {
    if x in ChildrenLevel(tree, ignore, cs, level) {
      var c := ChildrenLevelSource(tree, ignore, cs, level, x);
    }
    if exists c :: c in cs && x in GivenLevel(tree, ignore, tree[c], level) {
      var c :| c in cs && x in GivenLevel(tree, ignore, tree[c], level);
      ChildrenLevelHas(tree, ignore, cs, level, x, c);
    }
  }

  /** A node of the children's levels comes from the level of one of the children. */
  lemma {:induction false} ChildrenLevelSource(tree: Hierarchy, ignore: string, cs: seq<string>, level: int, x: NodeRecord)
      returns (c: string)
    requires WellFormed(tree) && (forall c :: c in cs ==> c in tree) && x in ChildrenLevel(tree, ignore, cs, level)
    ensures c in cs && x in GivenLevel(tree, ignore, tree[c], level)
    decreases |cs|
  {
    var cs' := cs[..|cs| - 1];
    var before, last := ChildrenLevel(tree, ignore, cs', level), GivenLevel(tree, ignore, tree[cs[|cs| - 1]], level);
    assert ChildrenLevel(tree, ignore, cs, level) == before + last;
    if x in last {
      c := cs[|cs| - 1];
    } else {
      assert forall d :: d in cs' ==> d in cs;
      c := ChildrenLevelSource(tree, ignore, cs', level, x);
    }
  }

  /** The level of any one of the children is part of the children's levels. */
  lemma {:induction false} ChildrenLevelHas(tree: Hierarchy, ignore: string, cs: seq<string>, level: int, x: NodeRecord, c: string)
    requires WellFormed(tree) && (forall c :: c in cs ==> c in tree)
    requires c in cs && x in GivenLevel(tree, ignore, tree[c], level)
    ensures x in ChildrenLevel(tree, ignore, cs, level)
    decreases |cs|
  {
    var cs' := cs[..|cs| - 1];
    var before, last := ChildrenLevel(tree, ignore, cs', level), GivenLevel(tree, ignore, tree[cs[|cs| - 1]], level);
    assert ChildrenLevel(tree, ignore, cs, level) == before + last;
    if c != cs[|cs| - 1] {
      assert cs == cs' + [cs[|cs| - 1]];
      assert c in cs';
      ChildrenLevelHas(tree, ignore, cs', level, x, c);
    }
  }

  /** `x` is reached from `root` by exactly `k` child links inside the hierarchy. */
  ghost predicate Below(tree: Hierarchy, root: NodeRecord, x: NodeRecord, k: nat)
    decreases k
  {
    if k == 0 then x == root
    else exists c :: c in root.children && c in tree && Below(tree, tree[c], x, k - 1)
  }

  /** Child links inside a hierarchy whose keys match its nodes lead from members to members. */
  lemma {:induction false} BelowMember(tree: Hierarchy, root: NodeRecord, x: NodeRecord, k: nat)
    requires KeysMatch(tree) && Member(tree, root) && Below(tree, root, x, k)
    ensures Member(tree, x)
    decreases k
  {
    if k > 0 {
      var c :| c in root.children && c in tree && Below(tree, tree[c], x, k - 1);
      BelowMember(tree, tree[c], x, k - 1);
    }
  }

  /** Level `level` holds exactly the nodes `level - 1` child links below the root, bar the ignored one. */
  lemma {:induction false} GivenLevelBelow(tree: Hierarchy, ignore: string, root: NodeRecord, level: int, x: NodeRecord)
    requires WellFormed(tree) && Member(tree, root)
    ensures x in GivenLevel(tree, ignore, root, level) <==>
      level >= 1 && x.data != ignore && Below(tree, root, x, level - 1)
    decreases level
  {
    if level > 1 {
      ChildrenLevelMembers(tree, ignore, root.children, level - 1, x);
      forall c | c in root.children
        ensures x in GivenLevel(tree, ignore, tree[c], level - 1) <==>
          x.data != ignore && Below(tree, tree[c], x, level - 2)
      {
        GivenLevelBelow(tree, ignore, tree[c], level - 1, x);
      }
    }
  }

  /** `_get_level_order`: the given levels 1 to `level`, one after the other. */
  function LevelOrder(tree: Hierarchy, ignore: string, root: NodeRecord, level: int): (r: seq<NodeRecord>)
    requires WellFormed(tree) && (root.data in tree ==> tree[root.data] == root)
    ensures level <= 0 || root.data !in tree ==> r == []
    decreases level
  {
    if level <= 0 then []
    else LevelOrder(tree, ignore, root, level - 1) + GivenLevel(tree, ignore, root, level)
  }

  /** `x` lies fewer than `level` child links below the root. */
  ghost predicate Within(tree: Hierarchy, root: NodeRecord, x: NodeRecord, level: int) {
    exists k: nat :: k < level && Below(tree, root, x, k)
  }

  /**
   * The level order holds exactly the nodes fewer than `level` child links below the root,
   * except the ignored one.
   */
  lemma {:induction false} LevelOrderMembers(tree: Hierarchy, ignore: string, root: NodeRecord, level: int, x: NodeRecord)
    requires WellFormed(tree) && Member(tree, root)
    ensures x in LevelOrder(tree, ignore, root, level) <==> x.data != ignore && Within(tree, root, x, level)
    decreases level
  {
    if level > 0 {
      LevelOrderMembers(tree, ignore, root, level - 1, x);
      GivenLevelBelow(tree, ignore, root, level, x);
      var lo, gl := LevelOrder(tree, ignore, root, level - 1), GivenLevel(tree, ignore, root, level);
      assert LevelOrder(tree, ignore, root, level) == lo + gl;
      assert x in lo + gl <==> x in lo || x in gl;
      WithinStep(tree, root, x, level);
    }
  }

  lemma WithinStep(tree: Hierarchy, root: NodeRecord, x: NodeRecord, level: int)
    requires level > 0
    ensures Within(tree, root, x, level) <==> Within(tree, root, x, level - 1) || Below(tree, root, x, level - 1)
  {
    if Within(tree, root, x, level) {
      var k: nat :| k < level && Below(tree, root, x, k);
      if k < level - 1 {
        assert Within(tree, root, x, level - 1);
      }
    }
    if Below(tree, root, x, level - 1) {
      var k: nat := level - 1;
      assert k < level && Below(tree, root, x, k);
    }
  }

  /**
   * `_search_nodes(node_key, key_tree, root)`: look the node up (KeyError when absent), climb
   * to its reference node, and collect the level order below it, leaving out the node itself.
   */
  function Search(rec: Recommender, kind: TreeKind, nodeKey: Option<string>, ceiling: string): (r: Result<seq<NodeRecord>>)
    requires WellFormed(rec.Tree(kind))
    ensures nodeKey.None? || nodeKey.value !in rec.Tree(kind) ==> r == KeyError
    ensures r.Ok? ==> forall x :: x in r.value ==> x.data != nodeKey.value && Member(rec.Tree(kind), x)
  {
    var tree := rec.Tree(kind);
    if nodeKey.None? || nodeKey.value !in tree then KeyError
    else
      var node := tree[nodeKey.value];
      var ref :- ReferenceNode(rec, kind, node, ceiling);
      var nodes := LevelOrder(tree, node.data, ref, rec.depth);
      assert forall x :: x in nodes ==> x.data != nodeKey.value && Member(tree, x) by {
        forall x | x in nodes ensures x.data != nodeKey.value && Member(tree, x) {
          LevelOrderMembers(tree, node.data, ref, rec.depth, x);
          var k: nat :| k < rec.depth && Below(tree, ref, x, k);
          BelowMember(tree, ref, x, k);
        }
      }
      Ok(nodes)
  }

  /**
   * A successful search returns exactly the nodes other than the origin that lie fewer than
   * `depth` child links below the reference node.
   */
  lemma SearchMembers(rec: Recommender, kind: TreeKind, key: string, ceiling: string, x: NodeRecord)
    requires WellFormed(rec.Tree(kind)) && key in rec.Tree(kind)
    requires Search(rec, kind, Some(key), ceiling).Ok?
    ensures var ref := ReferenceNode(rec, kind, rec.Tree(kind)[key], ceiling);
      && ref.Ok?
      && (x in Search(rec, kind, Some(key), ceiling).value <==>
            x.data != key && Within(rec.Tree(kind), ref.value, x, rec.depth))
  {
    var tree := rec.Tree(kind);
    var ref := ReferenceNode(rec, kind, tree[key], ceiling);
    LevelOrderMembers(tree, key, ref.value, rec.depth, x);
  }

  // ---------------------------------------------------------------------------------------
  // The same, appending into a shared list

  /** `_get_given_level(nodes, ignore, root, level, key_tree)`, appending to `nodes`. */
  method GetGivenLevel(tree: Hierarchy, ignore: string, root: NodeRecord, level: int, nodes: seq<NodeRecord>)
      returns (out: seq<NodeRecord>)
    requires WellFormed(tree) && (root.data in tree ==> tree[root.data] == root)
    ensures out == nodes + GivenLevel(tree, ignore, root, level)
    decreases level, 0
  {
    if root.data !in tree {
      return nodes;
    }
    if level == 1 {
      if root.data != ignore {
        out := nodes + [root];
      } else {
        out := nodes;
      }
    } else if level > 1 {
      out := GetChildrenLevel(tree, ignore, root.children, level - 1, nodes);
    } else {
      out := nodes;
    }
  }

  /** The loop over `root.children` in `_get_given_level`. */
  method GetChildrenLevel(tree: Hierarchy, ignore: string, cs: seq<string>, level: int, nodes: seq<NodeRecord>)
      returns (out: seq<NodeRecord>)
    requires WellFormed(tree) && forall c :: c in cs ==> c in tree
    ensures out == nodes + ChildrenLevel(tree, ignore, cs, level)
    decreases level, 1
  {
    out := nodes;
    for i := 0 to |cs|
      invariant out == nodes + ChildrenLevel(tree, ignore, cs[..i], level)
    {
      ChildrenLevelStep(tree, ignore, cs, i, level, nodes, out);
      out := GetGivenLevel(tree, ignore, tree[cs[i]], level, out);
    }
    assert cs[..|cs|] == cs;
  }

  lemma ChildrenLevelStep(tree: Hierarchy, ignore: string, cs: seq<string>, i: nat, level: int,
                          nodes: seq<NodeRecord>, out: seq<NodeRecord>)
    requires WellFormed(tree) && (forall c :: c in cs ==> c in tree) && i < |cs|
    requires out == nodes + ChildrenLevel(tree, ignore, cs[..i], level)
    ensures out + GivenLevel(tree, ignore, tree[cs[i]], level) == nodes + ChildrenLevel(tree, ignore, cs[..i + 1], level)
  {
    ChildrenLevelSnoc(tree, ignore, cs, i, level);
    var done := ChildrenLevel(tree, ignore, cs[..i], level);
    var last := GivenLevel(tree, ignore, tree[cs[i]], level);
    ConcatAssociative(nodes, done, last);
  }

  lemma ChildrenLevelSnoc(tree: Hierarchy, ignore: string, cs: seq<string>, i: nat, level: int)
    requires WellFormed(tree) && (forall c :: c in cs ==> c in tree) && i < |cs|
    ensures ChildrenLevel(tree, ignore, cs[..i + 1], level) == ChildrenLevel(tree, ignore, cs[..i], level) + GivenLevel(tree, ignore, tree[cs[i]], level)
  {
    assert cs[..i + 1][..i] == cs[..i];
  }

  /** `_get_level_order(ignore, node, level, key_tree)`. */
  method GetLevelOrder(tree: Hierarchy, ignore: string, root: NodeRecord, level: int) returns (nodes: seq<NodeRecord>)
    requires WellFormed(tree) && (root.data in tree ==> tree[root.data] == root)
    ensures nodes == LevelOrder(tree, ignore, root, level)
  {
    nodes := [];
    var i := 1;
    while i <= level
      invariant 1 <= i && (level >= 1 ==> i <= level + 1) && (level < 1 ==> i == 1)
      invariant nodes == LevelOrder(tree, ignore, root, i - 1)
      decreases level - i
    {
      nodes := GetGivenLevel(tree, ignore, root, i, nodes);
      i := i + 1;
    }
  }

  /** `_search_nodes`. */
  method SearchNodes(rec: Recommender, kind: TreeKind, nodeKey: Option<string>, ceiling: string)
      returns (r: Result<seq<NodeRecord>>)
    requires WellFormed(rec.Tree(kind))
    ensures r == Search(rec, kind, nodeKey, ceiling)
  {
    var tree := rec.Tree(kind);
    if nodeKey.None? || nodeKey.value !in tree {
      return KeyError;
    }
    var node := tree[nodeKey.value];
    var ref := ReferenceNode(rec, kind, node, ceiling);
    if ref.KeyError? {
      return KeyError;
    }
    var nodes := GetLevelOrder(tree, node.data, ref.value, rec.depth);
    r := Ok(nodes);
  }
}
