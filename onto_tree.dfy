/**
 * The three named hierarchies built from an ontology (ontotrees/onto_tree.py): merging
 * query rows into a hierarchy, label lookup, depth computation with its memo, and the
 * store of named hierarchies.
 */
module OntoTrees {
  import opened Wrappers
  import opened Seqs
  import opened Nodes

  /** A hierarchy: URI to node. */
  type Hierarchy = map<string, NodeRecord>

  const ThingUri := "http://www.w3.org/2002/07/owl#Thing"
  const TopObjectPropertyUri := "http://www.w3.org/2002/07/owl#topObjectProperty"
  const TopDataPropertyUri := "http://www.w3.org/2002/07/owl#topDataProperty"

  // ---------------------------------------------------------------------------------------
  // Labels

  /** An `rdfs:label` literal: its text and its language tag, if any. */
  datatype Label = Label(text: string, language: Option<string>)

  /** The language filter of `_get_rdfs_label`: `None` keeps all, `""` untagged, else exact tag. */
  predicate LangAccepts(lang: Option<string>, l: Label) {
    match lang
    case None => true
    case Some(tag) => if tag == "" then l.language.None? else l.language == Some(tag)
  }

  /** `_get_rdfs_label` over the subject's label literals in graph order. */
  function RdfsLabels(labels: seq<Label>, lang: Option<string>): seq<string> {
    if labels == [] then []
    else
      var rest := RdfsLabels(labels[1..], lang);
      if LangAccepts(lang, labels[0]) then [labels[0].text] + rest else rest
  }

  /** `name` is the text of some label that the language filter accepts. */
  ghost predicate FromAcceptedLabel(labels: seq<Label>, lang: Option<string>, name: string) {
    exists j :: 0 <= j < |labels| && LangAccepts(lang, labels[j]) && labels[j].text == name
  }

  /** Every name is the text of an accepted label, and there are no more names than labels. */
  lemma RdfsLabelsSound(labels: seq<Label>, lang: Option<string>)
    ensures |RdfsLabels(labels, lang)| <= |labels|
    ensures forall i :: 0 <= i < |RdfsLabels(labels, lang)| ==> FromAcceptedLabel(labels, lang, RdfsLabels(labels, lang)[i])
  {
    RdfsLabelsShorter(labels, lang);
    forall i | 0 <= i < |RdfsLabels(labels, lang)|
      ensures FromAcceptedLabel(labels, lang, RdfsLabels(labels, lang)[i])
    {
      var j := RdfsLabelsSource(labels, lang, i);
    }
  }

  lemma {:induction false} RdfsLabelsShorter(labels: seq<Label>, lang: Option<string>)
    ensures |RdfsLabels(labels, lang)| <= |labels|
  {
    if labels != [] {
      RdfsLabelsShorter(labels[1..], lang);
    }
  }

  /** The position of the label that the `i`-th name comes from. */
  lemma {:induction false} RdfsLabelsSource(labels: seq<Label>, lang: Option<string>, i: nat) returns (j: nat)
    requires i < |RdfsLabels(labels, lang)|
    ensures j < |labels| && LangAccepts(lang, labels[j]) && labels[j].text == RdfsLabels(labels, lang)[i]
  {
    var rest := RdfsLabels(labels[1..], lang);
    if LangAccepts(lang, labels[0]) && i == 0 {
      j := 0;
    } else {
      var i' := if LangAccepts(lang, labels[0]) then i - 1 else i;
      assert RdfsLabels(labels, lang)[i] == rest[i'];
      var j' := RdfsLabelsSource(labels[1..], lang, i');
      j := j' + 1;
      assert labels[j] == labels[1..][j'];
    }
  }

  /** The text of every accepted label is among the names. */
  lemma {:induction false} RdfsLabelsComplete(labels: seq<Label>, lang: Option<string>)
    ensures forall j :: 0 <= j < |labels| && LangAccepts(lang, labels[j]) ==> labels[j].text in RdfsLabels(labels, lang)
  {
    if labels != [] {
      RdfsLabelsComplete(labels[1..], lang);
      assert forall j :: 1 <= j < |labels| ==> labels[j] == labels[1..][j - 1];
    }
  }

  /** The first name, when there is one, is the text of the first accepted label. */
  lemma {:induction false} RdfsLabelsFirst(labels: seq<Label>, lang: Option<string>)
    ensures var r := RdfsLabels(labels, lang);
      r != [] ==> exists j :: 0 <= j < |labels| && LangAccepts(lang, labels[j]) && r[0] == labels[j].text
                             && forall k :: 0 <= k < j ==> !LangAccepts(lang, labels[k])
  {
    if labels != [] && !LangAccepts(lang, labels[0]) {
      RdfsLabelsFirst(labels[1..], lang);
      var rest := RdfsLabels(labels[1..], lang);
      if rest != [] {
        var j :| 0 <= j < |labels[1..]| && LangAccepts(lang, labels[1..][j]) && rest[0] == labels[1..][j].text
                 && forall k :: 0 <= k < j ==> !LangAccepts(lang, labels[1..][k]);
        assert labels[j + 1] == labels[1..][j];
        forall k | 0 <= k < j + 1 ensures !LangAccepts(lang, labels[k]) {
          if k > 0 {
            assert labels[k] == labels[1..][k - 1];
          }
        }
      }
    }
  }

  /** The texts of a list of labels, in order. */
  function Texts(labels: seq<Label>): seq<string> {
    seq(|labels|, i requires 0 <= i < |labels| => labels[i].text)
  }

  /** With no language requested every label is kept, in order. */
  lemma {:induction false} RdfsLabelsAnyLanguage(labels: seq<Label>)
    ensures RdfsLabels(labels, None) == Texts(labels)
  {
    if labels != [] {
      RdfsLabelsAnyLanguage(labels[1..]);
    }
  }

  /** The labels the language filter accepts, in graph order. */
  function Accepted(labels: seq<Label>, lang: Option<string>): seq<Label> {
    Filter(labels, (l: Label) => LangAccepts(lang, l))
  }

  /** One more label at the end adds its text at the end when it is accepted. */
  lemma {:induction false} RdfsLabelsSnoc(labels: seq<Label>, x: Label, lang: Option<string>)
    ensures RdfsLabels(labels + [x], lang) == RdfsLabels(labels, lang) + (if LangAccepts(lang, x) then [x.text] else [])
  {
    if labels == [] {
      assert [x][1..] == [];
    } else {
      assert (labels + [x])[1..] == labels[1..] + [x];
      RdfsLabelsSnoc(labels[1..], x, lang);
    }
  }

  /**
   * For every language setting the names are exactly the texts of the accepted labels, in
   * graph order and with repetitions kept.
   */
  lemma {:induction false} RdfsLabelsAreAccepted(labels: seq<Label>, lang: Option<string>)
    ensures RdfsLabels(labels, lang) == Texts(Accepted(labels, lang))
    decreases |labels|
  {
    if labels != [] {
      var init := labels[..|labels| - 1];
      var x := labels[|labels| - 1];
      assert labels == init + [x];
      RdfsLabelsAreAccepted(init, lang);
      RdfsLabelsSnoc(init, x, lang);
      var a := Accepted(init, lang);
      if LangAccepts(lang, x) {
        assert Accepted(labels, lang) == a + [x];
        assert Texts(a + [x]) == Texts(a) + [x.text];
      } else {
        assert Accepted(labels, lang) == a;
      }
    }
  }

  /** `s` contains `pat` as a contiguous piece (Python's `pat in s` on strings). */
  predicate HasSubstring(s: string, pat: string)
    decreases |s|
  {
    if |s| < |pat| then false else s[..|pat|] == pat || HasSubstring(s[1..], pat)
  }

  /** `"properties" in hierarchy_name`: property hierarchies take names from the label table. */
  predicate IsPropertyHierarchy(h: string) {
    HasSubstring(h, "properties")
  }

  /**
   * The display name a node of hierarchy `h` gets: from the property-label table for property
   * hierarchies, else the first accepted `rdfs:label`; `None` when there is none.
   */
  function DisplayName(h: string, key: string, propertiesText: map<string, string>,
                       labels: map<string, seq<Label>>, lang: Option<string>): Option<string>
  {
    if IsPropertyHierarchy(h) then
      if key in propertiesText then Some(propertiesText[key]) else None
    else
      var names := RdfsLabels(if key in labels then labels[key] else [], lang);
      if names != [] then Some(names[0]) else None
  }

  /**
   * A property hierarchy names a node from the label table exactly when its URI is there;
   * any other hierarchy names it after the first label accepted by the language filter.
   */
  lemma DisplayNameMeans(h: string, key: string, propertiesText: map<string, string>,
                         labels: map<string, seq<Label>>, lang: Option<string>)
    ensures var r := DisplayName(h, key, propertiesText, labels, lang);
      && (IsPropertyHierarchy(h) ==> (r.Some? <==> key in propertiesText) && (r.Some? ==> r.value == propertiesText[key]))
      && (!IsPropertyHierarchy(h) ==>
            (r.Some? <==> key in labels && exists j :: 0 <= j < |labels[key]| && LangAccepts(lang, labels[key][j]))
            && (r.Some? ==> exists j :: 0 <= j < |labels[key]| && LangAccepts(lang, labels[key][j])
                                     && r.value == labels[key][j].text
                                     && forall k :: 0 <= k < j ==> !LangAccepts(lang, labels[key][k])))
  {
    var ls := if key in labels then labels[key] else [];
    RdfsLabelsComplete(ls, lang);
    RdfsLabelsFirst(ls, lang);
  }

  // ---------------------------------------------------------------------------------------
  // Merging one row into a hierarchy (__add_node) and building from rows (__grow_tree)

  /** The merge of a repeated entity: the new row's parent wins, its domain and range are added. */
  function MergeRow(current: NodeRecord, node: NodeRecord): (r: NodeRecord)
    ensures r.parent == node.parent
    ensures r.data == current.data && r.name == current.name
    ensures r.children == current.children && r.isLeaf == current.isLeaf
    ensures forall d :: d in r.domains <==> d in current.domains || (node.domains != [] && d == node.domains[0])
    ensures forall g :: g in r.ranges <==> g in current.ranges || (node.ranges != [] && g == node.ranges[0])
    ensures IsPrefix(current.domains, r.domains) && IsPrefix(current.ranges, r.ranges)
  {
    var r0 := current.(parent := node.parent);
    var r1 := if node.domains != [] then r0.WithDomain(node.domains[0]) else r0;
    if node.ranges != [] then r1.WithRange(node.ranges[0]) else r1
  }

  /** Merging a row keeps a coherent node coherent. */
  lemma MergeRowKeepsCoherent(current: NodeRecord, node: NodeRecord)
    requires Coherent(current)
    ensures Coherent(MergeRow(current, node))
  {
    var r0 := current.(parent := node.parent);
    if node.domains != [] { UpdatesKeepCoherent(r0, node.domains[0]); }
    var r1 := if node.domains != [] then r0.WithDomain(node.domains[0]) else r0;
    if node.ranges != [] { UpdatesKeepCoherent(r1, node.ranges[0]); }
  }

  predicate IsPrefix<T(==)>(a: seq<T>, b: seq<T>) {
    |a| <= |b| && b[..|a|] == a
  }

  /**
   * `__add_node` on an existing hierarchy: store or merge `node` under its URI, then create the
   * parent stub (named `stubName`) or extend the existing parent, recording `node` as a child.
   */
  function AddNodeTo(tree: Hierarchy, node: NodeRecord, stubName: Option<string>): (r: Hierarchy)
    requires node.parent.Some?
  {
    var p := node.parent.value;
    var t1 := if node.data !in tree then tree[node.data := node]
              else tree[node.data := MergeRow(tree[node.data], node)];
    if p !in t1 then t1[p := NewNode(p, None, stubName).WithChild(node.data)]
    else t1[p := t1[p].WithChild(node.data)]
  }

  /** Every key maps to the node with that URI. */
  ghost predicate KeysMatch(tree: Hierarchy) {
    forall k :: k in tree ==> tree[k].data == k
  }

  /** Every child URI is a key. */
  ghost predicate ChildrenPresent(tree: Hierarchy) {
    forall k, c :: k in tree && c in tree[k].children ==> c in tree
  }

  /** Every parent URI is a key; stubs have no parent. */
  ghost predicate ParentsPresent(tree: Hierarchy) {
    forall k :: k in tree && tree[k].parent.Some? ==> tree[k].parent.value in tree
  }

  /** The shape that building a hierarchy from rows establishes. */
  ghost predicate WellFormed(tree: Hierarchy) {
    KeysMatch(tree) && ChildrenPresent(tree) && ParentsPresent(tree)
  }

  /** After merging: both URIs are keys and the entity is among its parent's children. */
  lemma AddNodeLinks(tree: Hierarchy, node: NodeRecord, stubName: Option<string>)
    requires node.parent.Some?
    ensures var r := AddNodeTo(tree, node, stubName);
      && r.Keys == tree.Keys + {node.data, node.parent.value}
      && node.data in r[node.parent.value].children
      && (forall k :: k in tree && k != node.data && k != node.parent.value ==> r[k] == tree[k])
  {
  }

  /** A merge keeps the key-to-URI correspondence and the well-formedness of the hierarchy. */
  lemma AddNodeKeepsWellFormed(tree: Hierarchy, node: NodeRecord, stubName: Option<string>)
    requires node.parent.Some?
    requires forall c :: c in node.children ==> c in tree
    ensures KeysMatch(tree) ==> KeysMatch(AddNodeTo(tree, node, stubName))
    ensures WellFormed(tree) ==> WellFormed(AddNodeTo(tree, node, stubName))
  {
    if KeysMatch(tree) {
      AddNodeKeysMatch(tree, node, stubName);
    }
    if WellFormed(tree) {
      AddNodeChildrenPresent(tree, node, stubName);
      AddNodeParentsPresent(tree, node, stubName);
    }
  }

  /** The merged entity, before its parent is touched. */
  function Merged(tree: Hierarchy, node: NodeRecord): NodeRecord {
    if node.data !in tree then node else MergeRow(tree[node.data], node)
  }

  /** The parent after the merge: a fresh stub or the stored node, with the entity as a child. */
  function MergedParent(tree: Hierarchy, node: NodeRecord, stubName: Option<string>): NodeRecord
    requires node.parent.Some?
  {
    var p := node.parent.value;
    if p == node.data then Merged(tree, node).WithChild(node.data)
    else if p !in tree then NewNode(p, None, stubName).WithChild(node.data)
    else tree[p].WithChild(node.data)
  }

  /** `AddNodeTo` stores the merged entity and then the merged parent. */
  lemma AddNodeToParts(tree: Hierarchy, node: NodeRecord, stubName: Option<string>)
    requires node.parent.Some?
    ensures AddNodeTo(tree, node, stubName)
         == tree[node.data := Merged(tree, node)][node.parent.value := MergedParent(tree, node, stubName)]
  {
  }

  lemma AddNodeKeysMatch(tree: Hierarchy, node: NodeRecord, stubName: Option<string>)
    requires node.parent.Some? && KeysMatch(tree)
    ensures KeysMatch(AddNodeTo(tree, node, stubName))
  {
    AddNodeToParts(tree, node, stubName);
    assert Merged(tree, node).data == node.data;
    assert MergedParent(tree, node, stubName).data == node.parent.value;
  }

  lemma AddNodeChildrenPresent(tree: Hierarchy, node: NodeRecord, stubName: Option<string>)
    requires node.parent.Some? && ChildrenPresent(tree)
    requires forall c :: c in node.children ==> c in tree
    ensures ChildrenPresent(AddNodeTo(tree, node, stubName))
  {
    AddNodeToParts(tree, node, stubName);
    var r := AddNodeTo(tree, node, stubName);
    var m, pn := Merged(tree, node), MergedParent(tree, node, stubName);
    assert forall c :: c in m.children ==> c in tree;
    assert forall c :: c in pn.children ==> c in tree || c == node.data;
    forall k, c | k in r && c in r[k].children ensures c in r {
      if k == node.parent.value {
        assert r[k] == pn;
      } else if k == node.data {
        assert r[k] == m;
      } else {
        assert r[k] == tree[k];
      }
    }
  }

  lemma AddNodeParentsPresent(tree: Hierarchy, node: NodeRecord, stubName: Option<string>)
    requires node.parent.Some? && ParentsPresent(tree)
    ensures ParentsPresent(AddNodeTo(tree, node, stubName))
  {
    AddNodeToParts(tree, node, stubName);
    var r := AddNodeTo(tree, node, stubName);
    var m, pn := Merged(tree, node), MergedParent(tree, node, stubName);
    assert m.parent == node.parent;
    assert pn.parent.Some? ==> pn.parent.value in tree || pn.parent == node.parent;
    forall k | k in r && r[k].parent.Some? ensures r[k].parent.value in r {
      if k == node.parent.value {
        assert r[k] == pn;
      } else if k == node.data {
        assert r[k] == m;
      } else {
        assert r[k] == tree[k];
      }
    }
  }

  /**
   * Merging a URI already present: the new parent wins, the old name is kept, the old children
   * stay in front, and the row's domain and range join the old ones.
   */
  lemma AddNodeMergePolicy(tree: Hierarchy, node: NodeRecord, stubName: Option<string>)
    requires node.parent.Some? && node.data in tree
    ensures var r := AddNodeTo(tree, node, stubName); var old_ := tree[node.data]; var n := r[node.data];
      && n.parent == node.parent
      && n.name == old_.name
      && IsPrefix(old_.children, n.children)
      && (node.parent.value != node.data ==> n.children == old_.children)
      && (forall d :: d in old_.domains ==> d in n.domains)
      && (forall g :: g in old_.ranges ==> g in n.ranges)
      && (node.domains != [] ==> node.domains[0] in n.domains)
      && (node.ranges != [] ==> node.ranges[0] in n.ranges)
  {
  }

  /** A new parent URI becomes a parentless stub whose only child is the entity. */
  lemma AddNodeStub(tree: Hierarchy, node: NodeRecord, stubName: Option<string>)
    requires node.parent.Some? && node.parent.value !in tree && node.parent.value != node.data
    ensures var s := AddNodeTo(tree, node, stubName)[node.parent.value];
      s == NodeRecord(node.parent.value, None, stubName, [node.data], [], [], false)
  {
  }

  /** A query row: entity, optional super-entity, optional domain, optional range. */
  datatype Row = Row(entity: string, super: Option<string>, domain: Option<string>, range: Option<string>)

  /** The node `__grow_tree` builds for one row before merging it. */
  function RowNode(h: string, row: Row, propertiesText: map<string, string>,
                   labels: map<string, seq<Label>>, lang: Option<string>): (r: NodeRecord)
    ensures r.data == row.entity && r.parent == Some(PyStr(row.super)) && r.children == []
    ensures row.super.None? ==> r.parent == Some("None")
    ensures r.domains == (if IsPropertyHierarchy(h) && Truthy(row.domain) then [row.domain.value] else [])
    ensures r.ranges == (if IsPropertyHierarchy(h) && Truthy(row.range) then [row.range.value] else [])
  {
    var n := NewNode(row.entity, Some(PyStr(row.super)), DisplayName(h, row.entity, propertiesText, labels, lang));
    if IsPropertyHierarchy(h) then
      var n1 := if Truthy(row.domain) then n.WithDomain(row.domain.value) else n;
      if Truthy(row.range) then n1.WithRange(row.range.value) else n1
    else n
  }

  /** The node built for a row is coherent: each of its lists holds at most one entry. */
  lemma RowNodeCoherent(h: string, row: Row, propertiesText: map<string, string>,
                        labels: map<string, seq<Label>>, lang: Option<string>)
    ensures Coherent(RowNode(h, row, propertiesText, labels, lang))
  {
    var n := NewNode(row.entity, Some(PyStr(row.super)), DisplayName(h, row.entity, propertiesText, labels, lang));
    if IsPropertyHierarchy(h) && Truthy(row.domain) { UpdatesKeepCoherent(n, row.domain.value); }
  }

  /** The hierarchy after `__grow_tree` has merged every row, in order. */
  function GrowFrom(tree: Hierarchy, h: string, rows: seq<Row>, propertiesText: map<string, string>,
                    labels: map<string, seq<Label>>, lang: Option<string>): Hierarchy
    decreases |rows|
  {
    if rows == [] then tree
    else
      var t := GrowFrom(tree, h, rows[..|rows| - 1], propertiesText, labels, lang);
      var node := RowNode(h, rows[|rows| - 1], propertiesText, labels, lang);
      AddNodeTo(t, node, DisplayName(h, node.parent.value, propertiesText, labels, lang))
  }

  /** Merging one more row advances the fold by one `AddNodeTo`. */
  lemma GrowFromSnoc(tree: Hierarchy, h: string, rows: seq<Row>, i: nat, propertiesText: map<string, string>,
                     labels: map<string, seq<Label>>, lang: Option<string>)
    requires i < |rows|
    ensures var node := RowNode(h, rows[i], propertiesText, labels, lang);
      GrowFrom(tree, h, rows[..i + 1], propertiesText, labels, lang)
      == AddNodeTo(GrowFrom(tree, h, rows[..i], propertiesText, labels, lang), node,
                   DisplayName(h, node.parent.value, propertiesText, labels, lang))
  {
    assert rows[..i + 1][..i] == rows[..i];
  }

  /** Building from rows keeps a well-formed hierarchy well-formed. */
  lemma {:induction false} GrowKeepsWellFormed(tree: Hierarchy, h: string, rows: seq<Row>,
      propertiesText: map<string, string>, labels: map<string, seq<Label>>, lang: Option<string>)
    requires WellFormed(tree)
    ensures WellFormed(GrowFrom(tree, h, rows, propertiesText, labels, lang))
    decreases |rows|
  {
    if rows != [] {
      var rows' := rows[..|rows| - 1];
      GrowKeepsWellFormed(tree, h, rows', propertiesText, labels, lang);
      var t := GrowFrom(tree, h, rows', propertiesText, labels, lang);
      var node := RowNode(h, rows[|rows| - 1], propertiesText, labels, lang);
      AddNodeKeepsWellFormed(t, node, DisplayName(h, node.parent.value, propertiesText, labels, lang));
    }
  }

  /**
   * Building from rows keeps every key, and makes every row's entity and its parent (`"None"`
   * for a row without super-entity) keys.
   */
  lemma {:induction false} GrowKeepsKeys(tree: Hierarchy, h: string, rows: seq<Row>,
      propertiesText: map<string, string>, labels: map<string, seq<Label>>, lang: Option<string>)
    ensures var r := GrowFrom(tree, h, rows, propertiesText, labels, lang);
      && tree.Keys <= r.Keys
      && (forall i :: 0 <= i < |rows| ==> rows[i].entity in r && PyStr(rows[i].super) in r)
    decreases |rows|
  {
    if rows != [] {
      var rows' := rows[..|rows| - 1];
      GrowKeepsKeys(tree, h, rows', propertiesText, labels, lang);
      var t := GrowFrom(tree, h, rows', propertiesText, labels, lang);
      var node := RowNode(h, rows[|rows| - 1], propertiesText, labels, lang);
      var r := AddNodeTo(t, node, DisplayName(h, node.parent.value, propertiesText, labels, lang));
      AddNodeLinks(t, node, DisplayName(h, node.parent.value, propertiesText, labels, lang));
      assert r == GrowFrom(tree, h, rows, propertiesText, labels, lang);
      assert node.data == rows[|rows| - 1].entity && node.parent.value == PyStr(rows[|rows| - 1].super);
      assert t.Keys <= r.Keys;
      forall i | 0 <= i < |rows| ensures rows[i].entity in r && PyStr(rows[i].super) in r {
        if i < |rows'| {
          assert rows'[i] == rows[i];
          assert rows[i].entity in t && PyStr(rows[i].super) in t;
        } else {
          assert i == |rows| - 1;
        }
      }
    }
  }

  /** `c` is recorded as a child of the stored node `k`. */
  ghost predicate HasChild(tree: Hierarchy, k: string, c: string) {
    k in tree && c in tree[k].children
  }

  /** A merge never drops a child link: a stored node keeps each of its children. */
  lemma AddNodeKeepsChild(tree: Hierarchy, node: NodeRecord, stubName: Option<string>, k: string, c: string)
    requires node.parent.Some? && HasChild(tree, k, c)
    ensures HasChild(AddNodeTo(tree, node, stubName), k, c)
  {
    AddNodeToParts(tree, node, stubName);
  }

  /** A merge records the entity as a child of its parent. */
  lemma AddNodeHasChild(tree: Hierarchy, node: NodeRecord, stubName: Option<string>)
    requires node.parent.Some?
    ensures HasChild(AddNodeTo(tree, node, stubName), node.parent.value, node.data)
  {
  }

  /** Building from rows keeps every child link of the starting hierarchy. */
  lemma {:induction false} GrowKeepsChildren(tree: Hierarchy, h: string, rows: seq<Row>,
      propertiesText: map<string, string>, labels: map<string, seq<Label>>, lang: Option<string>, k: string, c: string)
    requires HasChild(tree, k, c)
    ensures HasChild(GrowFrom(tree, h, rows, propertiesText, labels, lang), k, c)
    decreases |rows|
  {
    if rows != [] {
      GrowKeepsChildren(tree, h, rows[..|rows| - 1], propertiesText, labels, lang, k, c);
      GrowStepKeepsChild(tree, h, rows, propertiesText, labels, lang, k, c);
    }
  }

  /** One more row keeps a child link. */
  lemma GrowStepKeepsChild(tree: Hierarchy, h: string, rows: seq<Row>, propertiesText: map<string, string>,
                           labels: map<string, seq<Label>>, lang: Option<string>, k: string, c: string)
    requires rows != [] && HasChild(GrowFrom(tree, h, rows[..|rows| - 1], propertiesText, labels, lang), k, c)
    ensures HasChild(GrowFrom(tree, h, rows, propertiesText, labels, lang), k, c)
  {
    var t := GrowFrom(tree, h, rows[..|rows| - 1], propertiesText, labels, lang);
    var node := RowNode(h, rows[|rows| - 1], propertiesText, labels, lang);
    AddNodeKeepsChild(t, node, DisplayName(h, node.parent.value, propertiesText, labels, lang), k, c);
  }

  /** The last row's entity is a child of its parent. */
  lemma GrowStepLinks(tree: Hierarchy, h: string, rows: seq<Row>, propertiesText: map<string, string>,
                      labels: map<string, seq<Label>>, lang: Option<string>)
    requires rows != []
    ensures HasChild(GrowFrom(tree, h, rows, propertiesText, labels, lang), PyStr(rows[|rows| - 1].super), rows[|rows| - 1].entity)
  {
    var t := GrowFrom(tree, h, rows[..|rows| - 1], propertiesText, labels, lang);
    var node := RowNode(h, rows[|rows| - 1], propertiesText, labels, lang);
    AddNodeHasChild(t, node, DisplayName(h, node.parent.value, propertiesText, labels, lang));
  }

  /**
   * After building from rows, every row's entity is among the children of its parent
   * (`"None"` for a row without super-entity), whatever rows follow it.
   */
  lemma {:induction false} GrowKeepsLinks(tree: Hierarchy, h: string, rows: seq<Row>, i: nat,
      propertiesText: map<string, string>, labels: map<string, seq<Label>>, lang: Option<string>)
    requires i < |rows|
    ensures HasChild(GrowFrom(tree, h, rows, propertiesText, labels, lang), PyStr(rows[i].super), rows[i].entity)
    decreases |rows|
  {
    if i == |rows| - 1 {
      GrowStepLinks(tree, h, rows, propertiesText, labels, lang);
    } else {
      var rows' := rows[..|rows| - 1];
      GrowKeepsLinks(tree, h, rows', i, propertiesText, labels, lang);
      assert rows'[i] == rows[i];
      GrowStepKeepsChild(tree, h, rows, propertiesText, labels, lang, PyStr(rows[i].super), rows[i].entity);
    }
  }

  /** A row without super-entity ends among the children of the stub keyed `"None"`, whatever rows follow it. */
  lemma NoSuperGoesUnderNone(tree: Hierarchy, h: string, rows: seq<Row>, i: nat, propertiesText: map<string, string>,
                             labels: map<string, seq<Label>>, lang: Option<string>)
    requires i < |rows| && rows[i].super.None?
    ensures var r := GrowFrom(tree, h, rows, propertiesText, labels, lang);
      && "None" in r && rows[i].entity in r["None"].children
  {
    GrowKeepsLinks(tree, h, rows, i, propertiesText, labels, lang);
  }

  // ---------------------------------------------------------------------------------------
  // Depth (__get_max_depth)

  /** A ranking under which every child sits strictly below its parent: no cycle of children. */
  ghost predicate ChildRanked(tree: Hierarchy, rank: map<string, nat>) {
    && tree.Keys <= rank.Keys
    && forall k, c :: k in tree && c in tree[k].children && c in tree ==> rank[c] < rank[k]
  }

  ghost function Height(tree: Hierarchy, rank: map<string, nat>, k: string): nat {
    if k in tree && k in rank then rank[k] + 1 else 0
  }

  /** `__get_max_depth`: 0 for an absent URI, else one more than the deepest child subtree. */
  function MaxDepth(tree: Hierarchy, k: string, ghost rank: map<string, nat>): nat
    requires ChildRanked(tree, rank)
    decreases Height(tree, rank, k), 1
  {
    if k !in tree then 0
    else 1 + ChildrenDepth(tree, tree[k].children, rank, Height(tree, rank, k))
  }

  /** The running maximum of the loop over the children in `__get_max_depth`. */
  function ChildrenDepth(tree: Hierarchy, cs: seq<string>, ghost rank: map<string, nat>, ghost bound: nat): nat
    requires ChildRanked(tree, rank)
    requires forall c :: c in cs ==> Height(tree, rank, c) < bound
    decreases bound, 0, |cs|
  {
    if cs == [] then 0
    else
      var m := ChildrenDepth(tree, cs[..|cs| - 1], rank, bound);
      var d := MaxDepth(tree, cs[|cs| - 1], rank);
      if m < d then d else m
  }

  lemma {:induction false} ChildrenDepthIsMax(tree: Hierarchy, cs: seq<string>, rank: map<string, nat>, bound: nat)
    requires ChildRanked(tree, rank)
    requires forall c :: c in cs ==> Height(tree, rank, c) < bound
    ensures forall c :: c in cs ==> ChildrenDepth(tree, cs, rank, bound) >= MaxDepth(tree, c, rank)
    ensures cs == [] ==> ChildrenDepth(tree, cs, rank, bound) == 0
    ensures cs != [] ==> exists c :: c in cs && ChildrenDepth(tree, cs, rank, bound) == MaxDepth(tree, c, rank)
    decreases |cs|
  {
    if cs != [] {
      var cs', last := cs[..|cs| - 1], cs[|cs| - 1];
      ChildrenDepthIsMax(tree, cs', rank, bound);
      assert cs == cs' + [last];
      var m := ChildrenDepth(tree, cs', rank, bound);
      if cs' == [] || m < MaxDepth(tree, last, rank) {
        assert ChildrenDepth(tree, cs, rank, bound) == MaxDepth(tree, last, rank);
      } else {
        var c' :| c' in cs' && m == MaxDepth(tree, c', rank);
        assert c' in cs && ChildrenDepth(tree, cs, rank, bound) == MaxDepth(tree, c', rank);
      }
    }
  }

  /**
   * The depth of a URI: 0 when absent, 1 for a node without children, at least one more than
   * every child's depth and exactly one more than some child's.
   */
  lemma MaxDepthIsHeight(tree: Hierarchy, k: string, rank: map<string, nat>)
    requires ChildRanked(tree, rank)
    ensures k !in tree <==> MaxDepth(tree, k, rank) == 0
    ensures k in tree && tree[k].children == [] ==> MaxDepth(tree, k, rank) == 1
    ensures k in tree ==> forall c :: c in tree[k].children ==> MaxDepth(tree, k, rank) >= 1 + MaxDepth(tree, c, rank)
    ensures k in tree && tree[k].children != [] ==>
      exists c :: c in tree[k].children && MaxDepth(tree, k, rank) == 1 + MaxDepth(tree, c, rank)
  {
    if k in tree {
      ChildrenDepthIsMax(tree, tree[k].children, rank, Height(tree, rank, k));
    }
  }

  /** The depth does not depend on which ranking witnesses the absence of cycles. */
  lemma {:induction false} MaxDepthRankIrrelevant(tree: Hierarchy, k: string, rank1: map<string, nat>, rank2: map<string, nat>)
    requires ChildRanked(tree, rank1) && ChildRanked(tree, rank2)
    ensures MaxDepth(tree, k, rank1) == MaxDepth(tree, k, rank2)
    decreases Height(tree, rank1, k), 1
  {
    if k in tree {
      ChildrenDepthRankIrrelevant(tree, tree[k].children, rank1, rank2, Height(tree, rank1, k), Height(tree, rank2, k));
    }
  }

  lemma {:induction false} ChildrenDepthRankIrrelevant(tree: Hierarchy, cs: seq<string>, rank1: map<string, nat>,
      rank2: map<string, nat>, bound1: nat, bound2: nat)
    requires ChildRanked(tree, rank1) && ChildRanked(tree, rank2)
    requires forall c :: c in cs ==> Height(tree, rank1, c) < bound1
    requires forall c :: c in cs ==> Height(tree, rank2, c) < bound2
    ensures ChildrenDepth(tree, cs, rank1, bound1) == ChildrenDepth(tree, cs, rank2, bound2)
    decreases bound1, 0, |cs|
  {
    if cs != [] {
      ChildrenDepthRankIrrelevant(tree, cs[..|cs| - 1], rank1, rank2, bound1, bound2);
      MaxDepthRankIrrelevant(tree, cs[|cs| - 1], rank1, rank2);
    }
  }

  // ---------------------------------------------------------------------------------------
  // The store of named hierarchies

  /** The hierarchy already stored under `h`, or the empty one `__create_hierarchy` would make. */
  function Existing(trees: map<string, Hierarchy>, h: string): Hierarchy {
    if h in trees then trees[h] else map[]
  }

  /** Storing twice under one name keeps the second value. */
  lemma ReplaceTwice(t: map<string, Hierarchy>, h: string, a: Hierarchy, b: Hierarchy)
    ensures t[h := a][h := b] == t[h := b]
  {
  }

  class OntologyTrees {
    var roots: map<string, string>
    var trees: map<string, Hierarchy>
    var maxDepth: map<string, nat>
    var treesNames: seq<string>
    const lang: Option<string>
    /** The property-label table read at construction. */
    const propertiesText: map<string, string>

    /** The names list and the hierarchy map agree; depths are memoised only for existing names. */
    ghost predicate Valid()
      reads this
    {
      && NoDuplicates(treesNames)
      && (forall h :: h in trees <==> h in treesNames)
      && maxDepth.Keys <= trees.Keys
    }

    constructor (lang: Option<string>, propertiesText: map<string, string>)
      ensures Valid()
      ensures roots == map[] && trees == map[] && maxDepth == map[] && treesNames == []
      ensures this.lang == lang && this.propertiesText == propertiesText
    {
      this.roots := map[];
      this.trees := map[];
      this.maxDepth := map[];
      this.treesNames := [];
      this.lang := lang;
      this.propertiesText := propertiesText;
    }

    /** `__create_hierarchy`: a new name gets an empty hierarchy; an existing one is left alone. */
    method CreateHierarchy(h: string)
      requires Valid()
      modifies this`trees, this`treesNames
      ensures Valid()
      ensures h !in old(trees) ==> trees == old(trees)[h := map[]] && treesNames == old(treesNames) + [h]
      ensures h in old(trees) ==> trees == old(trees) && treesNames == old(treesNames)
    {
      if h !in trees {
        trees := trees[h := map[]];
        treesNames := treesNames + [h];
      }
    }

    /** `__add_node`: merge `node` into hierarchy `h`; an unknown name changes nothing. */
    method AddNode(labels: map<string, seq<Label>>, h: string, node: NodeRecord)
      requires Valid()
      requires node.parent.Some?
      modifies this`trees
      ensures Valid()
      ensures h in old(trees) ==>
        trees == old(trees)[h := AddNodeTo(old(trees)[h], node, DisplayName(h, node.parent.value, propertiesText, labels, lang))]
      ensures h !in old(trees) ==> trees == old(trees)
    {
      if h in trees {
        var tree := trees[h];
        ghost var stubName := DisplayName(h, node.parent.value, propertiesText, labels, lang);
        ghost var merged := AddNodeTo(tree, node, stubName);
        if node.data !in tree {
          tree := tree[node.data := node];
        } else {
          var current := tree[node.data];
          ghost var row := MergeRow(current, node);
          current := current.(parent := node.parent);
          if node.domains != [] {
            current := current.WithDomain(node.domains[0]);
          }
          if node.ranges != [] {
            current := current.WithRange(node.ranges[0]);
          }
          assert current == row;
          tree := tree[node.data := current];
        }
        var p := node.parent.value;
        if p !in tree {
          var parentNode := NewNode(p, None, None).WithChild(node.data);
          parentNode := parentNode.(name := DisplayName(h, p, propertiesText, labels, lang));
          assert parentNode == NewNode(p, None, stubName).WithChild(node.data);
          tree := tree[p := parentNode];
        } else {
          tree := tree[p := tree[p].WithChild(node.data)];
        }
        assert tree == merged;
        trees := trees[h := tree];
      }
    }

    /** The node object `__grow_tree` makes for one row, before merging it. */
    method BuildRowNode(labels: map<string, seq<Label>>, h: string, row: Row) returns (node: Node)
      ensures fresh(node)
      ensures node.Record() == RowNode(h, row, propertiesText, labels, lang)
    {
      node := new Node(row.entity, Some(PyStr(row.super)), None);
      if IsPropertyHierarchy(h) {
        if row.entity in propertiesText {
          node.name := Some(propertiesText[row.entity]);
        }
        if Truthy(row.domain) {
          node.AddDomain(row.domain.value);
        }
        if Truthy(row.range) {
          node.AddRange(row.range.value);
        }
      } else {
        var names := RdfsLabels(if row.entity in labels then labels[row.entity] else [], lang);
        if names != [] {
          node.name := Some(names[0]);
        }
      }
    }

    /** `__grow_tree`: build a node object per row and merge it into hierarchy `h`. */
    method GrowTree(labels: map<string, seq<Label>>, h: string, rows: seq<Row>)
      requires Valid()
      modifies this`trees
      ensures Valid()
      ensures h in old(trees) ==> trees == old(trees)[h := GrowFrom(old(trees)[h], h, rows, propertiesText, labels, lang)]
      ensures h !in old(trees) ==> trees == old(trees)
    {
      for i := 0 to |rows|
        invariant Valid()
        invariant h in old(trees) ==> trees == old(trees)[h := GrowFrom(old(trees)[h], h, rows[..i], propertiesText, labels, lang)]
        invariant h !in old(trees) ==> trees == old(trees)
      {
        var node := BuildRowNode(labels, h, rows[i]);
        var record := node.Record();
        ghost var start := Existing(old(trees), h);
        GrowFromSnoc(start, h, rows, i, propertiesText, labels, lang);
        ghost var before := GrowFrom(start, h, rows[..i], propertiesText, labels, lang);
        AddNode(labels, h, record);
        ReplaceTwice(old(trees), h, before, GrowFrom(start, h, rows[..i + 1], propertiesText, labels, lang));
      }
      assert rows[..|rows|] == rows;
    }

    /** One block of `load_ontology`: create hierarchy `h`, record its root, grow it from rows. */
    method BuildHierarchy(labels: map<string, seq<Label>>, h: string, root: string, rows: seq<Row>)
      requires Valid()
      modifies this`trees, this`treesNames, this`roots
      ensures Valid()
      ensures roots == old(roots)[h := root]
      ensures trees == old(trees)[h := GrowFrom(Existing(old(trees), h), h, rows, propertiesText, labels, lang)]
    {
      ghost var t0 := trees;
      ghost var e := Existing(t0, h);
      CreateHierarchy(h);
      assert trees == t0[h := e];
      roots := roots[h := root];
      GrowTree(labels, h, rows);
      ReplaceTwice(t0, h, e, GrowFrom(e, h, rows, propertiesText, labels, lang));
    }

    /**
     * The orchestration of `load_ontology` once the graph has been queried: the three
     * hierarchies, their roots, and the result rows of the three fixed queries.
     */
    method LoadOntology(labels: map<string, seq<Label>>, classRows: seq<Row>, objectRows: seq<Row>, dataRows: seq<Row>)
      requires Valid()
      modifies this`trees, this`treesNames, this`roots
      ensures Valid()
      ensures roots == old(roots)["classes" := ThingUri]["object_properties" := TopObjectPropertyUri]["data_properties" := TopDataPropertyUri]
      ensures trees == old(trees)
        ["classes" := GrowFrom(Existing(old(trees), "classes"), "classes", classRows, propertiesText, labels, lang)]
        ["object_properties" := GrowFrom(Existing(old(trees), "object_properties"), "object_properties", objectRows, propertiesText, labels, lang)]
        ["data_properties" := GrowFrom(Existing(old(trees), "data_properties"), "data_properties", dataRows, propertiesText, labels, lang)]
    {
      BuildHierarchy(labels, "classes", ThingUri, classRows);
      BuildHierarchy(labels, "object_properties", TopObjectPropertyUri, objectRows);
      BuildHierarchy(labels, "data_properties", TopDataPropertyUri, dataRows);
    }

    /**
     * `get_max_depth`: the depth from `node` is computed the first time a hierarchy is asked
     * about and memoised per hierarchy name; later calls return the memo whatever the node.
     */
    method GetMaxDepth(h: string, node: string, ghost rank: map<string, nat>) returns (r: Option<nat>)
      requires Valid()
      requires h in trees && h !in maxDepth ==> ChildRanked(trees[h], rank)
      modifies this`maxDepth
      ensures Valid()
      ensures h !in trees ==> r == None && maxDepth == old(maxDepth)
      ensures h in old(maxDepth) ==> r == Some(old(maxDepth)[h]) && maxDepth == old(maxDepth)
      ensures h in trees && h !in old(maxDepth) ==>
        r == Some(MaxDepth(trees[h], node, rank)) && maxDepth == old(maxDepth)[h := r.value]
    {
      if h in trees {
        if h !in maxDepth {
          maxDepth := maxDepth[h := MaxDepth(trees[h], node, rank)];
        }
        r := Some(maxDepth[h]);
      } else {
        r := None;
      }
    }

    /** `get_tree`: the hierarchy of that name, `None` when no such hierarchy was created. */
    function GetTree(h: string): (r: Option<Hierarchy>)
      reads this
      ensures r.Some? <==> h in trees
      ensures r.Some? ==> r.value == trees[h]
    {
      if h in trees then Some(trees[h]) else None
    }

    /** `replace_tree`: swaps the hierarchy of an existing name; the set of names never changes. */
    method ReplaceTree(h: string, tree: Hierarchy)
      requires Valid()
      modifies this`trees
      ensures Valid()
      ensures trees.Keys == old(trees).Keys
      ensures h in old(trees) ==> trees == old(trees)[h := tree]
      ensures h !in old(trees) ==> trees == old(trees)
    {
      if h in trees {
        trees := trees[h := tree];
      }
    }

    /** `get_root`: the root URI recorded for that name, `None` when there is none. */
    function GetRoot(h: string): (r: Option<string>)
      reads this
      ensures r.Some? <==> h in roots
      ensures r.Some? ==> r.value == roots[h]
    {
      if h in roots then Some(roots[h]) else None
    }
  }
}
