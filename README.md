# ontoexplorer: ontology hierarchies and question recommendations, in Dafny

ontoexplorer builds three hierarchies from an OWL ontology: classes, object properties and data
properties. `ontotrees/onto_tree.py` grows each hierarchy from the rows of a SPARQL query. Every
row is merged into a map from URI to `Node` (`ontotrees/node.py`), and a parent stub is created
when the parent is not yet known. `recommendations.py` uses the stored hierarchies to answer a
question given as triples. It decides which entities of the question may be exchanged. For each
exchangeable entity it climbs to a reference node, collects the nodes level by level below it,
and keeps the related properties or classes by their domains and ranges against the
`rdfs:subClassOf` relation. It renders each kept node and returns the first `size` renderings.

The project has these modules:

- `Nodes` (node.dfy). A node is a value (`NodeRecord`), and its three update rules are defined
  once on that value. A `Node` class performs the same updates in place.
- `OntoTrees` (onto_tree.dfy) covers label lookup, the merge of one row, the fold over a query's
  rows, and the depth with its memo. The `OntologyTrees` class is the store of named
  hierarchies, with fields that its methods update.
- `Subclass` (subclass.dfy) covers `_is_descendent_of`, `_has_ancestor_in` and
  `_has_intersection`.
- `Engine` (engine.dfy) holds the recommender's fixed inputs, which the constructor loads.
- `Relatives` (relatives.dfy) covers climbing to the reference node and the level-order search.
- `Exchange` (exchange.dfy) covers the three loops of `entities_that_can_be_exchanged`.
- `Recommendations` (recommendations.dfy) covers the property and class filters and the loop of
  `get_recommendations`.
- `Seqs` and `Wrappers` are helpers: duplicate-free and subsequence facts, `Filter`, `Result`
  and `Option`, and Python truthiness and `str(None)`.

The functions are the specification. Most loops of the source update variables step by step,
and each of those is a Dafny method: a method with a loop, or a recursive method for the
recursive `_get_given_level`. Each method is proved equal to a function over the same inputs,
and the properties the source relies on are proved about those functions as lemmas.

Some source loops only compute a value, and those are modelled as recursive functions with no
method:

- the language filter of `_get_rdfs_label` (onto_tree.py:36-38);
- the running maximum over the children in `__get_max_depth` (onto_tree.py:114-118);
- the scans in `_is_descendent_of`, `_has_ancestor_in` and `_has_intersection`
  (recommendations.py:119-144).

Some conventions of the model:

- A Python `KeyError` is the `KeyError` result. This covers a missing node key, a climb past a
  stub's absent parent, and `prop_ref[obj]` for a value class without a link.
- `if x:` on an optional string means "present and not empty".
- `str(row[1])` of a missing super-entity is `"None"`.
- When every triple of the question is a value triple, the second loop of
  `entities_that_can_be_exchanged` (recommendations.py:340-343) overrides the flags of the
  first loop (recommendations.py:322-337). The comment at recommendations.py:327 says that a
  known class on the right can be exchanged. For `(x1, has_value, ClassA)`, though, the code
  ends with x1 True and ClassA False, and the model follows the code
  (`Exchange.SingleValueTriple`).

## Model

| member | source | states |
|---|---|---|
| Nodes.NodeRecord.WithChild | ontotrees/node.py:15-18 | a child that is already present changes nothing; a new child is appended last and clears the leaf flag; no other field changes |
| Nodes.NodeRecord.WithDomain | ontotrees/node.py:20-22 | the domain is afterwards present; the list either stays the same (the domain was already there) or gains exactly that domain at the end; nothing else changes |
| Nodes.NodeRecord.WithRange | ontotrees/node.py:24-26 | same as for domains, on the range list |
| Nodes.UpdatesKeepCoherent | ontotrees/node.py:15-26 | each of the three updates keeps the lists duplicate-free and keeps "leaf exactly when childless" |
| Nodes.AddTwiceIsAddOnce | ontotrees/node.py:15-26 | adding the same child, domain or range twice equals adding it once |
| Seqs.AppendNew | ontotrees/node.py:16-26 | the membership-guarded append: the element is present afterwards, membership grows by exactly that element, the list is unchanged exactly when it was already present and otherwise gains it at the end, and duplicate-freedom is kept |
| Nodes.Node.constructor | ontotrees/node.py:2-13 | a new node has the given URI, parent and name, empty lists, and is a leaf |
| Nodes.NewNode | ontotrees/node.py:2-13 | the record `Node(data, parent, name)` starts as: those three fields, no children, domains or ranges, and a leaf; Node.constructor and `UpdatesKeepCoherent` use it |
| Nodes.Node.AddChild | ontotrees/node.py:15-18 | the in-place update leaves the node in the state `WithChild` describes |
| Nodes.Node.AddDomain | ontotrees/node.py:20-22 | the in-place update leaves the node in the state `WithDomain` describes |
| Nodes.Node.AddRange | ontotrees/node.py:24-26 | the in-place update leaves the node in the state `WithRange` describes |
| OntoTrees.RdfsLabels | ontotrees/onto_tree.py:16-39 | the names `_get_rdfs_label` collects; its meaning is stated by the lemmas that follow |
| OntoTrees.LangAccepts | ontotrees/onto_tree.py:18-31 | the three `langfilter`s: no language accepts every label, `""` accepts exactly the untagged labels, any other tag accepts exactly the labels with that tag; RdfsLabelsAreAccepted and RdfsLabelsAnyLanguage use it |
| OntoTrees.RdfsLabelsAreAccepted | ontotrees/onto_tree.py:16-39 | for every language setting the names are exactly the texts of the accepted labels, in graph order with repetitions kept, against the independent `Filter` |
| OntoTrees.RdfsLabelsSound | ontotrees/onto_tree.py:16-39 | there are no more names than labels, and every name is the text of a label that the language filter accepts |
| OntoTrees.RdfsLabelsComplete | ontotrees/onto_tree.py:36-38 | the text of every accepted label is among the names |
| OntoTrees.RdfsLabelsFirst | ontotrees/onto_tree.py:36-39 | the first name is the text of the first accepted label in graph order |
| OntoTrees.RdfsLabelsAnyLanguage | ontotrees/onto_tree.py:31-38 | without a language every label's text is kept, in order |
| OntoTrees.DisplayName | ontotrees/onto_tree.py:61-72 | the name a node gets in a hierarchy (also used for stubs at ontotrees/onto_tree.py:156-162); its meaning is stated by DisplayNameMeans |
| OntoTrees.HasSubstring | ontotrees/onto_tree.py:61 | Python's `pat in s` on strings: some position of `s` starts a copy of `pat` |
| OntoTrees.IsPropertyHierarchy | ontotrees/onto_tree.py:61 | `"properties" in hierarchy_name`, the test at ontotrees/onto_tree.py:61 and 156 that chooses the label table over `rdfs:label`; DisplayNameMeans and RowNode use it |
| OntoTrees.DisplayNameMeans | ontotrees/onto_tree.py:61-72 | a property hierarchy takes a node's name from the label table exactly when the URI is there; any other hierarchy names a node exactly when an accepted label exists, and uses the first one |
| OntoTrees.MergeRow | ontotrees/onto_tree.py:145-150 | merging a repeated entity: the new parent wins; the name and children are kept; the old domains and ranges stay in front, and the row's first domain and first range join them |
| OntoTrees.MergeRowKeepsCoherent | ontotrees/onto_tree.py:145-150 | the merge keeps a coherent node coherent |
| OntoTrees.AddNodeTo | ontotrees/onto_tree.py:139-170 | `__add_node` on a hierarchy value; its lemmas follow |
| OntoTrees.AddNodeLinks | ontotrees/onto_tree.py:139-168 | after `__add_node` both the entity and its parent are keys, the entity is among the parent's children, and every other key is untouched |
| OntoTrees.AddNodeKeepsWellFormed | ontotrees/onto_tree.py:139-168 | `__add_node` keeps every key mapped to the node with that URI, and keeps every child and parent URI a key |
| OntoTrees.Merged | ontotrees/onto_tree.py:142-150 | the entity stored by a merge: the row's node when new, otherwise the merge of the stored node with it |
| OntoTrees.AddNodeToParts | ontotrees/onto_tree.py:142-168 | `__add_node` stores the merged entity and then the merged parent (a fresh stub or the stored node with the child added) |
| OntoTrees.MergedParent | ontotrees/onto_tree.py:152-168 | the parent stored by `__add_node`: the stored parent, or a new stub when the parent is unknown, in both cases with the entity added as a child (the merged entity itself when it is its own parent); AddNodeStub, AddNodeHasChild and AddNodeLinks state its meaning |
| OntoTrees.AddNodeKeysMatch | ontotrees/onto_tree.py:142-168 | every key keeps mapping to the node with that URI |
| OntoTrees.AddNodeChildrenPresent | ontotrees/onto_tree.py:142-168 | every child URI stays a key |
| OntoTrees.AddNodeParentsPresent | ontotrees/onto_tree.py:142-168 | every parent URI stays a key |
| OntoTrees.AddNodeKeepsChild | ontotrees/onto_tree.py:142-168 | a merge keeps every stored node and each of its children |
| OntoTrees.AddNodeHasChild | ontotrees/onto_tree.py:153-168 | a merge records the entity among its parent's children |
| OntoTrees.AddNodeMergePolicy | ontotrees/onto_tree.py:144-150 | for a URI already present: the new parent, the old name, the old children in front, and the old and new domains and ranges |
| OntoTrees.AddNodeStub | ontotrees/onto_tree.py:153-164 | an unknown parent becomes a parentless non-leaf stub whose only child is the entity, named by the display-name rule |
| OntoTrees.RowNode | ontotrees/onto_tree.py:58-72 | the node built for a row has the row's entity as URI and `str(super)` as parent (`"None"` when absent); it has a domain and a range only in a property hierarchy and only for present, non-empty values |
| OntoTrees.RowNodeCoherent | ontotrees/onto_tree.py:58-72 | the node built for a row is coherent |
| OntoTrees.GrowFrom | ontotrees/onto_tree.py:56-73 | `__grow_tree` as a fold of `__add_node` over the rows in order; its lemmas follow |
| OntoTrees.GrowFromSnoc | ontotrees/onto_tree.py:57-73 | merging one more row is one more `__add_node` on the fold so far |
| OntoTrees.GrowKeepsWellFormed | ontotrees/onto_tree.py:56-73 | growing from rows keeps a well-formed hierarchy well-formed |
| OntoTrees.GrowKeepsKeys | ontotrees/onto_tree.py:56-73 | growing keeps every key and makes each row's entity and its parent keys |
| OntoTrees.GrowStepKeepsChild | ontotrees/onto_tree.py:57-73 | merging one more row keeps every child link |
| OntoTrees.GrowStepLinks | ontotrees/onto_tree.py:57-73 | merging a row records its entity among its parent's children |
| OntoTrees.GrowKeepsChildren | ontotrees/onto_tree.py:56-73 | growing keeps every child link of the starting hierarchy |
| OntoTrees.GrowKeepsLinks | ontotrees/onto_tree.py:56-73 | after growing, every row's entity is among the children of its parent (`str` of its super-entity), whatever rows follow it |
| OntoTrees.NoSuperGoesUnderNone | ontotrees/onto_tree.py:56-73 | a row without a super-entity ends among the children of the stub keyed `"None"`, whatever rows follow it |
| OntoTrees.MaxDepth | ontotrees/onto_tree.py:108-119 | `__get_max_depth`; its meaning is stated by MaxDepthIsHeight |
| OntoTrees.ChildrenDepth | ontotrees/onto_tree.py:114-118 | the loop's running maximum over the children; stated by ChildrenDepthIsMax |
| OntoTrees.ChildrenDepthIsMax | ontotrees/onto_tree.py:114-118 | the loop's running maximum is at least every child's depth and equals some child's depth (0 with no children) |
| OntoTrees.MaxDepthIsHeight | ontotrees/onto_tree.py:108-119 | the depth is 0 exactly for an absent URI, 1 for a node without children, and otherwise one more than the deepest child |
| OntoTrees.MaxDepthRankIrrelevant | ontotrees/onto_tree.py:108-119 | the depth does not depend on which ranking witnesses the absence of cycles |
| OntoTrees.Existing | ontotrees/onto_tree.py:132-137 | the hierarchy stored under a name, or the empty one `__create_hierarchy` makes |
| OntoTrees.OntologyTrees.constructor | ontotrees/onto_tree.py:45-54 | the store starts empty, with the given language and label table |
| OntoTrees.OntologyTrees.CreateHierarchy | ontotrees/onto_tree.py:132-137 | a new name gets an empty hierarchy and joins the names list; an existing name is left alone |
| OntoTrees.OntologyTrees.AddNode | ontotrees/onto_tree.py:139-170 | the named hierarchy becomes `AddNodeTo` of it; an unknown name changes nothing |
| OntoTrees.OntologyTrees.BuildRowNode | ontotrees/onto_tree.py:58-72 | the node object built for a row is a fresh `Node` whose state is `RowNode` |
| OntoTrees.OntologyTrees.GrowTree | ontotrees/onto_tree.py:56-73 | the named hierarchy becomes the fold of `__add_node` over the rows in order; an unknown name changes nothing |
| OntoTrees.OntologyTrees.BuildHierarchy | ontotrees/onto_tree.py:89-92 | create the hierarchy, record its root, and grow it from the rows |
| OntoTrees.OntologyTrees.LoadOntology | ontotrees/onto_tree.py:89-106 | the three hierarchies are grown from their rows, in order, under their fixed names and roots |
| OntoTrees.OntologyTrees.GetMaxDepth | ontotrees/onto_tree.py:121-130 | the first call per hierarchy computes and memoises the depth from the given node; later calls return the memo whatever the node; an unknown name gives `None` |
| OntoTrees.OntologyTrees.GetTree | ontotrees/onto_tree.py:172-176 | the hierarchy of that name, `None` exactly when no such hierarchy exists |
| OntoTrees.OntologyTrees.ReplaceTree | ontotrees/onto_tree.py:178-182 | replaces an existing hierarchy only; the set of names never changes |
| OntoTrees.OntologyTrees.GetRoot | ontotrees/onto_tree.py:184-188 | the recorded root, `None` exactly when the name has none |
| Subclass.IsDescendentOf | recommendations.py:118-125 | `_is_descendent_of`; its meaning is stated by DescendentIffChain |
| Subclass.ScanSubjects | recommendations.py:119-124 | the loop over the subjects of `rdfs:subClassOf` edges into the super-class, in graph order |
| Subclass.DescendentIffChain | recommendations.py:118-125 | `_is_descendent_of(c, sup)` holds exactly when a chain of one or more subclass edges leads from `c` up to `sup` |
| Subclass.DescendentRanksBelow | recommendations.py:118-125 | a descendant ranks strictly below its ancestor |
| Subclass.NotOwnDescendent | recommendations.py:118-125 | no class descends from itself, and an absent entity descends from nothing |
| Subclass.HasAncestorIn | recommendations.py:127-136 | `_has_ancestor_in`; its meaning is stated by HasAncestorInFirst |
| Subclass.HasAncestorInFirst | recommendations.py:127-136 | the answer is `None` exactly when no candidate is an ancestor, and otherwise it is the first candidate that is one |
| Subclass.HasIntersection | recommendations.py:138-144 | true exactly when every element of the first list is in the second; always true for a list against itself |
| Relatives.Ascendant | recommendations.py:71-78 | level 0 or reaching the ceiling returns the node; a result found inside the hierarchy is a stored node |
| Relatives.AscendantIsClimb | recommendations.py:71-78 | `_get_ascedent(-n, ...)` returns `x` exactly when a climb of at most `n` parent links stops at `x`, early at the ceiling |
| Relatives.ReferenceNode | recommendations.py:80-87 | a non-negative family position returns the node itself; a negative one returns exactly the node that many links up, bounded by the ceiling, or `KeyError` when the climb breaks |
| Relatives.GivenLevel | recommendations.py:89-103 | nothing below level 1 and nothing for a root absent from the hierarchy |
| Relatives.ChildrenLevel | recommendations.py:96-103 | the loop over a node's children; stated by ChildrenLevelMembers |
| Relatives.ChildrenLevelMembers | recommendations.py:96-103 | the loop over the children collects exactly what some child's level holds |
| Relatives.GivenLevelBelow | recommendations.py:89-103 | level `l` holds exactly the nodes `l - 1` child links below the root, except the ignored node |
| Relatives.BelowMember | recommendations.py:96-100 | child links inside the hierarchy lead from stored nodes to stored nodes |
| Relatives.LevelOrder | recommendations.py:105-110 | `_get_level_order` as levels 1 to `level` concatenated; stated by LevelOrderMembers |
| Relatives.LevelOrderMembers | recommendations.py:105-110 | the level order holds exactly the nodes fewer than `level` links below the root, except the ignored node |
| Relatives.Search | recommendations.py:112-116 | a missing key is `KeyError`; every node found is a stored node other than the origin |
| Relatives.SearchMembers | recommendations.py:112-116 | a successful search returns exactly the nodes other than the origin fewer than `depth` links below the reference node |
| Relatives.GetGivenLevel | recommendations.py:89-103 | appends exactly `GivenLevel` to the shared list |
| Relatives.GetChildrenLevel | recommendations.py:96-103 | the loop over the children appends exactly `ChildrenLevel` |
| Relatives.GetLevelOrder | recommendations.py:105-110 | the loop over levels 1 to `level` returns `LevelOrder` |
| Relatives.SearchNodes | recommendations.py:112-116 | returns `Search` |
| Exchange.FirstStep | recommendations.py:323-337 | one iteration of the first loop; stated by FirstStepMeans |
| Exchange.FirstPassOf | recommendations.py:322-337 | the first loop over the triples; stated by FirstPassKeys and ClassRefMembers |
| Exchange.SecondPass | recommendations.py:340-343 | the second loop; stated by SecondPassKeys |
| Exchange.ThirdStep | recommendations.py:348-365 | one iteration of the third loop; stated by ThirdStepMeans |
| Exchange.ThirdPassOf | recommendations.py:347-365 | the third loop over the triples; stated by ThirdPassKeys and ThirdPassKeepsFlags |
| Exchange.Exchangeable | recommendations.py:315-367 | `entities_that_can_be_exchanged`; stated by ExchangeKeys, PropRefLinked, PropRefLastFeeder, PropRefSource and FlagsOfNonPredicates |
| Exchange.FirstStepMeans | recommendations.py:322-337 | a value triple fixes its subject, flags its object by membership in the classes, counts itself, and records a known-class object under its subject; other triples change nothing |
| Exchange.SetAllMeans | recommendations.py:352-353 | exactly the listed value classes are linked, all to the predicate; every other link is kept |
| Exchange.SetAll | recommendations.py:352-353 | the inner loop over `class_ref[obj]` as a function: each listed value class is linked to the predicate in order, later links overwriting earlier ones; SetAllMeans states its meaning and LinkValues computes it |
| Exchange.ThirdStepMeans | recommendations.py:347-365 | a non-value triple links the classes recorded under its object, gives an absent subject or object True, and gives its predicate its object's flag; value triples change nothing |
| Exchange.FirstPassKeys | recommendations.py:322-337 | after the first loop, flags exist exactly for the subjects and objects of value triples; the count is at most the number of triples, and equals it exactly when every triple is a value triple |
| Exchange.AfterSecond | recommendations.py:339-343 | the flags after the first two loops: the second loop runs only when the count equals the number of triples |
| Exchange.AfterSecondMeans | recommendations.py:339-343 | the second loop runs exactly when every triple of the question is a value triple; otherwise the first loop's flags are kept |
| Exchange.SecondPassKeys | recommendations.py:340-343 | the second loop adds flags exactly for the subjects and objects |
| Exchange.ThirdPassKeys | recommendations.py:347-365 | the third loop adds flags exactly for the subjects, objects and predicates of non-value triples |
| Exchange.ExchangeKeys | recommendations.py:315-367 | the exchange map has a key for exactly every subject and object, and every predicate of a non-value triple |
| Exchange.ExchangeCovers | recommendations.py:376-415 | every lookup `entities[...]` of `get_recommendations` finds a key |
| Exchange.ClassRefMembers | recommendations.py:322-334 | `class_ref[a]` lists exactly the known-class objects of the value triples with subject `a` |
| Exchange.PropRefLinked | recommendations.py:347-353 | a value class gets a property link exactly when some non-value triple feeds it |
| Exchange.PropRefLastFeeder | recommendations.py:347-353 | the link is the predicate of the last triple that feeds the class |
| Exchange.PropRefSource | recommendations.py:315-367 | a link points from a value class stated by `(a, has_value, v)` to the predicate of a non-value triple whose object is `a` |
| Exchange.ThirdPassKeepsFlags | recommendations.py:347-365 | the third loop changes no existing flag except a predicate's; the entities it adds get True |
| Exchange.FlagsOfNonPredicates | recommendations.py:315-367 | an entity that is never a predicate ends with the flag of the first two loops, or True when they gave none |
| Exchange.SingleValueTriple | recommendations.py:322-343 | for the single question `(x1, has_value, ClassA)`, the second loop overrides the first: x1 becomes True, ClassA False, and there are no links |
| Exchange.EntitiesThatCanBeExchanged | recommendations.py:315-367 | the three loops compute `Exchangeable` |
| Exchange.ClassifyValueTriples | recommendations.py:320-337 | the first loop computes `FirstPassOf` |
| Exchange.MarkSubjectsAndObjects | recommendations.py:340-343 | the second loop computes `SecondPass` |
| Exchange.LinkProperties | recommendations.py:347-365 | the third loop computes `ThirdPassOf` |
| Exchange.LinkValues | recommendations.py:352-353 | the inner loop computes `SetAll` |
| Recommendations.UrisOf | recommendations.py:211-226 | the URIs of a node list, position by position |
| Recommendations.Listed | recommendations.py:149-152 | `node_list_ref[list_ref]`: the candidate's domains or ranges, as also built at recommendations.py:173-176 |
| Recommendations.PropertyRelated | recommendations.py:146-168 | the test of `_add_related_properties`; stated by PropertyRelatedMeans |
| Recommendations.PropertyRelatedMeans | recommendations.py:146-168 | without a class URI every candidate passes; a class in the list passes; otherwise passing means descending from a non-empty entry, descending from none means failing, and passing follows when the first entry the class descends from is non-empty |
| Recommendations.AddRelatedProperties | recommendations.py:146-168 | appends the candidate exactly when its consulted list passes the test |
| Recommendations.Accepts | recommendations.py:211-232 | a candidate is accepted by the domain rule or the range rule |
| Recommendations.DomainCheck | recommendations.py:211-219 | the domain rule applies: domain filtering is on or the candidate is a data property, and it has domains |
| Recommendations.RangeCheck | recommendations.py:224-228 | the range rule applies: range filtering is on, the candidate has ranges, and it is not a data property |
| Recommendations.DomainStep | recommendations.py:211-223 | the domain block: a candidate not yet related whose domains pass the test is appended once; ApplyDomainRule computes it and PropertyStepInTwo relates it to PropertyStep |
| Recommendations.RangeStep | recommendations.py:224-232 | the range block: a candidate not yet related whose ranges pass the test is appended once; ApplyRangeRule computes it and PropertyStepInTwo relates it to PropertyStep |
| Recommendations.PropertyStep | recommendations.py:211-232 | one iteration of the candidate loop; stated by PropertyStepShape and PropertyStepInTwo |
| Recommendations.PropertiesFrom | recommendations.py:210-232 | the candidate loop; stated by PropertiesFromShape and PropertiesFromMembers |
| Recommendations.PropertyStepShape | recommendations.py:210-232 | one candidate step keeps the list duplicate-free by URI and a subsequence of the candidates seen |
| Recommendations.PropertiesFromShape | recommendations.py:210-232 | the loop returns a subsequence of the candidates with no URI twice |
| Recommendations.PropertiesFromMembers | recommendations.py:210-232 | the loop keeps exactly the candidates that the domain rule or the range rule accepts |
| Recommendations.PropertyStepInTwo | recommendations.py:211-232 | the domain rule followed by the range rule equals one step that appends an accepted candidate at most once |
| Recommendations.RelatedProperties | recommendations.py:196-242 | a key absent from the hierarchy gives the empty list; the result has no URI twice; it holds only stored nodes other than the key |
| Recommendations.RelatedPropertiesAreAccepted | recommendations.py:196-232 | the result is the searched nodes, in order, that a rule accepts; without class URIs, those passing the filter-mode and non-empty-list checks |
| Recommendations.GetRelatedProperties | recommendations.py:196-242 | returns `RelatedProperties` |
| Recommendations.ConsiderProperties | recommendations.py:210-232 | the loop over the candidates computes `PropertiesFrom` |
| Recommendations.ConsiderProperty | recommendations.py:211-232 | one iteration computes `PropertyStep` |
| Recommendations.ApplyDomainRule | recommendations.py:211-223 | the domain block computes `DomainStep` |
| Recommendations.ApplyRangeRule | recommendations.py:224-232 | the range block computes `RangeStep` |
| Recommendations.ClassesInList | recommendations.py:178-184 | an unknown class is `KeyError`; every class added is a stored class, in the list, and not the class itself |
| Recommendations.ClassesBelow | recommendations.py:186-194 | every class added is a stored class other than the class and other than the ancestor |
| Recommendations.ClassesInListExact | recommendations.py:178-184 | the first branch fails exactly when the search does, and otherwise keeps exactly the searched classes in the list, in search order |
| Recommendations.ClassesBelowExact | recommendations.py:186-194 | the second branch fails exactly when the search does, and otherwise keeps exactly the searched classes other than the ancestor, in search order |
| Recommendations.ClassesAdded | recommendations.py:170-194 | no class URI adds nothing; a listed class absent from the classes is `KeyError` |
| Recommendations.ClassesAddedMeans | recommendations.py:170-194 | the classes added are stored classes other than the class itself; in the first branch they are listed; in the second each differs from a listed class that the class descends from |
| Recommendations.ClassesAddedExact | recommendations.py:170-194 | a class in its list takes the first branch; otherwise the first list entry it descends from is the ancestor of the second branch, and nothing is added when there is none or it is empty |
| Recommendations.ClassesAppended | recommendations.py:170-194 | the shared list after `_add_related_classes`: the classes added appended, or `KeyError` |
| Recommendations.AddRelatedClasses | recommendations.py:170-194 | appends exactly the classes `ClassesAdded` gives |
| Recommendations.AddClassesInList | recommendations.py:178-184 | the first branch appends the found classes that are in the list |
| Recommendations.AddClassesBelow | recommendations.py:189-194 | the second branch appends the found classes other than the ancestor |
| Recommendations.AppendWhere | recommendations.py:182-194 | the guarded append loop appends exactly the filtered nodes, in order |
| Recommendations.PropertyClasses | recommendations.py:253-266 | without class URIs nothing is added; every class added is a stored class |
| Recommendations.RelatedClasses | recommendations.py:244-266 | an unknown property gives the empty list; every class returned is a stored class |
| Recommendations.PropertyClassesParts | recommendations.py:253-266 | the shared list ends as the domain rule's classes followed by the range rule's, each computed on its own, and holds exactly their union |
| Recommendations.RelatedClassesParts | recommendations.py:244-266 | an object property gets the domain rule then the range rule; a data property the domain rule alone |
| Recommendations.RelatedClassesUses | recommendations.py:244-266 | a data property's result never depends on the range class, and without class URIs the result is empty |
| Recommendations.GetRelatedClasses | recommendations.py:244-280 | returns `RelatedClasses` |
| Recommendations.AddPropertyClasses | recommendations.py:253-266 | returns `PropertyClasses` |
| Recommendations.Rendered | recommendations.py:387 | one rendering for each related node, in order |
| Recommendations.ValueTripleStep | recommendations.py:377-387 | an exchangeable, unvisited value class without a link is `KeyError`; a fixed or visited one changes nothing; otherwise the progress advances |
| Recommendations.ObjectStep | recommendations.py:389-414 | an object that is fixed or visited, or whose predicate is fixed, changes nothing; otherwise the progress advances |
| Recommendations.SubjectStep | recommendations.py:415-422 | a subject that is fixed or visited changes nothing; otherwise the progress advances |
| Recommendations.TripleStep | recommendations.py:376-422 | one iteration only extends the visited and recommendation lists, visits only exchangeable entities of the triple, and adds recommendations only with a new visit |
| Recommendations.AdvancesTrans | recommendations.py:388-422 | the object block followed by the subject block still advances |
| Recommendations.StepsFrom | recommendations.py:374-422 | the loop of `get_recommendations` over the triples in order; stated by StepsVisitOnce and StepsFailureSticks |
| Recommendations.StepsVisitOnce | recommendations.py:374-422 | over the whole loop the visited list has no duplicates and holds only exchangeable subjects and objects of the question |
| Recommendations.StepsFailureSticks | recommendations.py:376-422 | a `KeyError` part-way through ends the whole call with `KeyError` |
| Recommendations.SlicePrefix | recommendations.py:424 | `recommendations[:size]` is a prefix of the right length, counting from the end for a negative size |
| Recommendations.RecommendationsFor | recommendations.py:370-424 | returns the suggestion text, and never more than `size` recommendations |
| Recommendations.RecommendationsArePrefix | recommendations.py:370-424 | the result is the loop's renderings cut to `size`, and each exchangeable entity is visited at most once |
| Recommendations.AppendRendered | recommendations.py:384-387 | the append loop adds exactly the renderings, in order |
| Recommendations.ProcessValueTriple | recommendations.py:377-387 | the value branch computes `ValueTripleStep` |
| Recommendations.ProcessObject | recommendations.py:389-414 | the object block computes `ObjectStep` |
| Recommendations.ProcessSubject | recommendations.py:415-422 | the subject block computes `SubjectStep` |
| Recommendations.ProcessTriple | recommendations.py:377-422 | one iteration computes `TripleStep` |
| Recommendations.GetRecommendations | recommendations.py:370-424 | the method computes `RecommendationsFor` |
| Engine.Recommender.Tree | recommendations.py:30 | the stored hierarchy that a tree name selects |
| Engine.Recommender.Root | recommendations.py:31 | the root recorded for a tree name |
| Engine.Recommender.ByDomain | recommendations.py:213-215 | the domain rule is on for the `domain` and `both` settings |
| Engine.Recommender.ByRange | recommendations.py:226 | the range rule is on for the `range` and `both` settings |
| Engine.Recommender.Valid | recommendations.py:16-40 | what the `Recommender` datatype's inputs (the unpickled trees and roots, the graph's subclass edges and the settings) must satisfy: the three hierarchies are well-formed and the subclass relation is ranked |
| Engine.LoadedIsValid | recommendations.py:16-40 | a `Recommender` over the three hierarchies `load_ontology` grows from empty ones, with a ranked subclass relation, is valid |
| Seqs.NoDuplicatesMeans | recommendations.py:211-226 | the recursive duplicate-freedom is pairwise distinctness |
| Seqs.FilterMeans | recommendations.py:182-194 | filtering keeps exactly the elements that satisfy the test, in their original order |

## Left out

- Loading the data is not modelled: unpickling the trees, reading the `.ini` settings, and
  parsing the graph with rdflib. The `Recommender` datatype receives the stored hierarchies,
  the roots, the subclass edges and the settings as parameters. The edges hold, in graph order,
  only the `rdfs:subClassOf` triples whose object is a URI, as the pair of `str(subject)` and
  the object URI.
- Blank nodes in the subclass relation are not modelled beyond that restriction.
  `_is_descendent_of` looks objects up as `URIRef(super_classe)` (recommendations.py:119-121),
  and an rdflib `URIRef` never equals a `BNode`. So in the source a chain through a blank-node
  superclass (`x ⊑ _:b ⊑ A`) does not count as descent, and a scan from a blank-node domain or
  range (for example an `owl:unionOf` class) finds nothing. Leaving those triples out of the
  edges gives the same result.
- The SPARQL queries of `load_ontology` are not modelled. `LoadOntology` receives the result
  rows of the three queries and the label literals of each subject in graph order.
- The random shuffle and the word-embedding ordering of related properties and classes are
  not modelled (`_order_and_filter_by_similarity`, and the `order`/`order_set` branches in
  recommendations.py:234-240 and 268-278). They depend on randomness and on a floating-point
  model. The model behaves as if no ordering were configured, so the semantic branch's possibly
  unbound `class_node` is not modelled either.
- `self.text.format(rec.name)` is the `render` parameter, because string formatting is left
  to the caller.
- The commented-out `_get_entities`, the unused `nlg` argument, the unused `weight` field of a
  node, the unused `node_list` parameter of `_add_related_properties`, and the unused
  `nodes_domains`/`nodes_ranges` lookups are not modelled. The lookups cannot fail, because
  the key was just tested.
- The `print` messages for unknown hierarchy names are not modelled. The functions return
  `None` (Python's implicit return) or change nothing.
- Node identity is not modelled: the model compares nodes by URI. Python compares node
  objects (`node not in related`, `root != ignore_node`). Each URI of a hierarchy maps to one
  stored object, and `KeysMatch` states exactly that, so the two agree on stored nodes.
- Aliasing and update in place inside a stored hierarchy are not modelled. The store holds
  node values, and `__add_node`'s in-place updates of a stored node are map updates of values.
  The `Node` class models that update in place for one node.
- The configparser behaviour of the label table is not modelled. The model looks URIs up in
  the table exactly and takes the stored text as is. For the `PROPERTIES` section of
  `properties_labels.ini`, configparser does three things the model does not. It lower-cases
  option names, in the `in` test as well as the lookup. It applies `BasicInterpolation` to
  values, so a lone `%` raises `InterpolationSyntaxError` and `%%` reads as `%`. It also makes
  keys of the `DEFAULT` section appear in the section.
- Python's recursion limit is not modelled. `_is_descendent_of` (recommendations.py:118-125)
  and `__get_max_depth` (onto_tree.py:108-119) recurse without a guard. CPython raises
  `RecursionError` when a recursion reaches a cycle. It does not always reach one:
  `_is_descendent_of` stops at the first match (recommendations.py:123-124), and
  `__get_max_depth` visits only the nodes below `root` (onto_tree.py:115-117).
  `IsDescendentOf`, `MaxDepth` and `OntologyTrees.GetMaxDepth` require a ranking that
  witnesses that the whole relation (`Subclass.EdgesRanked`) or the whole hierarchy
  (`OntoTrees.ChildRanked`) is acyclic. The model therefore also excludes the cyclic inputs on
  which the source returns normally.
- The case of an acyclic chain deeper than the recursion limit is not modelled. There the
  source raises `RecursionError`, while the model returns the value. The same holds for the
  level-bounded recursions of `_get_ascedent` and `_get_given_level` when the configured
  depth or family position exceeds the limit.
- Relatives.GivenLevel, Relatives.Search and the recommendation functions require the stored
  hierarchies to be well-formed: keys match URIs, and every child and parent is a key. As
  built by `load_ontology` they are, by GrowKeepsWellFormed from the empty hierarchy. The
  source reads hierarchies back from a pickle file without checking them.
- RdfsLabelsSound: states membership and the length bound only. The order and the
  repetitions of the names are stated by RdfsLabelsAreAccepted.
- ClassesInList: its own contract states soundness only. The exact result (the searched classes
  in the list, in search order) is stated by ClassesInListExact.
- ClassesBelow: its own contract states soundness only. The exact result (the searched classes
  other than the ancestor, in search order) is stated by ClassesBelowExact.
- ClassesAddedMeans: states soundness only. The branch taken and the first-found ancestor are
  stated by ClassesAddedExact; with ClassesInListExact and ClassesBelowExact that gives the
  exact result.
- PropertyClasses: its own contract states the empty case and soundness only. Which classes
  are added is stated by PropertyClassesParts.
- RelatedClasses: its own contract states the unknown-property case and soundness only. The
  exact result is stated by RelatedClassesParts.
