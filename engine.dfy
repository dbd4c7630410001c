/**
 * The recommender's fixed inputs (recommendations.py, `Recommendation.__init__`): the three
 * stored hierarchies and their roots, the ontology's subclass edges, and the settings read
 * from its configuration.
 */
module Engine {
  import opened OntoTrees
  import opened Subclass
  import opened Wrappers

  /** The three hierarchies the recommender looks up by name. */
  datatype TreeKind = Classes | ObjectProperties | DataProperties

  datatype Recommender = Recommender(
    classes: Hierarchy,
    objectProperties: Hierarchy,
    dataProperties: Hierarchy,
    classesRoot: string,
    objectPropertiesRoot: string,
    dataPropertiesRoot: string,
    subClassOf: Edges,
    depth: int,
    familyPosition: int,
    filterBy: string,
    size: int,
    suggestionText: string)
  {
    /** The stored hierarchy of that kind. */
    function Tree(k: TreeKind): Hierarchy {
      match k
      case Classes => classes
      case ObjectProperties => objectProperties
      case DataProperties => dataProperties
    }

    /** The root URI recorded for the hierarchy of that kind. */
    function Root(k: TreeKind): string {
      match k
      case Classes => classesRoot
      case ObjectProperties => objectPropertiesRoot
      case DataProperties => dataPropertiesRoot
    }

    /** The filter setting asks for domain-based filtering (`domain` or `both`). */
    predicate ByDomain() {
      filterBy == "domain" || filterBy == "both"
    }

    /** The filter setting asks for range-based filtering (`range` or `both`). */
    predicate ByRange() {
      filterBy == "range" || filterBy == "both"
    }

    /**
     * The stored hierarchies have the shape that building them from query rows gives, and the
     * subclass relation has no cycle.
     */
    ghost predicate Valid(rank: map<string, nat>) {
      && WellFormed(classes)
      && WellFormed(objectProperties)
      && WellFormed(dataProperties)
      && EdgesRanked(subClassOf, rank)
    }
  }

  /**
   * A recommender over the three hierarchies that `load_ontology` grows from empty ones is
   * valid as soon as its subclass relation is ranked.
   */
  lemma LoadedIsValid(rec: Recommender, rank: map<string, nat>, labels: map<string, seq<Label>>,
                      propertiesText: map<string, string>, lang: Option<string>,
                      classRows: seq<Row>, objectRows: seq<Row>, dataRows: seq<Row>)
    requires rec.classes == GrowFrom(map[], "classes", classRows, propertiesText, labels, lang)
    requires rec.objectProperties == GrowFrom(map[], "object_properties", objectRows, propertiesText, labels, lang)
    requires rec.dataProperties == GrowFrom(map[], "data_properties", dataRows, propertiesText, labels, lang)
    requires EdgesRanked(rec.subClassOf, rank)
    ensures rec.Valid(rank)
  {
    GrowKeepsWellFormed(map[], "classes", classRows, propertiesText, labels, lang);
    GrowKeepsWellFormed(map[], "object_properties", objectRows, propertiesText, labels, lang);
    GrowKeepsWellFormed(map[], "data_properties", dataRows, propertiesText, labels, lang);
  }
}
