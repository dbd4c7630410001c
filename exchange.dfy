/**
 * Which entities of a question may be exchanged for a recommendation, and which property
 * links each exchangeable value class to its question (recommendations.py,
 * `entities_that_can_be_exchanged`).
 */
module Exchange {
  import opened OntoTrees

  /** A question triple (first, middle, last). */
  datatype Triple = Triple(subj: string, pred: string, obj: string)

  /** The marker predicate of a value triple. */
  const HasValue := "has_value"

  /** The dictionaries the first loop fills, and its count of value triples. */
  datatype FirstPass = FirstPass(exchange: map<string, bool>, classRef: map<string, seq<string>>, withValues: nat)

  /**
   * First loop, one triple: a value triple marks its subject as fixed, its object as
   * exchangeable exactly when it is a known class, and records known-class objects under the
   * subject; other triples are skipped.
   */
  function FirstStep(s: FirstPass, t: Triple, classes: Hierarchy): FirstPass
  {
    if t.pred != HasValue then s
    else
      var ex := s.exchange[t.subj := false];
      if t.obj in classes then
        var refs := if t.subj in s.classRef then s.classRef[t.subj] + [t.obj] else [t.obj];
        FirstPass(ex[t.obj := true], s.classRef[t.subj := refs], s.withValues + 1)
      else
        FirstPass(ex[t.obj := false], s.classRef, s.withValues + 1)
  }

  /** What one step of the first loop does to the two dictionaries and the count. */
  lemma FirstStepMeans(s: FirstPass, t: Triple, classes: Hierarchy)
    ensures var r := FirstStep(s, t, classes);
      && (t.pred != HasValue ==> r == s)
      && (t.pred == HasValue ==>
            && r.withValues == s.withValues + 1
            && r.exchange.Keys == s.exchange.Keys + {t.subj, t.obj}
            && r.exchange[t.obj] == (t.obj in classes)
            && (t.subj != t.obj ==> !r.exchange[t.subj])
            && (forall k :: k in s.exchange && k != t.subj && k != t.obj ==> r.exchange[k] == s.exchange[k]))
      && (t.pred == HasValue && t.obj in classes ==>
            && r.classRef.Keys == s.classRef.Keys + {t.subj}
            && r.classRef[t.subj] == (if t.subj in s.classRef then s.classRef[t.subj] else []) + [t.obj]
            && (forall a :: a in s.classRef && a != t.subj ==> r.classRef[a] == s.classRef[a]))
      && (t.pred == HasValue && t.obj !in classes ==> r.classRef == s.classRef)
  {
  }

  /** The first loop over the triples in order. */
  function FirstPassOf(ts: seq<Triple>, classes: Hierarchy): FirstPass
    decreases |ts|
  {
    if ts == [] then FirstPass(map[], map[], 0)
    else FirstStep(FirstPassOf(ts[..|ts| - 1], classes), ts[|ts| - 1], classes)
  }

  /** The second loop: every subject becomes exchangeable and every object fixed, in order. */
  function SecondPass(ex: map<string, bool>, ts: seq<Triple>): map<string, bool>
    decreases |ts|
  {
    if ts == [] then ex
    else
      var t := ts[|ts| - 1];
      SecondPass(ex, ts[..|ts| - 1])[t.subj := true][t.obj := false]
  }

  /** Links every value class of `vs` to the property `val`, in order, overwriting earlier links. */
  function SetAll(m: map<string, string>, vs: seq<string>, val: string): map<string, string>
    decreases |vs|
  {
    if vs == [] then m
    else SetAll(m, vs[..|vs| - 1], val)[vs[|vs| - 1] := val]
  }

  /** Exactly the listed keys are added or overwritten, all with `val`. */
  lemma {:induction false} SetAllMeans(m: map<string, string>, vs: seq<string>, val: string)
    ensures var r := SetAll(m, vs, val);
      && (forall k :: k in r <==> k in m || k in vs)
      && (forall k :: k in vs ==> r[k] == val)
      && (forall k :: k in m && k !in vs ==> r[k] == m[k])
    decreases |vs|
  {
    if vs != [] {
      var vs' := vs[..|vs| - 1];
      SetAllMeans(m, vs', val);
      assert vs == vs' + [vs[|vs| - 1]];
      assert forall k :: k in vs <==> k in vs' || k == vs[|vs| - 1];
    }
  }

  /** The dictionaries the third loop updates. */
  datatype ThirdPass = ThirdPass(exchange: map<string, bool>, propRef: map<string, string>)

  /** The flag an entity has before the third loop writes it: its current one, or True. */
  function FlagOr(ex: map<string, bool>, k: string): bool {
    if k in ex then ex[k] else true
  }

  /** `t` is a non-value triple whose object is a subject of value triples that lists `v`. */
  predicate Feeds(t: Triple, classRef: map<string, seq<string>>, v: string) {
    t.pred != HasValue && t.obj in classRef && v in classRef[t.obj]
  }

  /**
   * Third loop, one triple: a non-value triple links the value classes recorded under its
   * object to its predicate, gives an absent subject or object the flag True, leaves every
   * other existing flag alone, and gives its predicate its object's flag; value triples are
   * skipped.
   */
  function ThirdStep(s: ThirdPass, t: Triple, classRef: map<string, seq<string>>): ThirdPass
  {
    if t.pred == HasValue then s
    else
      var pr := if t.obj in classRef then SetAll(s.propRef, classRef[t.obj], t.pred) else s.propRef;
      var e1 := if t.subj !in s.exchange then s.exchange[t.subj := true] else s.exchange;
      var e2 := if t.obj !in e1 then e1[t.obj := true] else e1;
      ThirdPass(e2[t.pred := e2[t.obj]], pr)
  }

  /** What one step of the third loop does to the flags and the property links. */
  lemma ThirdStepMeans(s: ThirdPass, t: Triple, classRef: map<string, seq<string>>)
    ensures var r := ThirdStep(s, t, classRef);
      && (t.pred == HasValue ==> r == s)
      && (t.pred != HasValue ==>
            && r.exchange.Keys == s.exchange.Keys + {t.subj, t.obj, t.pred}
            && r.exchange[t.pred] == FlagOr(s.exchange, t.obj)
            && (t.subj != t.pred ==> r.exchange[t.subj] == FlagOr(s.exchange, t.subj))
            && (t.obj != t.pred ==> r.exchange[t.obj] == FlagOr(s.exchange, t.obj))
            && (forall k :: k in s.exchange && k != t.pred ==> r.exchange[k] == s.exchange[k]))
      && (forall v :: v in r.propRef <==> v in s.propRef || Feeds(t, classRef, v))
      && (forall v :: Feeds(t, classRef, v) ==> r.propRef[v] == t.pred)
      && (forall v :: v in s.propRef && !Feeds(t, classRef, v) ==> r.propRef[v] == s.propRef[v])
  {
    if t.pred != HasValue && t.obj in classRef {
      SetAllMeans(s.propRef, classRef[t.obj], t.pred);
    }
  }

  /** The third loop over the triples in order, from the state the first two left. */
  function ThirdPassOf(start: ThirdPass, ts: seq<Triple>, classRef: map<string, seq<string>>): ThirdPass
    decreases |ts|
  {
    if ts == [] then start
    else ThirdStep(ThirdPassOf(start, ts[..|ts| - 1], classRef), ts[|ts| - 1], classRef)
  }

  /** The flags after the first two loops: the second runs only when every triple is a value triple. */
  function AfterSecond(ts: seq<Triple>, classes: Hierarchy): map<string, bool> {
    var f := FirstPassOf(ts, classes);
    if f.withValues == |ts| then SecondPass(f.exchange, ts) else f.exchange
  }

  /** `entities_that_can_be_exchanged`: the pair `(prop_ref, can_be_exchanged)`. */
  function Exchangeable(ts: seq<Triple>, classes: Hierarchy): (map<string, string>, map<string, bool>) {
    var t := ThirdPassOf(ThirdPass(AfterSecond(ts, classes), map[]), ts, FirstPassOf(ts, classes).classRef);
    (t.propRef, t.exchange)
  }

  // ---------------------------------------------------------------------------------------
  // Which keys the exchange map has

  /** `k` occurs in the question as a subject or object, or as the predicate of a non-value triple. */
  ghost predicate Mentioned(ts: seq<Triple>, k: string) {
    exists t :: t in ts && (k == t.subj || k == t.obj || (t.pred != HasValue && k == t.pred))
  }

  lemma {:induction false} FirstPassKeys(ts: seq<Triple>, classes: Hierarchy)
    ensures forall k :: k in FirstPassOf(ts, classes).exchange <==>
      exists t :: t in ts && t.pred == HasValue && (k == t.subj || k == t.obj)
    ensures FirstPassOf(ts, classes).withValues <= |ts|
    ensures FirstPassOf(ts, classes).withValues == |ts| <==> forall t :: t in ts ==> t.pred == HasValue
    decreases |ts|
  {
    if ts != [] {
      var ts', t := ts[..|ts| - 1], ts[|ts| - 1];
      FirstPassKeys(ts', classes);
      FirstStepMeans(FirstPassOf(ts', classes), t, classes);
      assert ts == ts' + [t];
    }
  }

  /** The second loop runs exactly when every triple of the question is a value triple. */
  lemma AfterSecondMeans(ts: seq<Triple>, classes: Hierarchy)
    ensures (forall t :: t in ts ==> t.pred == HasValue) ==>
      AfterSecond(ts, classes) == SecondPass(FirstPassOf(ts, classes).exchange, ts)
    ensures (exists t :: t in ts && t.pred != HasValue) ==>
      AfterSecond(ts, classes) == FirstPassOf(ts, classes).exchange
  {
    FirstPassKeys(ts, classes);
  }

  lemma {:induction false} SecondPassKeys(ex: map<string, bool>, ts: seq<Triple>)
    ensures forall k :: k in SecondPass(ex, ts) <==> k in ex || exists t :: t in ts && (k == t.subj || k == t.obj)
    decreases |ts|
  {
    if ts != [] {
      var ts', t := ts[..|ts| - 1], ts[|ts| - 1];
      SecondPassKeys(ex, ts');
      assert ts == ts' + [t];
    }
  }

  lemma {:induction false} ThirdPassKeys(start: ThirdPass, ts: seq<Triple>, classRef: map<string, seq<string>>)
    ensures forall k :: k in ThirdPassOf(start, ts, classRef).exchange <==>
      k in start.exchange || exists t :: t in ts && t.pred != HasValue && (k == t.subj || k == t.obj || k == t.pred)
    decreases |ts|
  {
    if ts != [] {
      var ts', t := ts[..|ts| - 1], ts[|ts| - 1];
      ThirdPassKeys(start, ts', classRef);
      ThirdStepMeans(ThirdPassOf(start, ts', classRef), t, classRef);
      assert ts == ts' + [t];
    }
  }

  /**
   * The exchange map has a key for exactly every subject and object of the question and every
   * predicate of a non-value triple.
   */
  lemma ExchangeKeys(ts: seq<Triple>, classes: Hierarchy)
    ensures forall k :: k in Exchangeable(ts, classes).1 <==> Mentioned(ts, k)
  {
    var f := FirstPassOf(ts, classes);
    FirstPassKeys(ts, classes);
    SecondPassKeys(f.exchange, ts);
    ThirdPassKeys(ThirdPass(AfterSecond(ts, classes), map[]), ts, f.classRef);
  }

  /** The lookups of `get_recommendations` never miss: every triple's entities have a flag. */
  lemma ExchangeCovers(ts: seq<Triple>, classes: Hierarchy)
    ensures var ex := Exchangeable(ts, classes).1;
      forall t :: t in ts ==> t.subj in ex && t.obj in ex && (t.pred != HasValue ==> t.pred in ex)
  {
    ExchangeKeys(ts, classes);
  }

  // ---------------------------------------------------------------------------------------
  // The value-class references and the property links

  /** `class_ref[a]` holds exactly the known-class objects of the value triples with subject `a`. */
  lemma {:induction false} ClassRefMembers(ts: seq<Triple>, classes: Hierarchy)
    ensures var cr := FirstPassOf(ts, classes).classRef;
      forall a, v :: a in cr && v in cr[a] <==> Triple(a, HasValue, v) in ts && v in classes
    decreases |ts|
  {
    if ts != [] {
      var ts', t := ts[..|ts| - 1], ts[|ts| - 1];
      ClassRefMembers(ts', classes);
      FirstStepMeans(FirstPassOf(ts', classes), t, classes);
      var cr', cr := FirstPassOf(ts', classes).classRef, FirstPassOf(ts, classes).classRef;
      forall a, v ensures a in cr && v in cr[a] <==> Triple(a, HasValue, v) in ts && v in classes {
        assert Triple(a, HasValue, v) in ts <==> Triple(a, HasValue, v) in ts' || Triple(a, HasValue, v) == t;
      }
    }
  }

  /**
   * After the third loop a value class has a property link exactly when some non-value triple
   * feeds it, and the link is the predicate of the last such triple.
   */
  lemma PropRefLastFeeder(start: ThirdPass, ts: seq<Triple>, classRef: map<string, seq<string>>, v: string)
    requires start.propRef == map[]
    ensures var pr := ThirdPassOf(start, ts, classRef).propRef;
      && (v in pr <==> exists i :: 0 <= i < |ts| && Feeds(ts[i], classRef, v))
      && (v in pr ==> exists i :: 0 <= i < |ts| && Feeds(ts[i], classRef, v) && pr[v] == ts[i].pred
                                && forall j :: i < j < |ts| ==> !Feeds(ts[j], classRef, v))
  {
    PropRefLinked(start, ts, classRef, v);
    if v in ThirdPassOf(start, ts, classRef).propRef {
      var i := PropRefLastIndex(start, ts, classRef, v);
    }
  }

  lemma {:induction false} PropRefLinked(start: ThirdPass, ts: seq<Triple>, classRef: map<string, seq<string>>, v: string)
    requires start.propRef == map[]
    ensures v in ThirdPassOf(start, ts, classRef).propRef <==> exists i :: 0 <= i < |ts| && Feeds(ts[i], classRef, v)
    decreases |ts|
  {
    if ts != [] {
      var ts', t := ts[..|ts| - 1], ts[|ts| - 1];
      PropRefLinked(start, ts', classRef, v);
      ThirdStepMeans(ThirdPassOf(start, ts', classRef), t, classRef);
      if exists i :: 0 <= i < |ts'| && Feeds(ts'[i], classRef, v) {
        var i :| 0 <= i < |ts'| && Feeds(ts'[i], classRef, v);
        assert ts[i] == ts'[i];
      }
      if exists i :: 0 <= i < |ts| && Feeds(ts[i], classRef, v) {
        var i :| 0 <= i < |ts| && Feeds(ts[i], classRef, v);
        if i < |ts'| {
          assert ts'[i] == ts[i];
        }
      }
    }
  }

  /** The last triple that feeds a linked value class, and whose predicate the link is. */
  lemma {:induction false} PropRefLastIndex(start: ThirdPass, ts: seq<Triple>, classRef: map<string, seq<string>>, v: string)
      returns (i: nat)
    requires start.propRef == map[] && v in ThirdPassOf(start, ts, classRef).propRef
    ensures i < |ts| && Feeds(ts[i], classRef, v) && ThirdPassOf(start, ts, classRef).propRef[v] == ts[i].pred
    ensures forall j :: i < j < |ts| ==> !Feeds(ts[j], classRef, v)
    decreases |ts|
  {
    var ts', t := ts[..|ts| - 1], ts[|ts| - 1];
    ThirdStepMeans(ThirdPassOf(start, ts', classRef), t, classRef);
    if Feeds(t, classRef, v) {
      i := |ts| - 1;
    } else {
      i := PropRefLastIndex(start, ts', classRef, v);
      assert ts[i] == ts'[i];
      assert forall j :: i < j < |ts'| ==> ts[j] == ts'[j];
    }
  }

  /** `prop_ref` of the whole classification: the value class `v` is linked to predicate `m`. */
  lemma PropRefSource(ts: seq<Triple>, classes: Hierarchy, v: string)
    ensures var pr := Exchangeable(ts, classes).0;
      v in pr ==> exists i, a :: 0 <= i < |ts| && ts[i].pred != HasValue && ts[i].obj == a
                              && pr[v] == ts[i].pred
                              && Triple(a, HasValue, v) in ts && v in classes
  {
    var cr := FirstPassOf(ts, classes).classRef;
    var pr := Exchangeable(ts, classes).0;
    ClassRefMembers(ts, classes);
    PropRefLastFeeder(ThirdPass(AfterSecond(ts, classes), map[]), ts, cr, v);
    if v in pr {
      var i :| 0 <= i < |ts| && Feeds(ts[i], cr, v) && pr[v] == ts[i].pred;
      var a := ts[i].obj;
      assert a in cr && v in cr[a];
      assert Triple(a, HasValue, v) in ts && v in classes;
    }
  }

  /**
   * The third loop never changes a flag that exists before it, except where an entity is the
   * predicate of a non-value triple; every other entity it adds gets True.
   */
  lemma {:induction false} ThirdPassKeepsFlags(start: ThirdPass, ts: seq<Triple>, classRef: map<string, seq<string>>, k: string)
    requires forall t :: t in ts && t.pred != HasValue ==> t.pred != k
    ensures var ex := ThirdPassOf(start, ts, classRef).exchange;
      k in ex ==> ex[k] == FlagOr(start.exchange, k)
    decreases |ts|
  {
    if ts != [] {
      var ts', t := ts[..|ts| - 1], ts[|ts| - 1];
      assert forall x :: x in ts' ==> x in ts;
      ThirdPassKeepsFlags(start, ts', classRef, k);
      ThirdPassKeys(start, ts', classRef);
      ThirdStepMeans(ThirdPassOf(start, ts', classRef), t, classRef);
    }
  }

  /**
   * An entity that is never the predicate of a non-value triple ends with the flag the first
   * two loops gave it, or True when they gave it none.
   */
  lemma FlagsOfNonPredicates(ts: seq<Triple>, classes: Hierarchy, k: string)
    requires forall t :: t in ts && t.pred != HasValue ==> t.pred != k
    ensures var ex := Exchangeable(ts, classes).1;
      k in ex ==> ex[k] == FlagOr(AfterSecond(ts, classes), k)
  {
    ThirdPassKeepsFlags(ThirdPass(AfterSecond(ts, classes), map[]), ts, FirstPassOf(ts, classes).classRef, k);
  }

  /**
   * A question made only of the value triple `(x1, has_value, ClassA)` about a known class:
   * the second loop overrides the first, leaving x1 exchangeable and ClassA fixed, and no
   * property links.
   */
  lemma SingleValueTriple(classes: Hierarchy)
    requires "ClassA" in classes
    ensures Exchangeable([Triple("x1", HasValue, "ClassA")], classes) == (map[], map["x1" := true, "ClassA" := false])
  {
    var ts := [Triple("x1", HasValue, "ClassA")];
    assert ts[..0] == [];
    assert FirstPassOf(ts[..0], classes) == FirstPass(map[], map[], 0);
    var f := FirstPassOf(ts, classes);
    assert f == FirstPass(map["x1" := false, "ClassA" := true], map["x1" := ["ClassA"]], 1);
    assert SecondPass(f.exchange, ts[..0]) == f.exchange;
    var ex2 := AfterSecond(ts, classes);
    assert ex2 == map["x1" := true, "ClassA" := false];
    var start := ThirdPass(ex2, map[]);
    assert ThirdPassOf(start, ts[..0], f.classRef) == start;
    assert ThirdPassOf(start, ts, f.classRef) == start;
  }

  // ---------------------------------------------------------------------------------------
  // The three loops

  /** `entities_that_can_be_exchanged`, loop by loop. */
  method EntitiesThatCanBeExchanged(ts: seq<Triple>, classes: Hierarchy)
      returns (propRef: map<string, string>, canBeExchanged: map<string, bool>)
    ensures (propRef, canBeExchanged) == Exchangeable(ts, classes)
  {
    var classRef, entitiesWithValues;
    canBeExchanged, classRef, entitiesWithValues := ClassifyValueTriples(ts, classes);
    if entitiesWithValues == |ts| {
      canBeExchanged := MarkSubjectsAndObjects(canBeExchanged, ts);
    }
    propRef, canBeExchanged := LinkProperties(canBeExchanged, ts, classRef);
  }

  /** The first loop: flags and value-class references from the value triples. */
  method ClassifyValueTriples(ts: seq<Triple>, classes: Hierarchy)
      returns (canBeExchanged: map<string, bool>, classRef: map<string, seq<string>>, entitiesWithValues: nat)
    ensures FirstPass(canBeExchanged, classRef, entitiesWithValues) == FirstPassOf(ts, classes)
  {
    canBeExchanged := map[];
    classRef := map[];
    entitiesWithValues := 0;
    for i := 0 to |ts|
      invariant FirstPassOf(ts[..i], classes) == FirstPass(canBeExchanged, classRef, entitiesWithValues)
    {
      assert ts[..i + 1][..i] == ts[..i];
      var t := ts[i];
      if t.pred == HasValue {
        canBeExchanged := canBeExchanged[t.subj := false];
        entitiesWithValues := entitiesWithValues + 1;
        if t.obj in classes {
          canBeExchanged := canBeExchanged[t.obj := true];
          if t.subj in classRef {
            classRef := classRef[t.subj := classRef[t.subj] + [t.obj]];
          } else {
            classRef := classRef[t.subj := [t.obj]];
          }
        } else {
          canBeExchanged := canBeExchanged[t.obj := false];
        }
      }
    }
    assert ts[..|ts|] == ts;
  }

  /** The second loop: subjects exchangeable, objects fixed. */
  method MarkSubjectsAndObjects(ex: map<string, bool>, ts: seq<Triple>) returns (canBeExchanged: map<string, bool>)
    ensures canBeExchanged == SecondPass(ex, ts)
  {
    canBeExchanged := ex;
    for i := 0 to |ts|
      invariant canBeExchanged == SecondPass(ex, ts[..i])
    {
      assert ts[..i + 1][..i] == ts[..i];
      canBeExchanged := canBeExchanged[ts[i].subj := true];
      canBeExchanged := canBeExchanged[ts[i].obj := false];
    }
    assert ts[..|ts|] == ts;
  }

  /** The third loop: property links and the flags of the non-value triples. */
  method LinkProperties(ex: map<string, bool>, ts: seq<Triple>, classRef: map<string, seq<string>>)
      returns (propRef: map<string, string>, canBeExchanged: map<string, bool>)
    ensures ThirdPass(canBeExchanged, propRef) == ThirdPassOf(ThirdPass(ex, map[]), ts, classRef)
  {
    canBeExchanged := ex;
    propRef := map[];
    for i := 0 to |ts|
      invariant ThirdPassOf(ThirdPass(ex, map[]), ts[..i], classRef) == ThirdPass(canBeExchanged, propRef)
    {
      assert ts[..i + 1][..i] == ts[..i];
      var t := ts[i];
      if t.pred != HasValue {
        if t.obj in classRef {
          propRef := LinkValues(propRef, classRef[t.obj], t.pred);
        }
        if t.subj !in canBeExchanged {
          canBeExchanged := canBeExchanged[t.subj := true];
        }
        if t.obj !in canBeExchanged {
          canBeExchanged := canBeExchanged[t.obj := true];
        }
        if canBeExchanged[t.obj] {
          canBeExchanged := canBeExchanged[t.pred := true];
        } else {
          canBeExchanged := canBeExchanged[t.pred := false];
        }
      }
    }
    assert ts[..|ts|] == ts;
  }

  /** The innermost loop: every value class listed under the object is linked to the predicate `m`. */
  method LinkValues(propRef: map<string, string>, values: seq<string>, m: string) returns (r: map<string, string>)
    ensures r == SetAll(propRef, values, m)
  {
    r := propRef;
    for j := 0 to |values|
      invariant r == SetAll(propRef, values[..j], m)
    {
      assert values[..j + 1][..j] == values[..j];
      r := r[values[j] := m];
    }
    assert values[..|values|] == values;
  }
}
