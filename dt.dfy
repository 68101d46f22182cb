/**
 * The `DT` Python class as far as the binding keeps state through it: the
 * duplicate-handling setting, the attribute schema and the per-vertex
 * attribute store. The engine's own answer to an insertion (the vertex
 * index, and whether it is new) is a parameter.
 */
module Startinpy {
  import opened Outcomes
  import opened PyValues
  import opened Settings
  import opened Attributes

  /** The attribute record of vertex `vi` (empty when it has none). */
  function RecordOf(store: map<nat, map<string, JsonValue>>, vi: nat): map<string, JsonValue>
  {
    if vi in store then store[vi] else map[]
  }

  /**
   * The store after `add_vertex_attributes(vi, rec)`, which `insert_one_pt`
   * calls only with a non-empty record: the record's fields are merged into
   * the vertex's existing ones.
   */
  function Attach(store: map<nat, map<string, JsonValue>>, vi: nat, rec: map<string, JsonValue>)
    : map<nat, map<string, JsonValue>>
  {
    if |rec| == 0 then store else store[vi := RecordOf(store, vi) + rec]
  }

  /**
   * Attaching a record sets each of its fields on vertex `vi`, keeps the
   * vertex's other fields, and leaves every other vertex alone; an empty
   * record changes nothing.
   */
  lemma AttachMerges(store: map<nat, map<string, JsonValue>>, vi: nat, rec: map<string, JsonValue>)
    ensures var s := Attach(store, vi, rec);
      (forall key :: key in rec ==> key in RecordOf(s, vi) && RecordOf(s, vi)[key] == rec[key])
      && (forall key :: key in RecordOf(store, vi) && key !in rec ==>
            key in RecordOf(s, vi) && RecordOf(s, vi)[key] == RecordOf(store, vi)[key])
      && (forall key :: key in RecordOf(s, vi) ==> key in rec || key in RecordOf(store, vi))
      && (forall v :: v != vi ==> RecordOf(s, v) == RecordOf(store, v))
      && (|rec| == 0 ==> s == store)
  {
  }

  /** Every stored field is declared in the schema and has its tag's shape. */
  predicate StoreConforms(schema: map<string, string>, store: map<nat, map<string, JsonValue>>)
  {
    forall vi :: vi in store ==> RecordConforms(schema, store[vi])
  }

  /** Attaching a record ingested against the schema keeps the store conforming to it. */
  lemma AttachConforms(schema: map<string, string>, store: map<nat, map<string, JsonValue>>,
                       vi: nat, kwargs: seq<Kwarg>)
    requires StoreConforms(schema, store)
    requires DistinctKeys(kwargs) && Ingested(schema, kwargs).Ok?
    ensures StoreConforms(schema, Attach(store, vi, Ingested(schema, kwargs).value))
  {
    IngestedRecord(schema, kwargs);
    var rec := Ingested(schema, kwargs).value;
    assert RecordConforms(schema, RecordOf(store, vi));
    assert RecordConforms(schema, RecordOf(store, vi) + rec);
  }

  /** The name and type tag one item of `add_attribute_map`'s list declares. */
  function Declaration(item: PyValue): (r: Result<(string, string), PyErr>)
    ensures r.Ok? <==> item.PyTuple? && |item.items| == 2 && item.items[0].PyStr? && item.items[1].PyStr?
    ensures r.Ok? ==> r.value == (item.items[0].s, item.items[1].s)
    ensures r.Err? ==> (r.error.ValueError? <==> item.PyTuple? && |item.items| != 2)
    ensures r.Err? && r.error.ValueError? ==> r.error.msg == "Each tuple must have exactly two elements"
    ensures r.Err? && !r.error.ValueError? ==> r.error == TypeError
  {
    if !item.PyTuple? then Err(TypeError)
    else if |item.items| != 2 then Err(ValueError("Each tuple must have exactly two elements"))
    else match ExtractString(item.items[0])
      case Err(e) => Err(e)
      case Ok(first) =>
        match ExtractString(item.items[1])
        case Err(e) => Err(e)
        case Ok(second) => Ok((first, second))
  }

  /**
   * The schema after `add_attribute_map(list)` and the call's result: the
   * items are declared in order, and the first malformed one ends the call
   * with its error, the items before it staying declared.
   */
  function Declared(schema: map<string, string>, list: seq<PyValue>): (map<string, string>, Result<bool, PyErr>)
  {
    if list == [] then (schema, Ok(true))
    else
      var (s, r) := Declared(schema, list[..|list| - 1]);
      if r.Err? then (s, r)
      else match Declaration(list[|list| - 1])
        case Err(e) => (s, Err(e))
        case Ok(d) => (s[d.0 := d.1], Ok(true))
  }

  /** Once a prefix of the list fails, the rest of the list is not looked at. */
  lemma {:induction false} DeclaredErrorStops(schema: map<string, string>, list: seq<PyValue>, i: nat)
    requires i <= |list| && Declared(schema, list[..i]).1.Err?
    ensures Declared(schema, list) == Declared(schema, list[..i])
    decreases |list| - i
  {
    if i < |list| {
      assert list[..|list| - 1][..i] == list[..i];
      DeclaredErrorStops(schema, list[..|list| - 1], i);
    } else {
      assert list[..i] == list;
    }
  }

  /** `add_attribute_map` succeeds, returning true, exactly when every item is a pair of strings. */
  lemma {:induction false} DeclaredOkIff(schema: map<string, string>, list: seq<PyValue>)
    ensures Declared(schema, list).1.Ok? <==> forall j :: 0 <= j < |list| ==> Declaration(list[j]).Ok?
    ensures Declared(schema, list).1.Ok? ==> Declared(schema, list).1.value
  {
    if list != [] {
      var init := list[..|list| - 1];
      DeclaredOkIff(schema, init);
      assert forall j :: 0 <= j < |init| ==> init[j] == list[j];
    }
  }

  /**
   * After a successful `add_attribute_map` the schema holds exactly the old
   * names and the declared ones.
   */
  lemma {:induction false} DeclaredNames(schema: map<string, string>, list: seq<PyValue>)
    requires Declared(schema, list).1.Ok?
    ensures forall j :: 0 <= j < |list| ==> Declaration(list[j]).Ok?
    ensures forall name :: name in Declared(schema, list).0 <==>
      (name in schema || exists j :: 0 <= j < |list| && Declaration(list[j]).value.0 == name)
  {
    DeclaredOkIff(schema, list);
    if list != [] {
      var init := list[..|list| - 1];
      DeclaredOkIff(schema, init);
      DeclaredNames(schema, init);
      assert forall j :: 0 <= j < |init| ==> init[j] == list[j];
    }
  }

  /** No item after position `j` of the list declares the name item `j` declares. */
  predicate LastDeclaration(list: seq<PyValue>, j: int)
  {
    0 <= j < |list| && Declaration(list[j]).Ok?
      && forall k :: j < k < |list| && Declaration(list[k]).Ok? ==>
           Declaration(list[k]).value.0 != Declaration(list[j]).value.0
  }

  /**
   * After a successful `add_attribute_map` each declared name carries the
   * tag of its last declaration.
   */
  lemma {:induction false} DeclaredTags(schema: map<string, string>, list: seq<PyValue>, j: nat)
    requires Declared(schema, list).1.Ok? && LastDeclaration(list, j)
    ensures Declaration(list[j]).value.0 in Declared(schema, list).0
    ensures Declared(schema, list).0[Declaration(list[j]).value.0] == Declaration(list[j]).value.1
  {
    var init := list[..|list| - 1];
    if j < |init| {
      assert LastDeclaration(init, j) by {
        assert forall k :: 0 <= k < |init| ==> init[k] == list[k];
      }
      DeclaredTags(schema, init, j);
    }
  }

  /** A Delaunay triangulation object, as the binding sees it. */
  class DT {
    /** The engine's duplicate-handling setting. */
    var duplicates: DuplicateHandling
    /** The engine's attribute schema: field name to type-tag name. */
    var schema: map<string, string>
    /** The engine's extra attributes, by vertex index. */
    var attributes: map<nat, map<string, JsonValue>>

    /** The store holds only declared, well-typed fields. */
    predicate Valid()
      reads this
    {
      StoreConforms(schema, attributes)
    }

    /** `DT()`: an empty triangulation keeping the first z of duplicates, with no attributes. */
    constructor ()
      ensures duplicates == First && schema == map[] && attributes == map[]
      ensures Valid()
    {
      duplicates := First;
      schema := map[];
      attributes := map[];
    }

    /** The `duplicates_handling` getter. */
    function DuplicatesHandling(): (name: string)
      reads this
      ensures DuplicateHandlingFromName(name) == Ok(duplicates)
    {
      DuplicateHandlingName(duplicates)
    }

    /**
     * The `duplicates_handling` setter: a known name replaces the setting;
     * any other name raises and leaves it as it was.
     */
    method SetDuplicatesHandling(m: string) returns (r: Result<(), PyErr>)
      modifies this
      ensures schema == old(schema) && attributes == old(attributes)
      ensures r.Ok? <==> DuplicateHandlingFromName(m).Ok?
      ensures r.Ok? ==> duplicates == DuplicateHandlingFromName(m).value && DuplicatesHandling() == m
      ensures r.Err? ==> duplicates == old(duplicates) && r.error == DuplicateHandlingFromName(m).error
    {
      match m {
        case "First" => duplicates := First;
        case "Last" => duplicates := Last;
        case "Highest" => duplicates := Highest;
        case "Lowest" => duplicates := Lowest;
        case _ =>
          return Err(AttributeError("'" + m + "' is an unknown method to handle duplicates (First/Last/Lowest/Highest)"));
      }
      r := Ok(());
    }

    /** `add_attribute_map(list)`: declares the listed fields, one item at a time. */
    method AddAttributeMap(list: seq<PyValue>) returns (r: Result<bool, PyErr>)
      modifies this
      ensures duplicates == old(duplicates) && attributes == old(attributes)
      ensures (schema, r) == Declared(old(schema), list)
    {
      var i := 0;
      while i < |list|
        invariant 0 <= i <= |list|
        invariant Declared(old(schema), list[..i]) == (schema, Ok(true))
        invariant duplicates == old(duplicates) && attributes == old(attributes)
      {
        assert list[..i + 1][..i] == list[..i];
        var item := list[i];
        if !item.PyTuple? {
          r := Err(TypeError);
          DeclaredErrorStops(old(schema), list, i + 1);
          return;
        }
        if |item.items| != 2 {
          r := Err(ValueError("Each tuple must have exactly two elements"));
          DeclaredErrorStops(old(schema), list, i + 1);
          return;
        }
        var first := ExtractString(item.items[0]);
        if first.Err? {
          r := Err(first.error);
          DeclaredErrorStops(old(schema), list, i + 1);
          return;
        }
        var second := ExtractString(item.items[1]);
        if second.Err? {
          r := Err(second.error);
          DeclaredErrorStops(old(schema), list, i + 1);
          return;
        }
        schema := schema[first.value := second.value];
        i := i + 1;
      }
      assert list[..|list|] == list;
      r := Ok(true);
    }

    /**
     * `insert_one_pt(p3, **kwargs)`, given the engine's answer `core` to the
     * insertion: `Ok(vi)` for a new vertex, `Err(vi)` for an existing one at
     * the same xy. A keyword value that cannot be extracted raises before
     * the point is inserted; otherwise the call returns the vertex index and
     * whether it is new, and the non-empty record of the declared keyword
     * arguments is attached to that vertex.
     */
    method InsertOnePt(kwargs: seq<Kwarg>, core: Result<nat, nat>) returns (r: Result<(nat, bool), PyErr>)
      modifies this
      ensures duplicates == old(duplicates) && schema == old(schema)
      ensures r.Err? <==> Ingested(schema, kwargs).Err?
      ensures r.Err? ==> r.error == Ingested(schema, kwargs).error && attributes == old(attributes)
      ensures r.Ok? ==> r.value == (if core.Ok? then (core.value, true) else (core.error, false))
      ensures r.Ok? ==> attributes == Attach(old(attributes), r.value.0, Ingested(schema, kwargs).value)
      ensures old(Valid()) && DistinctKeys(kwargs) ==> Valid()
    {
      var m := FilterKwargs(schema, kwargs);
      if m.Err? {
        return Err(m.error);
      }
      if old(Valid()) && DistinctKeys(kwargs) {
        AttachConforms(schema, attributes, if core.Ok? then core.value else core.error, kwargs);
      }
      match core {
        case Ok(x) =>
          if |m.value| != 0 {
            attributes := attributes[x := RecordOf(attributes, x) + m.value];
          }
          r := Ok((x, true));
        case Err(x) =>
          if |m.value| != 0 {
            attributes := attributes[x := RecordOf(attributes, x) + m.value];
          }
          r := Ok((x, false));
      }
    }

    /**
     * The dtype `all_attributes` builds, given the engine's listing
     * `fields` of the schema: one entry per declared field with a
     * recognised tag, paired with its numpy code.
     */
    method AllAttributesDtype(fields: seq<(string, string)>) returns (vmap: seq<(string, string)>)
      requires ListsSchema(schema, fields)
      ensures vmap == DtypeList(fields)
      ensures forall entry :: entry in vmap <==>
        (entry.0 in schema && TagFromName(schema[entry.0]).Some?
         && entry.1 == DtypeCode(TagFromName(schema[entry.0]).value))
    {
      vmap := NumpyDtype(fields);
      DtypeOfSchema(schema, fields);
    }

    /**
     * `insert_one_pt` as its documentation describes it: the duplicate
     * setting decides which extra attributes of a duplicate are kept, as it
     * decides its z-value. `newZKept` is the engine's answer for a
     * duplicate: whether the new z replaced the stored one, which never
     * happens under First and always happens under Last. The record is
     * attached to a new vertex, and to a duplicate only when its z was taken.
     */
    method InsertOnePtKeepingDuplicates(kwargs: seq<Kwarg>, core: Result<nat, nat>, newZKept: bool)
      returns (r: Result<(nat, bool), PyErr>)
      requires core.Err? && duplicates == First ==> !newZKept
      requires core.Err? && duplicates == Last ==> newZKept
      modifies this
      ensures duplicates == old(duplicates) && schema == old(schema)
      ensures r.Err? <==> Ingested(schema, kwargs).Err?
      ensures r.Err? ==> r.error == Ingested(schema, kwargs).error && attributes == old(attributes)
      ensures r.Ok? ==> r.value == (if core.Ok? then (core.value, true) else (core.error, false))
      ensures r.Ok? && (core.Ok? || newZKept) ==>
        attributes == Attach(old(attributes), r.value.0, Ingested(schema, kwargs).value)
      ensures core.Err? && !newZKept ==> attributes == old(attributes)
      ensures core.Err? && duplicates == First ==> attributes == old(attributes)
      ensures old(Valid()) && DistinctKeys(kwargs) ==> Valid()
    {
      var m := FilterKwargs(schema, kwargs);
      if m.Err? {
        return Err(m.error);
      }
      var x := if core.Ok? then core.value else core.error;
      if core.Ok? || newZKept {
        if old(Valid()) && DistinctKeys(kwargs) {
          AttachConforms(schema, attributes, x, kwargs);
        }
        if |m.value| != 0 {
          attributes := attributes[x := RecordOf(attributes, x) + m.value];
        }
      }
      r := Ok((x, core.Ok?));
    }
  }

  /** The value of field `key` of vertex `vi`, if it has one. */
  function FieldOf(store: map<nat, map<string, JsonValue>>, vi: nat, key: string): Option<JsonValue>
  {
    if key in RecordOf(store, vi) then Some(RecordOf(store, vi)[key]) else None
  }

  /** The declaration ("classification", "i64"). */
  const ClassificationI64: PyValue := PyTuple([PyStr("classification"), PyStr("i64")])

  /** Declaring classification as i64, then passing classification=5 or 11, stores that integer. */
  lemma SchemaOfClassification()
    ensures Declared(map[], [ClassificationI64]) == (map["classification" := "i64"], Ok(true))
    ensures Ingested(map["classification" := "i64"], [Kwarg("classification", PyInt(5))])
      == Ok(map["classification" := JInt(5)])
    ensures Ingested(map["classification" := "i64"], [Kwarg("classification", PyInt(11))])
      == Ok(map["classification" := JInt(11)])
  {
    assert [ClassificationI64][..0] == [];
    assert [Kwarg("classification", PyInt(5))][..0] == [];
    assert [Kwarg("classification", PyInt(11))][..0] == [];
    assert TagOf(map["classification" := "i64"], "classification") == I64;
  }

  /**
   * A duplicate under the default setting, First, as the code handles it:
   * "classification" is declared as i64, a point becomes new vertex 5 with
   * classification=5, then a point at the same xy comes with
   * classification=11. Vertex 5 keeps its first z but ends with
   * classification 11.
   */
  method FirstDuplicateAsWritten() returns (c: Option<JsonValue>)
    ensures c == Some(JInt(11))
  {
    var dt := new DT();
    var d := dt.AddAttributeMap([ClassificationI64]);
    SchemaOfClassification();
    var a := dt.InsertOnePt([Kwarg("classification", PyInt(5))], Ok(5));
    var b := dt.InsertOnePt([Kwarg("classification", PyInt(11))], Err(5));
    c := FieldOf(dt.attributes, 5, "classification");
  }

  /** The same calls when the duplicate setting also governs the attributes: vertex 5 keeps classification 5. */
  method FirstDuplicateKept() returns (c: Option<JsonValue>)
    ensures c == Some(JInt(5))
  {
    var dt := new DT();
    var d := dt.AddAttributeMap([ClassificationI64]);
    SchemaOfClassification();
    var a := dt.InsertOnePtKeepingDuplicates([Kwarg("classification", PyInt(5))], Ok(5), false);
    var b := dt.InsertOnePtKeepingDuplicates([Kwarg("classification", PyInt(11))], Err(5), false);
    c := FieldOf(dt.attributes, 5, "classification");
  }
}
