/**
 * The per-vertex attributes: the schema of typed fields, the filtering of
 * `insert_one_pt`'s keyword arguments against it, and the type-tag to
 * numpy dtype-code table of `all_attributes`.
 */
module Attributes {
  import opened Outcomes
  import opened Decimal
  import opened PyValues

  /** A JSON value as stored for a vertex attribute. */
  datatype JsonValue = JBool(b: bool) | JInt(i: int) | JFloat(f: real) | JString(s: string)

  /** The five type tags a schema field may carry. */
  datatype TypeTag = F64 | I64 | U64 | BoolTag | StringTag

  function TagName(tag: TypeTag): string
  {
    match tag
    case F64 => "f64"
    case I64 => "i64"
    case U64 => "u64"
    case BoolTag => "bool"
    case StringTag => "String"
  }

  /** The tag a schema entry names; any other string is not a recognised tag. */
  function TagFromName(name: string): (r: Option<TypeTag>)
    ensures r.Some? <==> name in ["f64", "i64", "u64", "bool", "String"]
    ensures r.Some? ==> TagName(r.value) == name
  {
    match name
    case "f64" => Some(F64)
    case "i64" => Some(I64)
    case "u64" => Some(U64)
    case "bool" => Some(BoolTag)
    case "String" => Some(StringTag)
    case _ => None
  }

  lemma TagNameRoundTrip(tag: TypeTag)
    ensures TagFromName(TagName(tag)) == Some(tag)
  {
  }

  /** A stored value has the JSON shape its tag promises. */
  predicate Conforms(j: JsonValue, tag: TypeTag)
  {
    match tag
    case F64 => j.JFloat?
    case I64 => j.JInt? && InI64(j.i)
    case U64 => j.JInt? && 0 <= j.i <= U64Max
    case BoolTag => j.JBool?
    case StringTag => j.JString?
  }

  /**
   * Extracting a Python value as the Rust type of `tag` and turning it into
   * JSON: it succeeds exactly when that extraction does, holds the extracted
   * value, and conforms to the tag.
   */
  function ExtractAs(tag: TypeTag, v: PyValue): (r: Result<JsonValue, PyErr>)
    ensures r.Ok? ==> Conforms(r.value, tag)
    ensures r.Err? ==> r.error == TypeError || r.error == OverflowError
    ensures tag == F64 ==> (r.Ok? <==> ExtractF64(v).Ok?) && (r.Ok? ==> r.value == JFloat(ExtractF64(v).value))
    ensures tag == I64 ==> (r.Ok? <==> ExtractI64(v).Ok?) && (r.Ok? ==> r.value == JInt(ExtractI64(v).value))
    ensures tag == U64 ==> (r.Ok? <==> ExtractU64(v).Ok?) && (r.Ok? ==> r.value == JInt(ExtractU64(v).value))
    ensures tag == BoolTag ==> (r.Ok? <==> ExtractBool(v).Ok?) && (r.Ok? ==> r.value == JBool(ExtractBool(v).value))
    ensures tag == StringTag ==>
      (r.Ok? <==> ExtractString(v).Ok?) && (r.Ok? ==> r.value == JString(ExtractString(v).value))
  {
    match tag
    case F64 => (match ExtractF64(v) case Ok(f) => Ok(JFloat(f)) case Err(e) => Err(e))
    case I64 => (match ExtractI64(v) case Ok(i) => Ok(JInt(i)) case Err(e) => Err(e))
    case U64 => (match ExtractU64(v) case Ok(u) => Ok(JInt(u)) case Err(e) => Err(e))
    case BoolTag => (match ExtractBool(v) case Ok(b) => Ok(JBool(b)) case Err(e) => Err(e))
    case StringTag => (match ExtractString(v) case Ok(s) => Ok(JString(s)) case Err(e) => Err(e))
  }

  /** A keyword argument `key=value`. */
  datatype Kwarg = Kwarg(key: string, value: PyValue)

  /** Keyword arguments never repeat a name. */
  predicate DistinctKeys(kwargs: seq<Kwarg>)
  {
    forall i, j :: 0 <= i < j < |kwargs| ==> kwargs[i].key != kwargs[j].key
  }

  /** A keyword argument is considered when the schema has its name with a recognised tag. */
  predicate Kept(schema: map<string, string>, key: string)
  {
    key in schema && TagFromName(schema[key]).Some?
  }

  function TagOf(schema: map<string, string>, key: string): TypeTag
    requires Kept(schema, key)
  {
    TagFromName(schema[key]).value
  }

  /** A considered keyword argument whose value cannot be extracted. */
  predicate Rejected(schema: map<string, string>, kw: Kwarg)
  {
    Kept(schema, kw.key) && ExtractAs(TagOf(schema, kw.key), kw.value).Err?
  }

  /**
   * The attribute record built from the keyword arguments, read in order:
   * ignored names are skipped, and the first value that cannot be extracted
   * ends the call with its error.
   */
  function Ingested(schema: map<string, string>, kwargs: seq<Kwarg>): Result<map<string, JsonValue>, PyErr>
  {
    if kwargs == [] then Ok(map[])
    else
      var kw := kwargs[|kwargs| - 1];
      match Ingested(schema, kwargs[..|kwargs| - 1])
      case Err(e) => Err(e)
      case Ok(m) =>
        if !Kept(schema, kw.key) then Ok(m)
        else match ExtractAs(TagOf(schema, kw.key), kw.value)
          case Err(e) => Err(e)
          case Ok(j) => Ok(m[kw.key := j])
  }

  /** Once a prefix of the arguments fails, the whole call fails with the same error. */
  lemma {:induction false} IngestedErrorStops(schema: map<string, string>, kwargs: seq<Kwarg>, i: nat)
    requires i <= |kwargs| && Ingested(schema, kwargs[..i]).Err?
    ensures Ingested(schema, kwargs) == Ingested(schema, kwargs[..i])
    decreases |kwargs| - i
  {
    if i < |kwargs| {
      assert kwargs[..|kwargs| - 1][..i] == kwargs[..i];
      IngestedErrorStops(schema, kwargs[..|kwargs| - 1], i);
    } else {
      assert kwargs[..i] == kwargs;
    }
  }

  /** The loop over the keyword arguments in `insert_one_pt`. */
  method FilterKwargs(schema: map<string, string>, kwargs: seq<Kwarg>) returns (r: Result<map<string, JsonValue>, PyErr>)
    ensures r == Ingested(schema, kwargs)
  {
    var m: map<string, JsonValue> := map[];
    var i := 0;
    while i < |kwargs|
      invariant 0 <= i <= |kwargs|
      invariant Ingested(schema, kwargs[..i]) == Ok(m)
    {
      assert kwargs[..i + 1][..i] == kwargs[..i];
      var b := kwargs[i].key;
      if b in schema {
        match TagFromName(schema[b])
        case None =>
        case Some(tag) =>
          var t1 := ExtractAs(tag, kwargs[i].value);
          if t1.Err? {
            IngestedErrorStops(schema, kwargs, i + 1);
            return Err(t1.error);
          }
          m := m[b := t1.value];
      }
      i := i + 1;
    }
    assert kwargs[..|kwargs|] == kwargs;
    r := Ok(m);
  }

  // ---------------------------------------------------------------------------
  // What the ingested record holds
  // ---------------------------------------------------------------------------

  /** Ingestion fails exactly when some considered argument cannot be extracted. */
  lemma {:induction false} IngestedOkIff(schema: map<string, string>, kwargs: seq<Kwarg>)
    ensures Ingested(schema, kwargs).Ok? <==> forall j :: 0 <= j < |kwargs| ==> !Rejected(schema, kwargs[j])
  {
    if kwargs != [] {
      var init := kwargs[..|kwargs| - 1];
      IngestedOkIff(schema, init);
      assert forall j :: 0 <= j < |init| ==> init[j] == kwargs[j];
    }
  }

  /** On failure, the error is the one of the first argument that cannot be extracted. */
  lemma {:induction false} IngestedFirstError(schema: map<string, string>, kwargs: seq<Kwarg>)
    requires Ingested(schema, kwargs).Err?
    ensures exists j :: (0 <= j < |kwargs| && Rejected(schema, kwargs[j])
      && Ingested(schema, kwargs).error == ExtractAs(TagOf(schema, kwargs[j].key), kwargs[j].value).error
      && forall i :: 0 <= i < j ==> !Rejected(schema, kwargs[i]))
  {
    var init := kwargs[..|kwargs| - 1];
    assert forall j :: 0 <= j < |init| ==> init[j] == kwargs[j];
    if Ingested(schema, init).Err? {
      IngestedFirstError(schema, init);
      var j :| 0 <= j < |init| && Rejected(schema, init[j])
        && Ingested(schema, init).error == ExtractAs(TagOf(schema, init[j].key), init[j].value).error
        && forall i :: 0 <= i < j ==> !Rejected(schema, init[i]);
      assert Rejected(schema, kwargs[j]);
    } else {
      IngestedOkIff(schema, init);
      assert Rejected(schema, kwargs[|kwargs| - 1]);
    }
  }

  /** Every field of a record is declared in the schema and has its tag's shape. */
  predicate RecordConforms(schema: map<string, string>, rec: map<string, JsonValue>)
  {
    forall key :: key in rec ==> Kept(schema, key) && Conforms(rec[key], TagOf(schema, key))
  }

  /**
   * A successful record holds exactly the considered arguments, each with
   * its extracted value, so every stored value conforms to its field's tag.
   */
  lemma {:induction false} IngestedRecord(schema: map<string, string>, kwargs: seq<Kwarg>)
    requires DistinctKeys(kwargs) && Ingested(schema, kwargs).Ok?
    ensures var m := Ingested(schema, kwargs).value;
      (forall key :: key in m <==> Kept(schema, key) && exists j :: 0 <= j < |kwargs| && kwargs[j].key == key)
      && (forall j :: 0 <= j < |kwargs| && Kept(schema, kwargs[j].key) ==>
            Ok(m[kwargs[j].key]) == ExtractAs(TagOf(schema, kwargs[j].key), kwargs[j].value))
      && RecordConforms(schema, m)
  {
    if kwargs != [] {
      var init := kwargs[..|kwargs| - 1];
      assert forall j :: 0 <= j < |init| ==> init[j] == kwargs[j];
      IngestedRecord(schema, init);
    }
  }

  // ---------------------------------------------------------------------------
  // The numpy dtype of `all_attributes`
  // ---------------------------------------------------------------------------

  /** The numpy type code of a field: 8-byte float, signed and unsigned int, a 1-byte flag, a 10-char string. */
  function DtypeCode(tag: TypeTag): string
  {
    match tag
    case F64 => "f8"
    case I64 => "i8"
    case U64 => "u8"
    case BoolTag => "b1"
    case StringTag => "U10"
  }

  /** Distinct tags get distinct codes, so the dtype still tells the fields' types apart. */
  lemma DtypeCodeInjective(a: TypeTag, b: TypeTag)
    ensures DtypeCode(a) == DtypeCode(b) ==> a == b
  {
  }

  /** The dtype entry of one field: none when its tag is not recognised. */
  function DtypeEntries(field: (string, string)): seq<(string, string)>
  {
    match TagFromName(field.1)
    case None => []
    case Some(tag) => [(field.0, DtypeCode(tag))]
  }

  /** The (name, code) list, in the order of the fields, skipping unrecognised tags. */
  function DtypeList(fields: seq<(string, string)>): seq<(string, string)>
  {
    if fields == [] then []
    else DtypeList(fields[..|fields| - 1]) + DtypeEntries(fields[|fields| - 1])
  }

  /** The loop building the dtype description in `all_attributes`. */
  method NumpyDtype(fields: seq<(string, string)>) returns (vmap: seq<(string, string)>)
    ensures vmap == DtypeList(fields)
  {
    vmap := [];
    var i := 0;
    while i < |fields|
      invariant 0 <= i <= |fields|
      invariant vmap == DtypeList(fields[..i])
    {
      assert fields[..i + 1][..i] == fields[..i];
      var (key, dtype) := fields[i];
      match dtype {
        case "f64" => vmap := vmap + [(key, "f8")];
        case "i64" => vmap := vmap + [(key, "i8")];
        case "u64" => vmap := vmap + [(key, "u8")];
        case "bool" => vmap := vmap + [(key, "b1")];
        case "String" => vmap := vmap + [(key, "U10")];
        case _ =>
      }
      i := i + 1;
    }
    assert fields[..|fields|] == fields;
  }

  /** The dtype never has more entries than there are fields. */
  lemma {:induction false} DtypeListLength(fields: seq<(string, string)>)
    ensures |DtypeList(fields)| <= |fields|
  {
    if fields != [] {
      DtypeListLength(fields[..|fields| - 1]);
    }
  }

  /** The field at position `j` as a dtype entry, when its tag is recognised. */
  predicate DtypeEntryOf(fields: seq<(string, string)>, j: int, entry: (string, string))
  {
    0 <= j < |fields| && fields[j].0 == entry.0
      && TagFromName(fields[j].1).Some? && entry.1 == DtypeCode(TagFromName(fields[j].1).value)
  }

  /**
   * An entry of the dtype is exactly a field whose tag is one of the five
   * `insert_one_pt` accepts, paired with that tag's code.
   */
  lemma {:induction false} DtypeListMeaning(fields: seq<(string, string)>)
    ensures forall entry :: entry in DtypeList(fields) <==> exists j :: DtypeEntryOf(fields, j, entry)
  {
    if fields != [] {
      var init := fields[..|fields| - 1];
      var tail := DtypeEntries(fields[|fields| - 1]);
      DtypeListMeaning(init);
      forall entry
        ensures entry in DtypeList(fields) <==> exists j :: DtypeEntryOf(fields, j, entry)
      {
        if exists j :: DtypeEntryOf(fields, j, entry) {
          var j :| DtypeEntryOf(fields, j, entry);
          if j < |init| {
            assert DtypeEntryOf(init, j, entry);
          } else {
            assert entry in tail;
          }
        }
        if exists j :: DtypeEntryOf(init, j, entry) {
          var j :| DtypeEntryOf(init, j, entry);
          assert DtypeEntryOf(fields, j, entry);
        }
        if entry in tail {
          assert DtypeEntryOf(fields, |init|, entry);
        }
      }
    }
  }

  /**
   * `fields` lists the schema in some order (the engine's): every pair is
   * a schema entry, every schema name appears, and no name appears twice.
   */
  predicate ListsSchema(schema: map<string, string>, fields: seq<(string, string)>)
  {
    (forall j :: 0 <= j < |fields| ==> fields[j].0 in schema && schema[fields[j].0] == fields[j].1)
    && (forall key :: key in schema ==> exists j :: 0 <= j < |fields| && fields[j].0 == key)
    && (forall i, j :: 0 <= i < j < |fields| ==> fields[i].0 != fields[j].0)
  }

  /**
   * Whatever order the schema is listed in, the dtype holds exactly one
   * entry per schema field with a recognised tag, paired with its code.
   */
  lemma DtypeOfSchema(schema: map<string, string>, fields: seq<(string, string)>)
    requires ListsSchema(schema, fields)
    ensures forall entry :: entry in DtypeList(fields) <==>
      (entry.0 in schema && TagFromName(schema[entry.0]).Some?
       && entry.1 == DtypeCode(TagFromName(schema[entry.0]).value))
  {
    DtypeListMeaning(fields);
    forall entry: (string, string) | entry.0 in schema && TagFromName(schema[entry.0]).Some?
                                     && entry.1 == DtypeCode(TagFromName(schema[entry.0]).value)
      ensures entry in DtypeList(fields)
    {
      var j :| 0 <= j < |fields| && fields[j].0 == entry.0;
      assert DtypeEntryOf(fields, j, entry);
    }
  }
}
