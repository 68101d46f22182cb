# startinpy binding core, in Dafny

startinpy is the Python binding, written in Rust with PyO3, of the startin
2.5D Delaunay triangulation engine. Its `DT` class forwards most calls to
the engine. A few methods in `src/lib.rs` carry logic of their own, and
this project models those methods and proves what they promise:

- `write_cityjson` writes the quantized CityJSON 2.0 export:
  - a scale/translate transform;
  - a placeholder vertex substituted for every removed vertex;
  - each coordinate formatted to `digits` fractional digits, its point deleted, and the rest parsed as an `i64`;
  - triangle indices shifted down by one.
- `write_geojson` writes the direct GeoJSON export: one Point per live vertex, then one closed ring per finite triangle.
- `insert_one_pt` filters its keyword arguments against the attribute schema and attaches the resulting record to the returned vertex. `add_attribute_map` declares schema fields. `all_attributes` maps type tags to numpy dtype codes.
- `interpolate` validates its interpolant dict and applies the strict-or-NaN result policy over the locations.
- The string dispatch of `insert` and of the `duplicates_handling` setter, and the error mapping of `remove`.

The model makes these choices:

- The triangulation is an input value (`Tin.Triangulation`) holding:
  - the vertex table, where index 0 is the infinite vertex;
  - the set of removed indices;
  - the bounding-box minimum;
  - the finite triangles.
- Coordinates are exact fixed-point decimals: an integer number of units of 10^-prec. Rust's float formatting is modelled on these decimals:
  - `{:.*}` is exact scaling, or round-half-even when fewer digits are kept;
  - `Display` is the shortest decimal, which reads back as the same value.
- The engine's answers are parameters:
  - the index returned by an insertion, and whether it was new;
  - the result of a removal;
  - the interpolated value at a location (an oracle returning `Option<real>`).
- A Python value is the datatype `PyValues.PyValue`. PyO3's `extract` is modelled per target type:
  - `f64` accepts a float or any object with `__float__`, and otherwise an int, a bool or any object with `__index__`, raising `OverflowError` for an integer beyond the f64 range;
  - `i64` and `u64` accept int, bool and any object with `__index__` within range, and raise `OverflowError` outside it;
  - `bool` accepts only bool;
  - `String` accepts only str.
- The two panics of `write_cityjson` are the error path `CityJson.ExportError`:
  - indexing an empty placeholder when a vertex is removed and no vertex is live;
  - `parse::<i64>().unwrap()` on a coordinate that does not fit.
- In `insert_one_pt`, a declared keyword value that cannot be extracted as its field's type raises through the `?` at src/lib.rs:211-227, before the point is inserted.

## Model

| member | source | states |
|---|---|---|
| Tin.FirstLiveFrom | src/lib.rs:1284-1289 | the index found is at least the start index and is a live vertex |
| Tin.PlaceholderIsFirstLive | src/lib.rs:1283-1289 | the placeholder exists iff some vertex is live, and it is then the live vertex of least index (never the infinite vertex 0) |
| CityJson.TransformFor | src/lib.rs:1276-1280 | the scale times 10^digits is 1 on each of the three axes; translate is (minx, miny, 0) |
| CityJson.FindPlaceholder | src/lib.rs:1283-1289 | the loop with `break` returns the coordinates of the first live vertex with index >= 1, and nothing iff there is none |
| CityJson.QuantizeCoordinate | src/lib.rs:1303-1310 | formatting to `digits` places, deleting '.', then parsing as i64 gives the rounded value, or nothing (the panic) when it does not fit in i64 |
| CityJson.VertexTriple | src/lib.rs:1291-1310 | one loop pass: a removed vertex takes the placeholder's point; x and y are translated by the bbox minimum, z is not; each coordinate is quantized |
| CityJson.QuantizedVertices | src/lib.rs:1290-1311 | succeeds iff every vertex 1..n-1 has a triple; then there is exactly one triple per vertex, in index order, and slot 0 is never emitted; otherwise it fails with the first failing vertex's error |
| CityJson.Boundaries | src/lib.rs:1312-1318 | one surface per finite triangle, in enumeration order, each index the vertex index minus one |
| CityJson.WriteCityJson | src/lib.rs:1274-1341 | the document is CityJSON 2.0 with the transform above; its only city object "myterrain" is a TINRelief holding one CompositeSurface of LoD "1" with the boundaries; its vertex array is the quantized vertices; it fails exactly when some vertex has no triple |
| CityJson.EmittedPoint | src/lib.rs:1292-1300 | the point a vertex slot emits: its own when live, the placeholder's when removed; stated by RemovedVertexCopiesFirstLive and LiveVertexUsesOwnPoint |
| CityJson.CityVertex | src/lib.rs:1291-1310 | the triple of one vertex slot, or the writer's error; stated by the lemmas below |
| CityJson.RemovedVertexCopiesFirstLive | src/lib.rs:1283-1300 | a removed vertex emits exactly what the first live vertex emits |
| CityJson.RemovedVertexWithoutLiveFails | src/lib.rs:1296-1299 | with no live vertex, a removed vertex makes the writer fail, as the source panics on the empty placeholder |
| CityJson.LiveVertexUsesOwnPoint | src/lib.rs:1290-1310 | a live vertex's triple is its own x - minx, y - miny and z, rounded, and exists iff all three fit in i64 |
| CityJson.TransformAxis | src/lib.rs:1276-1280 | on each axis the scale is 1/10^digits and the translate is that axis's offset (minx, miny or 0) |
| CityJson.TransformDecodes | src/lib.rs:1276-1280 | an integer that scales a translated coordinate exactly decodes to that coordinate under the document's transform (q * scale + translate) |
| CityJson.DecodeIsExact | src/lib.rs:1301-1310 | with digits >= the coordinates' precision, every emitted integer is the translated coordinate scaled exactly, so it decodes losslessly |
| CityJson.DecodeIsNearest | src/lib.rs:1301-1310 | with fewer digits, every emitted integer is within half a 10^-digits unit of the translated coordinate |
| CityJson.TranslatedCoordinatesNonNegative | src/lib.rs:1301-1302 | when (minx, miny) bounds the live vertices from below, the emitted x and y are never negative |
| CityJson.BoundaryIndexRefersToOwnVertex | src/lib.rs:1312-1318 | every boundary index is below the length of the emitted vertex array and points at the triple of the triangle's own live vertex |
| Decimal.FormatFixed | src/lib.rs:1303-1305 | `format!("{:.*}", digits, v)`: sign, integer digits, and a point with exactly `digits` rounded fractional digits when digits > 0; its value is stated by QuantizeIsRounded and RoundedNearest |
| Decimal.RemoveDots | src/lib.rs:1303-1305 | `replace(".", "")`; its effect is stated by QuantizeIsRounded |
| Decimal.Quantize | src/lib.rs:1303-1310 | the string route of one coordinate; its value is stated by QuantizeIsRounded |
| Decimal.NatToString | src/lib.rs:1217 | `usize::to_string`: a non-empty string of digits; its value is stated by NatToStringValue |
| Decimal.DisplayDecimal | src/lib.rs:1218-1221 | the `Display` of a coordinate; its value is stated by DisplayRoundTrip and DisplayHasNoComma |
| Decimal.QuantizeIsRounded | src/lib.rs:1303-1310 | the string route (fixed format, delete '.', parse i64) equals the signed rounded value ±(intpart·10^digits + frac), or nothing on i64 overflow |
| Decimal.ParseI64 | src/lib.rs:1307-1309 | a successful parse lies in the i64 range |
| Decimal.RoundedExact | src/lib.rs:1303-1305 | when no digit is dropped, the formatted value is the exact rescaling |
| Decimal.RoundedNearest | src/lib.rs:1303-1305 | when digits are dropped, the formatted value is within half a unit of the last kept digit |
| Decimal.RoundHalfEvenNearest | src/lib.rs:1303-1305 | the rounding picks a nearest multiple, and on a tie the even one |
| Decimal.NatToStringValue | src/lib.rs:1217 | `i.to_string()` spells the index: its digits read back as the index, with no leading zero |
| Decimal.DisplayRoundTrip | src/lib.rs:1218-1221 | the `Display` string of a coordinate reads back as the same coordinate |
| Decimal.DisplayHasNoComma | src/lib.rs:1056-1059 | a displayed coordinate contains only a sign, digits and a point, and in particular no comma |
| GeoJson.WriteGeoJson | src/lib.rs:1202-1261 | all point features come first, one per live vertex in ascending index order, each with its xy and properties id and z; then one polygon per finite triangle, in order |
| GeoJson.PointFeature | src/lib.rs:1215-1229 | the point feature of a vertex; stated by PointPropertiesReadBack |
| GeoJson.TriangleFeature | src/lib.rs:1235-1255 | the polygon feature of a triangle; stated by TriangleRingIsClosed |
| GeoJson.PointsAreLiveVertices | src/lib.rs:1209-1230 | the point indices are exactly the live vertices (never 0, never a removed one), strictly ascending |
| GeoJson.PointCountIsLiveCount | src/lib.rs:1209-1230 | there are as many point features as live vertices |
| GeoJson.PointPropertiesReadBack | src/lib.rs:1215-1221 | a point's properties are exactly id and z; id reads back as the vertex index and z as its elevation |
| GeoJson.TriangleRingIsClosed | src/lib.rs:1232-1245 | a triangle's polygon has a single ring of four positions v0, v1, v2, v0, whose last position equals its first |
| PyValues.ExtractF64 | src/lib.rs:211 | a float, or an object with its own `__float__` (numpy float, Decimal, Fraction), yields that value; otherwise an int, a bool or an `__index__` object yields its integer value when its magnitude is below 2^1024 - 2^970 and is OverflowError beyond; a value with neither conversion is TypeError |
| PyValues.ExtractI64 | src/lib.rs:215 | extraction as i64 succeeds iff the value's `__index__` (an int, a bool, a numpy integer) lies in the i64 range, and yields it; out of range is OverflowError; every other failure (a value without `__index__`, a float included) is TypeError |
| PyValues.ExtractU64 | src/lib.rs:219 | extraction as u64 succeeds iff the value's `__index__` lies in 0..2^64-1, and yields it; out of range, a negative value included, is OverflowError; every other failure (a value without `__index__`) is TypeError |
| PyValues.ExtractBool | src/lib.rs:223 | extraction as bool succeeds iff the value is a bool, and yields that bool; anything else is TypeError |
| PyValues.ExtractString | src/lib.rs:227 | extraction as String succeeds iff the value is a str, and yields that string; anything else is TypeError |
| Settings.InsertionStrategyFromName | src/lib.rs:306-319 | exactly "AsIs" and "BBox" are accepted, and each maps back to its name; any other string raises AttributeError with the name in the message |
| Settings.InsertionStrategyRoundTrip | src/lib.rs:306-319 | every strategy is selected by its own name |
| Settings.DuplicateHandlingFromName | src/lib.rs:376-400 | exactly First, Last, Highest and Lowest are accepted, and each maps back to its name; any other string raises AttributeError with the name in the message |
| Settings.DuplicateHandlingRoundTrip | src/lib.rs:376-400 | every duplicate-handling mode is selected by its own name |
| Settings.RemoveResult | src/lib.rs:267-284 | success passes through; removing the infinite vertex is IndexError("Invalid vertex index: cannot remove infinite vertex") and every other engine error is IndexError("Invalid vertex index: vertex doesn't exist") |
| Attributes.TagFromName | src/lib.rs:208-231 | exactly the five tags f64, i64, u64, bool and String are recognised, each mapping back to its name |
| Attributes.TagNameRoundTrip | src/lib.rs:208-231 | every tag is recognised by its own name |
| Attributes.ExtractAs | src/lib.rs:209-231 | for each tag, succeeds exactly when the matching `extract` does and stores the extracted value as the JSON value of that tag's shape (float, i64-range int, u64-range int, bool, string); a failure is TypeError or OverflowError |
| Attributes.Ingested | src/lib.rs:200-234 | the record the kwargs loop builds; its meaning is stated by IngestedOkIff, IngestedFirstError and IngestedRecord |
| Attributes.FilterKwargs | src/lib.rs:200-234 | the kwargs loop builds exactly the specified record, stopping at the first value that cannot be extracted |
| Attributes.IngestedOkIff | src/lib.rs:206-234 | ingestion fails iff some kwarg with a declared, recognised tag has a value that cannot be extracted |
| Attributes.IngestedFirstError | src/lib.rs:206-234 | on failure, the error is the one of the first such kwarg, in kwarg order |
| Attributes.IngestedRecord | src/lib.rs:206-234 | the record's keys are exactly the kwargs whose key is declared with a recognised tag; each holds its extracted value, which conforms to the tag |
| Attributes.DtypeCodeInjective | src/lib.rs:439-448 | distinct tags get distinct numpy codes |
| Attributes.NumpyDtype | src/lib.rs:438-448 | the loop builds the (name, code) list in field order, skipping unrecognised tags |
| Attributes.DtypeListLength | src/lib.rs:438-448 | the dtype has no more entries than there are schema fields |
| Attributes.DtypeList | src/lib.rs:439-448 | the (name, code) list in field order; its meaning is stated by DtypeListMeaning |
| Attributes.DtypeListMeaning | src/lib.rs:439-448 | an entry of the dtype is exactly a schema field whose tag is one of the five insert_one_pt accepts, paired with that tag's code (f8, i8, u8, b1, U10) |
| Attributes.DtypeOfSchema | src/lib.rs:439-448 | whatever order the engine lists the schema in, the dtype holds exactly the declared fields with a recognised tag, each with its code |
| Startinpy.Attach | src/lib.rs:238-250 | the store after attaching a record to a vertex; its meaning is stated by AttachMerges |
| Startinpy.AttachMerges | src/lib.rs:238-252 | attaching a record sets each of its fields on the vertex and keeps the vertex's other fields; other vertices are untouched; an empty record changes nothing |
| Startinpy.AttachConforms | src/lib.rs:200-252 | attaching an ingested record keeps every stored field declared and of its tag's shape |
| Startinpy.Declaration | src/lib.rs:419-427 | an item declares a field iff it is a 2-tuple of strings; a tuple of another length is the ValueError "Each tuple must have exactly two elements"; anything else is a TypeError |
| Startinpy.Declared | src/lib.rs:418-431 | the schema and result after add_attribute_map; its meaning is stated by DeclaredOkIff, DeclaredNames and DeclaredTags |
| Startinpy.DeclaredOkIff | src/lib.rs:418-431 | add_attribute_map returns true iff every item is a pair of strings |
| Startinpy.DeclaredNames | src/lib.rs:418-431 | after success, the schema holds exactly the old names and the declared ones |
| Startinpy.DeclaredTags | src/lib.rs:418-431 | after success, each declared name carries the tag of its last declaration |
| Startinpy.DT.constructor | src/lib.rs:119-124 | a new DT keeps the first z of duplicates and has no schema and no attributes |
| Startinpy.DT.DuplicatesHandling | src/lib.rs:370-373 | the getter's string selects the current mode when passed back to the setter |
| Startinpy.DT.SetDuplicatesHandling | src/lib.rs:375-400 | a known name sets the mode, which the getter then returns; any other name raises and leaves the mode unchanged; nothing else changes |
| Startinpy.DT.AddAttributeMap | src/lib.rs:418-431 | declares the items in order; the first malformed item raises, and the items before it stay declared |
| Startinpy.DT.InsertOnePt | src/lib.rs:195-255 | a value that cannot be extracted raises and changes nothing; otherwise the call returns the engine's index with a flag that is true iff the point was new; a non-empty record is merged onto that index in both cases; stored attributes stay declared and well typed |
| Startinpy.DT.AllAttributesDtype | src/lib.rs:435-448 | given the engine's listing of the schema, the dtype holds exactly one (name, code) entry per declared field with a recognised tag |
| Startinpy.DT.InsertOnePtKeepingDuplicates | src/lib.rs:176-180 | as InsertOnePt, but a duplicate's record is attached only when the engine took its z; under First a duplicate leaves the attributes unchanged |
| Startinpy.FirstDuplicateAsWritten | src/lib.rs:236-252 | under First, vertex 5 inserted with classification=5 and then hit by a duplicate with classification=11 ends with 11 |
| Startinpy.FirstDuplicateKept | src/lib.rs:176-180 | the same calls on the corrected insertion leave vertex 5 with classification 5 |
| Interpolation.ParseInterpolant | src/lib.rs:1030-1049 | a missing "method" is ValueError("Wrong parameters"), and a method of the wrong type is TypeError; for IDW a missing radius or power is ValueError("Wrong parameters"), a radius that cannot be extracted as f64 raises that error, a radius <= 0 is ValueError("Wrong parameters"), and then a power that cannot be extracted raises its error and a power <= 0 is ValueError("Wrong parameters"), while a positive radius and power give IDW with those values; "Laplace", "NN", "NNI" and "TIN" give that interpolant whatever the other keys; a name outside the five is "Unknown interpolation method", and a success always carries the method name the dict gave |
| Interpolation.ParamsRoundTrip | src/lib.rs:1030-1049 | every interpolant with a positive radius and power is selected by its own dict |
| Interpolation.Values | src/lib.rs:1050-1066 | the non-strict result; its meaning is stated by ValuesPointwise |
| Interpolation.FailureMessage | src/lib.rs:1054-1060 | the strict exception's message; its meaning is stated by FailureMessageNamesLocation |
| Interpolation.FirstFailure | src/lib.rs:1050-1066 | the index found is a location of the input |
| Interpolation.Interpolate | src/lib.rs:1023-1153 | a bad interpolant raises before any location is looked at; non-strict gives one entry per location; strict gives the same entries, or the exception naming the first location without a value |
| Interpolation.ValuesPointwise | src/lib.rs:1050-1066 | there is one entry per location, in order, NaN exactly where the engine finds no value and that value otherwise |
| Interpolation.FirstFailureIsFirst | src/lib.rs:1050-1066 | the strict error location has no value and every location before it has one; there is none iff all locations have values |
| Interpolation.StrictSuccessHasNoNaN | src/lib.rs:1050-1066 | a strict call that succeeds returns no NaN |
| Interpolation.FailureMessageNamesLocation | src/lib.rs:1056-1060 | the strict message is "(x, y)" plus the reason, for IDW an empty search radius and for the others a location outside the convex hull; x and y read back as the location |

## Findings

| source | as written | input that shows it | evidently intended | confidence | as-written member | corrected member |
|---|---|---|---|---|---|---|
| src/lib.rs:236-252 | the record is attached to the returned vertex on the duplicate branch whatever the duplicate setting is | setting First; classification declared as i64; a point becomes vertex 5 with classification=5; a point at the same xy comes with classification=11; vertex 5 ends with 11 but keeps its first z | the setting decides which extra attributes are kept (src/lib.rs:176-180), so under First vertex 5 keeps 5 | medium, not executed; it assumes the engine's `add_vertex_attributes` merges the record | Startinpy.FirstDuplicateAsWritten | Startinpy.DT.InsertOnePtKeepingDuplicates |

## Left out

- The startin engine is not part of this model. This covers Delaunay insertion and removal, point location, the interpolation algorithms, normals, convex hull, bounding-box computation, garbage collection and the OBJ/PLY writers. The engine's answers are parameters, and the triangulation is an input value.
- Floating point is left out. Coordinates and interpolated values are exact decimals or reals, so binary rounding, NaN and infinities are not modelled. This also leaves out an IDW radius or power of NaN, which passes the `<= 0.0` checks in the source.
- File I/O and JSON text are left out. The exporters return the document as a record, not as bytes on disk, and an invalid path is not modelled.
- numpy marshalling is left out: the `points` and `triangles` getters, the array built by `interpolate`, and the structured array of `all_attributes`. Of `all_attributes`, only the dtype list is modelled. Its hard-coded "intensity"/"visited" fill values are not modelled.
- PyO3's own error messages are left out. TypeError and OverflowError carry no message.
- The helpers `convert_json_value_to_pyobject` and `convert_py_any_to_json`, `get_vertex_attributes`, and the kwargs loop of `add_vertex_attributes` are not part of this model.
- Startinpy.AttachMerges: the engine's `add_vertex_attributes` is taken to merge the record into the vertex's existing fields. Its source is not shown.
- Startinpy.DT.AddAttributeMap: the engine's `add_attribute_map` is taken to record the pair in the schema, with a later declaration of a name replacing the earlier one. Its source is not shown, and re-declaring a stored field with another tag can leave the store not conforming to the schema.
- Interpolation.Interpolate: the engine's interpolation may update the triangulation through `&mut self`. The oracle is a pure function, so the model assumes the value at one location does not depend on the locations before it.
- Interpolation.Interpolate: locations and radii are decimals. The message prints a location as the shortest decimal that reads back as it, which is how Rust displays a float that is an exact decimal.
- The default arguments are not modelled: `insertionstrategy="AsIs"` (src/lib.rs:305), `strict=False` (src/lib.rs:1022) and `digits=3` (src/lib.rs:1273). `Settings.InsertionStrategyFromName`, `Interpolation.Interpolate` and `CityJson.WriteCityJson` take these values as explicit parameters. The text signature at src/lib.rs:1021 shows `strict=True`, but the default the code applies is `False`.
- Number objects (`PyValues.PyValue.PyNumber`): an object's `__float__` or `__index__` that raises, or a `__float__` that returns infinity or NaN, is not modelled.
- PyValues.ExtractF64: an int is converted exactly. Its rounding to the nearest f64, which changes ints beyond 2^53, is not modelled.
- Startinpy.DT.DuplicatesHandling: the engine's `get_duplicates_handling` is taken to return the current mode's own name ("First", "Last", "Highest" or "Lowest"). Its source is not shown.
- Startinpy.DT.InsertOnePt: the attribute store is changed only by this model's insertions. What the engine does to a vertex's attributes when it removes the vertex, or when a later insertion reuses its slot, is not modelled, so a reused slot keeps the old fields here.
- Startinpy.DT.InsertOnePt: the engine's `add_vertex_attributes` is not shown. If it honours the duplicate setting itself, the finding above does not arise.
- Attributes.NumpyDtype: the order of `list_all_attributes` is the engine's. The model takes it as any listing of the schema, with each name once.
- The snap-tolerance and jump-and-walk accessors and the other read-only queries forward to the engine without logic of their own, so they are left out.
