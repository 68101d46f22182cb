/**
 * The string-keyed settings of the binding (`DT.insert`'s insertion
 * strategy and the `duplicates_handling` setter) and the translation of
 * the engine's removal errors into Python exceptions (`DT.remove`).
 */
module Settings {
  import opened Outcomes
  import opened PyValues

  /** How `insert` feeds the points to the engine. */
  datatype InsertionStrategy = AsIs | BBox

  function InsertionStrategyName(s: InsertionStrategy): string
  {
    match s
    case AsIs => "AsIs"
    case BBox => "BBox"
  }

  /**
   * `insert`'s dispatch on its `insertionstrategy` argument: exactly the two
   * names are accepted; any other string is an AttributeError naming it,
   * raised before any point is inserted.
   */
  function InsertionStrategyFromName(name: string): (r: Result<InsertionStrategy, PyErr>)
    ensures r.Ok? <==> name == "AsIs" || name == "BBox"
    ensures r.Ok? ==> InsertionStrategyName(r.value) == name
    ensures r.Err? ==> r.error == AttributeError("'" + name + "' is an unknown insertion strategy for insert()")
  {
    match name
    case "AsIs" => Ok(AsIs)
    case "BBox" => Ok(BBox)
    case _ => Err(AttributeError("'" + name + "' is an unknown insertion strategy for insert()"))
  }

  lemma InsertionStrategyRoundTrip(s: InsertionStrategy)
    ensures InsertionStrategyFromName(InsertionStrategyName(s)) == Ok(s)
  {
  }

  /** Which z-value is kept when a point lands on an existing vertex. */
  datatype DuplicateHandling = First | Last | Highest | Lowest

  function DuplicateHandlingName(d: DuplicateHandling): string
  {
    match d
    case First => "First"
    case Last => "Last"
    case Highest => "Highest"
    case Lowest => "Lowest"
  }

  /**
   * The `duplicates_handling` setter's dispatch: exactly the four names are
   * accepted; any other string is an AttributeError naming it.
   */
  function DuplicateHandlingFromName(name: string): (r: Result<DuplicateHandling, PyErr>)
    ensures r.Ok? <==> name in ["First", "Last", "Highest", "Lowest"]
    ensures r.Ok? ==> DuplicateHandlingName(r.value) == name
    ensures r.Err? ==> (r.error ==
      AttributeError("'" + name + "' is an unknown method to handle duplicates (First/Last/Lowest/Highest)"))
  {
    match name
    case "First" => Ok(First)
    case "Last" => Ok(Last)
    case "Highest" => Ok(Highest)
    case "Lowest" => Ok(Lowest)
    case _ => Err(AttributeError("'" + name + "' is an unknown method to handle duplicates (First/Last/Lowest/Highest)"))
  }

  lemma DuplicateHandlingRoundTrip(d: DuplicateHandling)
    ensures DuplicateHandlingFromName(DuplicateHandlingName(d)) == Ok(d)
  {
  }

  /** The engine's error kinds, as far as the binding tells them apart. */
  datatype StartinError = VertexInfinite | VertexRemoved | VertexUnknown | TinHasNoAttributes | OtherError

  /**
   * `remove`'s result: success passes through; removing the infinite vertex
   * and every other failure are both IndexErrors, told apart by their message.
   */
  function RemoveResult(re: Result<nat, StartinError>): (r: Result<(), PyErr>)
    ensures r.Ok? <==> re.Ok?
    ensures r.Err? ==> r.error.IndexError?
    ensures r.Err? && re.error == VertexInfinite ==>
      r.error == IndexError("Invalid vertex index: cannot remove infinite vertex")
    ensures r.Err? && re.error != VertexInfinite ==>
      r.error == IndexError("Invalid vertex index: vertex doesn't exist")
    ensures r.Err? ==> (r.error.msg == "Invalid vertex index: cannot remove infinite vertex"
                        <==> re.error == VertexInfinite)
  {
    match re
    case Ok(_) => Ok(())
    case Err(VertexInfinite) => Err(IndexError("Invalid vertex index: cannot remove infinite vertex"))
    case Err(_) => Err(IndexError("Invalid vertex index: vertex doesn't exist"))
  }
}
