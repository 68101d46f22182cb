/**
 * `DT.interpolate`: the reading of the interpolant dict and the loop over
 * the locations, with strict and non-strict handling of the locations
 * where the engine finds no value. The engine's interpolation itself is a
 * parameter (`oracle`): the value at a location, or None when there is
 * none (outside the convex hull, or no point in the IDW search radius).
 */
module Interpolation {
  import opened Outcomes
  import opened Decimal
  import opened PyValues

  /** The five interpolation methods; IDW carries its search radius and power. */
  datatype Interpolant = IDW(radius: real, power: real) | Laplace | NN | NNI | TIN

  function MethodName(i: Interpolant): string
  {
    match i
    case IDW(_, _) => "IDW"
    case Laplace => "Laplace"
    case NN => "NN"
    case NNI => "NNI"
    case TIN => "TIN"
  }

  /** A location [x, y], in units of 10^-prec. */
  datatype Loc = Loc(x: int, y: int)

  /** An entry of the returned array: a value, or NaN where there is none. */
  datatype Float = Num(v: real) | NaN

  const WrongParameters: PyErr := ValueError("Wrong parameters")

  /**
   * The interpolant named by the dict's "method" entry. A missing "method",
   * or for IDW a missing "radius" or "power", is a ValueError; an entry of
   * the wrong Python type is a TypeError, an int radius or power too large
   * for an f64 an OverflowError; IDW needs a positive radius and
   * power; any other method name is a ValueError of its own.
   */
  /** The dict asks for IDW and has both of its parameters. */
  predicate AsksIDW(params: map<string, PyValue>)
  {
    "method" in params && params["method"] == PyStr("IDW") && "radius" in params && "power" in params
  }

  function ParseInterpolant(params: map<string, PyValue>): (r: Result<Interpolant, PyErr>)
    ensures "method" in params && params["method"] == PyStr("IDW") && ("radius" !in params || "power" !in params)
      ==> r == Err(WrongParameters)
    ensures AsksIDW(params) && ExtractF64(params["radius"]).Err? ==> r == Err(ExtractF64(params["radius"]).error)
    ensures AsksIDW(params) && ExtractF64(params["radius"]).Ok? && ExtractF64(params["radius"]).value <= 0.0
      ==> r == Err(WrongParameters)
    ensures AsksIDW(params) && ExtractF64(params["radius"]).Ok? && ExtractF64(params["radius"]).value > 0.0 ==>
      (ExtractF64(params["power"]).Err? ==> r == Err(ExtractF64(params["power"]).error))
      && (ExtractF64(params["power"]).Ok? && ExtractF64(params["power"]).value <= 0.0 ==> r == Err(WrongParameters))
      && (ExtractF64(params["power"]).Ok? && ExtractF64(params["power"]).value > 0.0 ==>
            r == Ok(IDW(ExtractF64(params["radius"]).value, ExtractF64(params["power"]).value)))
    ensures "method" in params && params["method"] == PyStr("Laplace") ==> r == Ok(Laplace)
    ensures "method" in params && params["method"] == PyStr("NN") ==> r == Ok(NN)
    ensures "method" in params && params["method"] == PyStr("NNI") ==> r == Ok(NNI)
    ensures "method" in params && params["method"] == PyStr("TIN") ==> r == Ok(TIN)
    ensures "method" !in params ==> r == Err(WrongParameters)
    ensures "method" in params && !params["method"].PyStr? ==> r == Err(TypeError)
    ensures r.Ok? ==> "method" in params && params["method"] == PyStr(MethodName(r.value))
    ensures r.Ok? && r.value.IDW? ==>
      "radius" in params && ExtractF64(params["radius"]) == Ok(r.value.radius) && r.value.radius > 0.0
      && "power" in params && ExtractF64(params["power"]) == Ok(r.value.power) && r.value.power > 0.0
    ensures r.Err? ==> (r.error == WrongParameters || r.error == TypeError || r.error == OverflowError
      || r.error == ValueError("Unknown interpolation method"))
    ensures "method" in params && params["method"].PyStr? ==>
      (r == Err(ValueError("Unknown interpolation method"))
       <==> params["method"].s !in ["IDW", "Laplace", "NN", "NNI", "TIN"])
  {
    if "method" !in params then Err(WrongParameters)
    else match ExtractString(params["method"])
      case Err(e) => Err(e)
      case Ok(m) =>
        match m
        case "IDW" =>
          if "radius" !in params || "power" !in params then Err(WrongParameters)
          else (match ExtractF64(params["radius"])
            case Err(e) => Err(e)
            case Ok(r1) =>
              if r1 <= 0.0 then Err(WrongParameters)
              else match ExtractF64(params["power"])
                case Err(e) => Err(e)
                case Ok(p1) =>
                  if p1 <= 0.0 then Err(WrongParameters)
                  else Ok(IDW(r1, p1)))
        case "Laplace" => Ok(Laplace)
        case "NN" => Ok(NN)
        case "NNI" => Ok(NNI)
        case "TIN" => Ok(TIN)
        case _ => Err(ValueError("Unknown interpolation method"))
  }

  /** The dict that asks for an interpolant. */
  function ParamsOf(i: Interpolant): map<string, PyValue>
  {
    match i
    case IDW(radius, power) =>
      map["method" := PyStr("IDW"), "radius" := PyFloat(radius), "power" := PyFloat(power)]
    case _ => map["method" := PyStr(MethodName(i))]
  }

  /** Every interpolant with a positive radius and power can be asked for by its dict. */
  lemma ParamsRoundTrip(i: Interpolant)
    requires i.IDW? ==> i.radius > 0.0 && i.power > 0.0
    ensures ParseInterpolant(ParamsOf(i)) == Ok(i)
  {
  }

  /**
   * The message of the exception a strict call raises at `loc`: the
   * location as Rust prints a float, then the reason, which for IDW is an
   * empty search circle and for the others a location outside the hull.
   */
  function FailureMessage(i: Interpolant, loc: Loc, prec: nat): string
  {
    "(" + DisplayDecimal(loc.x, prec) + ", " + DisplayDecimal(loc.y, prec) + ")"
      + (if i.IDW? then " no points in search radius" else " is outside the convex hull")
  }

  /** The non-strict result: the value at each location, NaN where there is none. */
  function Values(i: Interpolant, locs: seq<Loc>, oracle: (Interpolant, Loc) -> Option<real>): seq<Float>
  {
    if locs == [] then []
    else
      var a := oracle(i, locs[|locs| - 1]);
      Values(i, locs[..|locs| - 1], oracle) + [if a.Some? then Num(a.value) else NaN]
  }

  /** The index of the first location without a value, if any. */
  function FirstFailure(i: Interpolant, locs: seq<Loc>, oracle: (Interpolant, Loc) -> Option<real>): (r: Option<nat>)
    ensures r.Some? ==> r.value < |locs|
  {
    if locs == [] then None
    else match FirstFailure(i, locs[..|locs| - 1], oracle)
      case Some(k) => Some(k)
      case None => if oracle(i, locs[|locs| - 1]).None? then Some(|locs| - 1) else None
  }

  /** A failure in a prefix of the locations is the first failure of them all. */
  lemma {:induction false} FirstFailureStops(i: Interpolant, locs: seq<Loc>, oracle: (Interpolant, Loc) -> Option<real>, n: nat)
    requires n <= |locs| && FirstFailure(i, locs[..n], oracle).Some?
    ensures FirstFailure(i, locs, oracle) == FirstFailure(i, locs[..n], oracle)
    decreases |locs| - n
  {
    if n < |locs| {
      assert locs[..|locs| - 1][..n] == locs[..n];
      FirstFailureStops(i, locs[..|locs| - 1], oracle, n);
    } else {
      assert locs[..n] == locs;
    }
  }

  /**
   * `interpolate(interpolant, locations, strict)`: a malformed interpolant
   * raises before any location is looked at; otherwise a non-strict call
   * returns one entry per location, and a strict one the same entries when
   * every location has a value, or else the exception of the first location
   * that has none.
   */
  method Interpolate(params: map<string, PyValue>, locations: seq<Loc>, strict: bool, prec: nat,
                     oracle: (Interpolant, Loc) -> Option<real>) returns (r: Result<seq<Float>, PyErr>)
    ensures ParseInterpolant(params).Err? ==> r == Err(ParseInterpolant(params).error)
    ensures ParseInterpolant(params).Ok? ==>
      var i := ParseInterpolant(params).value;
      if strict && FirstFailure(i, locations, oracle).Some? then
        r == Err(Exception(FailureMessage(i, locations[FirstFailure(i, locations, oracle).value], prec)))
      else r == Ok(Values(i, locations, oracle))
  {
    var parsed := ParseInterpolant(params);
    if parsed.Err? {
      return Err(parsed.error);
    }
    var i := parsed.value;
    var re: seq<Float> := [];
    var k := 0;
    while k < |locations|
      invariant 0 <= k <= |locations|
      invariant re == Values(i, locations[..k], oracle)
      invariant strict ==> FirstFailure(i, locations[..k], oracle) == None
    {
      assert locations[..k + 1][..k] == locations[..k];
      var a := oracle(i, locations[k]);
      if a.Some? {
        re := re + [Num(a.value)];
      } else if strict {
        FirstFailureStops(i, locations, oracle, k + 1);
        return Err(Exception(FailureMessage(i, locations[k], prec)));
      } else {
        re := re + [NaN];
      }
      k := k + 1;
    }
    assert locations[..|locations|] == locations;
    r := Ok(re);
  }

  // ---------------------------------------------------------------------------
  // What the result holds
  // ---------------------------------------------------------------------------

  /** One entry per location, in order: the value there, or NaN exactly where there is none. */
  lemma {:induction false} ValuesPointwise(i: Interpolant, locs: seq<Loc>, oracle: (Interpolant, Loc) -> Option<real>)
    ensures |Values(i, locs, oracle)| == |locs|
    ensures forall k :: 0 <= k < |locs| ==>
      (Values(i, locs, oracle)[k].NaN? <==> oracle(i, locs[k]).None?)
      && (oracle(i, locs[k]).Some? ==> Values(i, locs, oracle)[k] == Num(oracle(i, locs[k]).value))
  {
    if locs != [] {
      var init := locs[..|locs| - 1];
      ValuesPointwise(i, init, oracle);
      assert forall k :: 0 <= k < |init| ==> init[k] == locs[k];
    }
  }

  /** The first failure is a location without a value, and every location before it has one. */
  lemma {:induction false} FirstFailureIsFirst(i: Interpolant, locs: seq<Loc>, oracle: (Interpolant, Loc) -> Option<real>)
    ensures FirstFailure(i, locs, oracle).None? <==> forall k :: 0 <= k < |locs| ==> oracle(i, locs[k]).Some?
    ensures FirstFailure(i, locs, oracle).Some? ==>
      var f := FirstFailure(i, locs, oracle).value;
      oracle(i, locs[f]).None? && forall k :: 0 <= k < f ==> oracle(i, locs[k]).Some?
  {
    if locs != [] {
      var init := locs[..|locs| - 1];
      FirstFailureIsFirst(i, init, oracle);
      assert forall k :: 0 <= k < |init| ==> init[k] == locs[k];
    }
  }

  /** A strict call that succeeds returns what a non-strict one does, and no NaN. */
  lemma StrictSuccessHasNoNaN(i: Interpolant, locs: seq<Loc>, oracle: (Interpolant, Loc) -> Option<real>)
    requires FirstFailure(i, locs, oracle).None?
    ensures forall k :: 0 <= k < |Values(i, locs, oracle)| ==> Values(i, locs, oracle)[k].Num?
  {
    FirstFailureIsFirst(i, locs, oracle);
    ValuesPointwise(i, locs, oracle);
  }

  /**
   * The exception message names the location: its two coordinates, which
   * contain no comma, read back as the location's x and y.
   */
  lemma FailureMessageNamesLocation(i: Interpolant, loc: Loc, prec: nat)
    ensures var sx := DisplayDecimal(loc.x, prec);
      var sy := DisplayDecimal(loc.y, prec);
      FailureMessage(i, loc, prec)
        == "(" + sx + ", " + sy + ")" + (if i.IDW? then " no points in search radius" else " is outside the convex hull")
      && ',' !in sx && ParseDecimal(sx, prec) == Some(loc.x) && ParseDecimal(sy, prec) == Some(loc.y)
  {
    DisplayRoundTrip(loc.x, prec);
    DisplayRoundTrip(loc.y, prec);
    DisplayHasNoComma(loc.x, prec);
  }
}
