/**
 * The Python side of the binding: the values a caller passes in, the
 * exceptions the binding raises, and PyO3's conversion of a Python value
 * to the Rust type the binding asks for (`extract`).
 */
module PyValues {
  import opened Outcomes
  import opened Decimal

  /** A Python exception, with its message where the binding writes one. */
  datatype PyErr =
    | TypeError                 // a value of the wrong Python type (PyO3's own message)
    | OverflowError             // an int outside the target integer type (PyO3's own message)
    | ValueError(msg: string)
    | IndexError(msg: string)
    | AttributeError(msg: string)
    | Exception(msg: string)

  /**
   * A Python value. `PyInt` is unbounded like Python's int; `PyBool` is a
   * separate case although Python's bool is a subclass of int; `PyFloat`
   * holds a finite float as an exact real. `PyNumber` is an object of any
   * other class that converts itself to a number (a numpy scalar, a
   * `Decimal`, a `Fraction`): `index` is what its `__index__` returns and
   * `float` what its `__float__` returns, `None` where it has no such method.
   */
  datatype PyValue =
    | PyNone
    | PyBool(b: bool)
    | PyInt(i: int)
    | PyFloat(f: real)
    | PyNumber(index: Option<int>, float: Option<real>)
    | PyStr(s: string)
    | PyTuple(items: seq<PyValue>)
    | PyOther

  const U64Max: int := 0xFFFF_FFFF_FFFF_FFFF

  function BoolToInt(b: bool): int { if b then 1 else 0 }

  function Pow2(n: nat): nat
  {
    if n == 0 then 1 else 2 * Pow2(n - 1)
  }

  /**
   * The least int that `int.__float__` refuses: 2^1024 - 2^970, halfway
   * between the largest finite f64 and 2^1024, rounds up to infinity.
   */
  const F64IntLimit: int := Pow2(1024) - Pow2(970)

  /** What a value's own `__float__` returns: a float itself, or a number object defining it. */
  function FloatValue(v: PyValue): Option<real>
  {
    match v
    case PyFloat(f) => Some(f)
    case PyNumber(_, float) => float
    case _ => None
  }

  /**
   * `extract::<f64>()`, which is `PyFloat_AsDouble`: a float or an object
   * with its own `__float__` gives that value; otherwise an int, a bool or
   * an object with `__index__` is converted through its integer value, and
   * an integer too large for an f64 raises OverflowError; anything else is
   * a TypeError.
   */
  function ExtractF64(v: PyValue): (r: Result<real, PyErr>)
    ensures r.Ok? <==> (FloatValue(v).Some?
      || (IndexValue(v).Some? && -F64IntLimit < IndexValue(v).value < F64IntLimit))
    ensures FloatValue(v).Some? ==> r == Ok(FloatValue(v).value)
    ensures FloatValue(v).None? && r.Ok? ==> r.value == IndexValue(v).value as real
    ensures r.Err? ==> (r.error == OverflowError <==> IndexValue(v).Some?)
    ensures r.Err? && r.error != OverflowError ==> r.error == TypeError
  {
    match FloatValue(v)
    case Some(f) => Ok(f)
    case None =>
      match IndexValue(v)
      case None => Err(TypeError)
      case Some(i) => if -F64IntLimit < i < F64IntLimit then Ok(i as real) else Err(OverflowError)
  }

  /** The integer a value stands for under `__index__`: ints, bools and objects defining it. */
  function IndexValue(v: PyValue): Option<int>
  {
    match v
    case PyInt(i) => Some(i)
    case PyBool(b) => Some(BoolToInt(b))
    case PyNumber(index, _) => index
    case _ => None
  }

  /** `extract::<i64>()`, through `__index__`: in the i64 range; a float is a TypeError. */
  function ExtractI64(v: PyValue): (r: Result<int, PyErr>)
    ensures r.Ok? <==> IndexValue(v).Some? && InI64(IndexValue(v).value)
    ensures r.Ok? ==> r.value == IndexValue(v).value
    ensures r.Err? ==> (r.error == OverflowError <==> IndexValue(v).Some?)
    ensures r.Err? && r.error != OverflowError ==> r.error == TypeError
  {
    match IndexValue(v)
    case None => Err(TypeError)
    case Some(i) => if InI64(i) then Ok(i) else Err(OverflowError)
  }

  /** `extract::<u64>()`, through `__index__`: in 0 ..= 2^64 - 1; a negative value overflows. */
  function ExtractU64(v: PyValue): (r: Result<nat, PyErr>)
    ensures r.Ok? <==> IndexValue(v).Some? && 0 <= IndexValue(v).value <= U64Max
    ensures r.Ok? ==> r.value == IndexValue(v).value
    ensures r.Err? ==> (r.error == OverflowError <==> IndexValue(v).Some?)
    ensures r.Err? && r.error != OverflowError ==> r.error == TypeError
  {
    match IndexValue(v)
    case None => Err(TypeError)
    case Some(i) => if 0 <= i <= U64Max then Ok(i) else Err(OverflowError)
  }

  /** `extract::<bool>()`: only a Python bool (an int is not accepted). */
  function ExtractBool(v: PyValue): (r: Result<bool, PyErr>)
    ensures r.Ok? <==> v.PyBool?
    ensures r.Ok? ==> r.value == v.b
    ensures r.Err? ==> r.error == TypeError
  {
    if v.PyBool? then Ok(v.b) else Err(TypeError)
  }

  /** `extract::<String>()`: only a Python str. */
  function ExtractString(v: PyValue): (r: Result<string, PyErr>)
    ensures r.Ok? <==> v.PyStr?
    ensures r.Ok? ==> r.value == v.s
    ensures r.Err? ==> r.error == TypeError
  {
    if v.PyStr? then Ok(v.s) else Err(TypeError)
  }
}
