/**
 * Leaf scalars and the value coercer: an externally supplied, type-erased
 * scalar is converted to the semantic type of the field it is written to.
 * Floating-point values are modelled as exact reals.
 */
module Values {
  import opened Wrappers
  import opened Errors

  /** A primitive leaf value: int, double, bool or string. */
  datatype Scalar = IntV(i: int) | DoubleV(d: real) | BoolV(b: bool) | StrV(s: string)

  /** The destination type of a leaf field. */
  datatype Kind = KInt | KDouble | KBool | KString

  function KindOf(x: Scalar): Kind
  {
    match x
    case IntV(_) => KInt
    case DoubleV(_) => KDouble
    case BoolV(_) => KBool
    case StrV(_) => KString
  }

  predicate IsIntegral(d: real)
  {
    d.Floor as real == d
  }

  /** True when a raw value of this shape may be written to a leaf of kind k. */
  predicate Accepts(k: Kind, raw: Scalar)
  {
    match k
    case KInt => raw.IntV? || (raw.DoubleV? && IsIntegral(raw.d))
    case KDouble => raw.IntV? || raw.DoubleV?
    case KBool => raw.BoolV? || raw.IntV? || raw.DoubleV?
    case KString => raw.StrV?
  }

  /** The numeric value of a raw number, as a real. */
  function Numeric(raw: Scalar): real
    requires raw.IntV? || raw.DoubleV?
  {
    if raw.IntV? then raw.i as real else raw.d
  }

  /**
   * Converts raw to kind k: numbers are cast or widened, numbers written to
   * a bool are false exactly when zero, strings only go to strings.
   */
  function Coerce(raw: Scalar, k: Kind): (r: Result<Scalar, ModError>)
    ensures r.Ok? <==> Accepts(k, raw)
    ensures r.Ok? ==> KindOf(r.value) == k
    ensures r.Err? ==> r.error == Coercion
    ensures r.Ok? && k != KBool && k != KString ==> Numeric(r.value) == Numeric(raw)
    ensures r.Ok? && k == KBool && !raw.BoolV? ==> r.value.b == (Numeric(raw) != 0.0)
    ensures r.Ok? && KindOf(raw) == k ==> r.value == raw
  {
    match k
    case KInt =>
      if raw.IntV? then Ok(raw)
      else if raw.DoubleV? && IsIntegral(raw.d) then Ok(IntV(raw.d.Floor))
      else Err(Coercion)
    case KDouble =>
      if raw.IntV? then Ok(DoubleV(raw.i as real))
      else if raw.DoubleV? then Ok(raw)
      else Err(Coercion)
    case KBool =>
      if raw.BoolV? then Ok(raw)
      else if raw.IntV? then Ok(BoolV(raw.i != 0))
      else if raw.DoubleV? then Ok(BoolV(raw.d != 0.0))
      else Err(Coercion)
    case KString =>
      if raw.StrV? then Ok(raw) else Err(Coercion)
  }
}
