/** The dynamically typed values the handler reads from an event, from an
    HTTP response and from its own `extra` dictionary, with the few Python
    built-ins it applies to them: truthiness, dict.get, str(), float() and
    str.lower(). */
module PyValues {
  import opened Decimals

  /** A decoded JSON value, or a Decimal. A float is represented by a
      decimal of its value, in any scale; the digits it prints are FloatForm
      of it, and every float the model computes is in that form. */
  datatype PyValue =
    | PNone
    | PBool(b: bool)
    | PInt(i: int)
    | PFloat(f: Dec)
    | PDecimal(d: Dec)
    | PStr(s: string)
    | PList(items: seq<PyValue>)
    | PDict(entries: map<string, PyValue>)

  /** A computation that either yields a value or raises with a message. */
  datatype Result<+T> = Ok(value: T) | Err(message: string)

  /** Python's truth value: None, False, zero, and empty strings, lists and
      dicts are false. */
  predicate Truthy(v: PyValue)
    ensures !Truthy(v) <==>
              || v.PNone? || v == PBool(false) || v == PInt(0)
              || (v.PFloat? && SameValue(v.f, Dec(0, 0))) || (v.PDecimal? && SameValue(v.d, Dec(0, 0)))
              || v == PStr("") || v == PList([]) || v == PDict(map[])
  {
    match v
    case PNone => false
    case PBool(b) => b
    case PInt(i) => i != 0
    case PFloat(f) => f.digits != 0
    case PDecimal(d) => d.digits != 0
    case PStr(s) => s != ""
    case PList(items) => items != []
    case PDict(entries) => entries != map[]
  }

  function TypeName(v: PyValue): string
  {
    match v
    case PNone => "NoneType"
    case PBool(_) => "bool"
    case PInt(_) => "int"
    case PFloat(_) => "float"
    case PDecimal(_) => "decimal.Decimal"
    case PStr(_) => "str"
    case PList(_) => "list"
    case PDict(_) => "dict"
  }

  /** The AttributeError raised by calling .get on a value that is not a dict. */
  function NoGetError(v: PyValue): string
  {
    "'" + TypeName(v) + "' object has no attribute 'get'"
  }

  /** dict.get(key, default). */
  function Get(entries: map<string, PyValue>, key: string, default: PyValue): PyValue
  {
    if key in entries then entries[key] else default
  }

  /** str(v) for a value that is not a container: a number prints as its
      decimal text, beginning with a digit or a minus sign, a string is
      itself, and None and the booleans print as names that no number
      begins with. */
  function Str(v: PyValue): (s: string)
    requires !v.PList? && !v.PDict?
    ensures v.PInt? || v.PFloat? || v.PDecimal? ==> |s| > 0 && (IsDigit(s[0]) || s[0] == '-')
    ensures v.PNone? || v.PBool? ==> |s| > 0 && !IsDigit(s[0]) && s[0] != '-' && s[0] != '+' && s[0] != '.'
    ensures v.PStr? ==> s == v.s
  {
    match v
    case PNone => "None"
    case PBool(b) => if b then "True" else "False"
    case PInt(i) => DecText(Dec(i, 0))
    case PFloat(f) => DecText(FloatForm(f))
    case PDecimal(d) => DecText(d)
    case PStr(s) => s
  }

  /** The least magnitude of an int that float() rejects: 2^1024 - 2^970,
      the midpoint between the largest finite double and 2^1024, rounds
      to 2^1024 and so overflows. */
  const IntFloatLimit: nat := 179769313486231580793728971405303415079934132710037826936173778980444968292764750946649017977587207096330286416692887910946555547851940402630657488671505820681908902000708383676273854845817711531764475730270069855571366959622842914819860834936475292719074168444365510704342711559699508093042880177904174497792

  const IntTooLargeError := "int too large to convert to float"

  /** float(v): booleans, floats, Decimals and ints within the float range
      convert, a string converts when it is a decimal literal, anything else
      raises. A float keeps the value it was given, in float form. */
  function ToFloat(v: PyValue): (r: Result<Dec>)
    ensures r.Ok? ==> IsFloatForm(r.value)
    ensures r.Ok? <==> v.PBool? || (v.PInt? && Abs(v.i) < IntFloatLimit) || v.PFloat? || v.PDecimal?
                       || (v.PStr? && ParseDecimal(v.s).Some?)
    ensures v.PInt? && Abs(v.i) >= IntFloatLimit ==> r == Err(IntTooLargeError)
    ensures v.PBool? ==> SameValue(r.value, Dec(if v.b then 1 else 0, 0))
    ensures v.PInt? && r.Ok? ==> SameValue(r.value, Dec(v.i, 0))
    ensures v.PFloat? ==> SameValue(r.value, v.f)
    ensures v.PDecimal? ==> SameValue(r.value, v.d)
    ensures v.PStr? && r.Ok? ==> SameValue(r.value, ParseDecimal(v.s).value)
  {
    match v
    case PBool(b) => Ok(FloatForm(Dec(if b then 1 else 0, 0)))
    case PInt(i) => if Abs(i) < IntFloatLimit then Ok(FloatForm(Dec(i, 0))) else Err(IntTooLargeError)
    case PFloat(f) => Ok(FloatForm(f))
    case PDecimal(d) => Ok(FloatForm(d))
    case PStr(s) =>
      if ParseDecimal(s).Some? then Ok(FloatForm(ParseDecimal(s).value))
      else Err("could not convert string to float: '" + s + "'")
    case _ => Err("float() argument must be a string or a real number, not '" + TypeName(v) + "'")
  }

  /** float() of an int accepts exactly the magnitudes below IntFloatLimit. */
  lemma IntFloatBoundary()
    ensures ToFloat(PInt(IntFloatLimit)) == Err(IntTooLargeError)
    ensures ToFloat(PInt(-(IntFloatLimit as int))) == Err(IntTooLargeError)
    ensures ToFloat(PInt(IntFloatLimit - 1)).Ok?
  {
  }

  function LowerChar(c: char): char
  {
    if 'A' <= c <= 'Z' then (c as int - 'A' as int + 'a' as int) as char else c
  }

  /** str.lower() on the ASCII letters. */
  function Lower(s: string): (r: string)
    ensures |r| == |s|
    ensures forall i :: 0 <= i < |s| ==> r[i] == LowerChar(s[i])
  {
    if s == [] then [] else [LowerChar(s[0])] + Lower(s[1..])
  }
}
