/**
 * The loosely typed values that reach the quiz code from request bodies:
 * answer ids, selected option ids, and the fields of a question payload.
 * Only the two coercions the code applies to them are modelled,
 * `String(x)` (ToJsString) and `Boolean(x)` (Truthy).
 */
module JsValues {

  /** A JSON scalar. Numbers are integers here; fractions and NaN are not modelled. */
  datatype JsValue = Str(s: string) | Num(n: int) | Bool(b: bool) | Null | Undefined

  function DigitChar(d: nat): (c: char)
    requires d < 10
    ensures '0' <= c <= '9'
  {
    "0123456789"[d]
  }

  /** Decimal notation of a natural number, most significant digit first. */
  function DecimalString(n: nat): (r: string)
    ensures |r| > 0
    ensures forall i :: 0 <= i < |r| ==> '0' <= r[i] <= '9'
  {
    if n < 10 then [DigitChar(n)] else DecimalString(n / 10) + [DigitChar(n % 10)]
  }

  /**
   * `String(v)`: the canonical string form used for every id comparison.
   * Only the empty string has an empty form, and a number's form starts with
   * a digit or a minus sign.
   */
  function ToJsString(v: JsValue): (r: string)
    ensures r == "" <==> v == Str("")
    ensures v.Num? ==> r[0] == '-' || '0' <= r[0] <= '9'
  {
    match v
    case Str(s) => s
    case Num(n) => if n < 0 then "-" + DecimalString(-n) else DecimalString(n)
    case Bool(b) => if b then "true" else "false"
    case Null => "null"
    case Undefined => "undefined"
  }

  /** `Boolean(v)`: JavaScript truthiness; among the modelled values exactly five are falsy. */
  function Truthy(v: JsValue): (r: bool)
    ensures !r <==> v in {Str(""), Num(0), Bool(false), Null, Undefined}
  {
    match v
    case Str(s) => s != ""
    case Num(n) => n != 0
    case Bool(b) => b
    case Null => false
    case Undefined => false
  }

  /**
   * Only a string can have a string form that starts with a letter other than
   * those of "true", "false", "null" and "undefined": numbers start with a digit
   * or '-'. So, among the modelled values, an answer can only name a generated
   * "opt-" id with a string.
   */
  lemma OnlyStringsMatchPrefixedIds(v: JsValue, rid: string)
    requires ToJsString(v) == "opt-" + rid
    ensures v == Str("opt-" + rid)
  {
    assert ToJsString(v)[0] == 'o';
  }

  /** On booleans, `Boolean(v)` and the strict test `v === true` agree; elsewhere they need not. */
  lemma TruthyAgreesWithStrictTrueOnBooleans(v: JsValue)
    ensures v.Bool? ==> (Truthy(v) <==> v == Bool(true))
    ensures Truthy(Str("yes")) && Str("yes") != Bool(true)
  {
  }
}
