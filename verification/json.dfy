/** JSON values as the controllers receive them in a parsed request body,
    together with the few JavaScript coercions the controllers rely on:
    truthiness, `Number.isInteger`, the loose comparison `v <= 0`, and
    property reads that throw on `null` and `undefined`. */
module Json {

  datatype Option<+T> = None | Some(value: T)

  /** A value read out of a request body. `Undefined` is an absent property
      (JSON itself has no such value). A number is either an integer (`JInt`)
      or a finite non-integer (`JNonInt`); for the latter only its sign is
      ever observed. Objects are maps because `JSON.parse` keeps the last of
      repeated keys. */
  datatype JValue =
    | Undefined
    | JNull
    | JBool(b: bool)
    | JInt(i: int)
    | JNonInt(negative: bool)
    | JStr(s: string)
    | JArr(elems: seq<JValue>)
    | JObj(fields: map<string, JValue>)

  /** JavaScript truthiness. */
  predicate Truthy(v: JValue)
    ensures !Truthy(v) <==>
      v == Undefined || v == JNull || v == JBool(false) || v == JInt(0) || v == JStr("")
  {
    match v
    case Undefined => false
    case JNull => false
    case JBool(b) => b
    case JInt(i) => i != 0
    case JNonInt(_) => true
    case JStr(s) => |s| != 0
    case JArr(_) => true
    case JObj(_) => true
  }

  /** `Number.isInteger(v)`: false for every value that is not a number. */
  predicate IsInteger(v: JValue) {
    v.JInt?
  }

  /** The type strict equality compares first: `typeof`, with `null` told
      apart from objects. Arrays are objects. */
  datatype JType = TUndefined | TNull | TBoolean | TNumber | TString | TObject

  function TypeOf(v: JValue): (t: JType)
    ensures t == TNumber <==> v.JInt? || v.JNonInt?
    ensures t == TString <==> v.JStr?
  {
    match v
    case Undefined => TUndefined
    case JNull => TNull
    case JBool(_) => TBoolean
    case JInt(_) => TNumber
    case JNonInt(_) => TNumber
    case JStr(_) => TString
    case JArr(_) => TObject
    case JObj(_) => TObject
  }

  /** `Number(s)` on a string: always a value of type number. A non-empty
      string of decimal digits gets its value; every other string (signs,
      exponents, blanks, NaN) gets the non-integer stand-in, which keeps
      only the type. */
  function NumberOf(s: string): (v: JValue)
    ensures TypeOf(v) == TNumber
    ensures |s| > 0 && (forall k | 0 <= k < |s| :: '0' <= s[k] <= '9') ==> v.JInt? && v.i >= 0
  {
    if |s| > 0 && forall k | 0 <= k < |s| :: '0' <= s[k] <= '9' then JInt(DecimalValue(s))
    else JNonInt(false)
  }

  function DecimalValue(s: string): nat
    requires forall k | 0 <= k < |s| :: '0' <= s[k] <= '9'
  {
    if |s| == 0 then 0
    else 10 * DecimalValue(s[..|s| - 1]) + (s[|s| - 1] as int - '0' as int)
  }

  /** `a === n` where `n` is a number: operands of different types are never
      strictly equal; two integers are equal when their values are. The
      non-integer stand-in is taken as equal to nothing (NaN is not even
      equal to itself). */
  predicate StrictEqualsNumber(a: JValue, n: JValue)
    requires TypeOf(n) == TNumber
    ensures StrictEqualsNumber(a, n) ==> TypeOf(a) == TNumber
  {
    a.JInt? && n.JInt? && a.i == n.i
  }

  /** The loose comparison `v <= 0`. `undefined` and plain objects coerce to
      NaN, so the comparison is false. The numeric coercion of strings and
      arrays is not modelled (it is taken as false); every caller combines
      this test with `IsInteger`, which rejects those values anyway. */
  predicate LooseLeqZero(v: JValue) {
    match v
    case JNull => true
    case JBool(b) => !b
    case JInt(i) => i <= 0
    case JNonInt(negative) => negative
    case _ => false
  }

  /** A strictly positive integer: what the price and quantity checks accept. */
  predicate PositiveInteger(v: JValue) {
    v.JInt? && v.i > 0
  }

  /** The value of own property `key` of `v`, `Undefined` when there is none.
      Keys used by the controllers are never inherited properties of
      strings, arrays or objects, so only plain objects have them. */
  function Field(v: JValue, key: string): JValue {
    if v.JObj? && key in v.fields then v.fields[key] else Undefined
  }

  /** The property read `v[key]`: `None` when it throws a TypeError, which it
      does exactly on `null` and `undefined`. */
  function Get(v: JValue, key: string): (r: Option<JValue>)
    ensures r.None? <==> v == Undefined || v == JNull
    ensures r.Some? ==> r.value == Field(v, key)
  {
    match v
    case Undefined => None
    case JNull => None
    case _ => Some(Field(v, key))
  }

  /** A destructuring default `= {}`: replaces `undefined`, and only it. */
  function OrEmpty(v: JValue): JValue {
    if v == Undefined then JObj(map[]) else v
  }

  /** The elements a `for (i = 0; i < v.length; i++)` loop visits on `v`:
      `None` when reading `v.length` throws. A string is visited one
      character string at a time; a number or boolean has no `length`, so
      the loop does not run. Objects are treated like that too (an object
      carrying its own numeric `length` key is not modelled). */
  function Elements(v: JValue): (r: Option<seq<JValue>>)
    ensures r.None? <==> v == Undefined || v == JNull
    ensures v.JArr? ==> r == Some(v.elems)
  {
    match v
    case Undefined => None
    case JNull => None
    case JArr(elems) => Some(elems)
    case JStr(s) => Some(seq(|s|, k requires 0 <= k < |s| => JStr([s[k]])))
    case _ => Some([])
  }
}
