/**
 * JavaScript values as the bridge sees them, the nullish test and the fixed
 * fatal-error document that every unrecoverable request or response failure
 * is reported as.
 */
module Common {
  import opened Options
  import opened Records

  /** Stands for the engine's message when a non-function is called or a property of `undefined` is read. */
  const TypeErrorMessage: string := "TypeError"

  /** A JavaScript value (numbers are integers here). */
  datatype Value =
    | Undefined
    | Null
    | Bool(b: bool)
    | Num(n: int)
    | Str(s: string)
    | Arr(items: seq<Value>)
    | Obj(fields: Record<Value>)
    | Func(name: string)

  /** `value == null`: true of `null` and `undefined` only. */
  predicate IsNil(v: Value): (r: bool)
    ensures r ==> !Truthy(v)
  {
    v.Undefined? || v.Null?
  }

  /** JavaScript truthiness. */
  predicate Truthy(v: Value) {
    match v
    case Undefined => false
    case Null => false
    case Bool(b) => b
    case Num(n) => n != 0
    case Str(s) => s != ""
    case _ => true
  }

  /** Only the two nullish values are nil: `0` and `''` are falsy but not nil. */
  lemma IsNilExamples()
    ensures IsNil(Null) && IsNil(Undefined)
    ensures !IsNil(Num(0)) && !IsNil(Str("")) && !IsNil(Bool(false))
    ensures !Truthy(Num(0)) && !Truthy(Str(""))
  {
  }

  /**
   * `v.key` on a non-nil value: an own property of an object, the `length` of an
   * array or string, `undefined` otherwise.
   */
  function Prop(v: Value, key: string): (r: Value)
    requires !IsNil(v)
    ensures v.Obj? ==> (r == Undefined <==> Lookup(v.fields, key).None? || Lookup(v.fields, key) == Some(Undefined))
    ensures !v.Obj? && key != "length" ==> r == Undefined
  {
    match v
    case Obj(fields) => Lookup(fields, key).GetOr(Undefined)
    case Arr(items) => if key == "length" then Num(|items|) else Undefined
    case Str(s) => if key == "length" then Num(|s|) else Undefined
    case _ => Undefined
  }

  /** `typeof v === 'object'` (which includes `null` and arrays). */
  predicate IsObjectType(v: Value) {
    v.Obj? || v.Arr? || v.Null?
  }

  /** Decimal rendering of an array index, as `for-in` yields it. */
  function IndexKey(i: nat): (s: string)
    ensures |s| >= 1
    decreases i
  {
    var d := ["0123456789"[i % 10]];
    if i < 10 then d else IndexKey(i / 10) + d
  }

  /**
   * The key/value pairs `for (k in v)` visits together with `v[k]`: an object's
   * entries, an array's indexes, a string's character positions; nothing for
   * other values (`null` and `undefined` included).
   */
  function ForInEntries(v: Value): (es: Record<Value>)
    ensures v.Obj? ==> es == v.fields
    ensures v.Arr? ==> |es| == |v.items| && forall i :: 0 <= i < |es| ==> es[i] == (IndexKey(i), v.items[i])
    ensures !v.Obj? && !v.Arr? && !v.Str? ==> es == []
  {
    match v
    case Obj(fields) => fields
    case Arr(items) => seq(|items|, i requires 0 <= i < |items| => (IndexKey(i), items[i]))
    case Str(s) => seq(|s|, i requires 0 <= i < |s| => (IndexKey(i), Str([s[i]])))
    case _ => []
  }

  /** One entry of the `errors` array of the fatal-error document. */
  datatype ErrorEntry = ErrorEntry(
    kind: string,
    component: string,
    severity: string,
    message: string,
    formattedMessage: string)

  /** `{errors: [...]}` as produced by `formatFatalError` (before `JSON.stringify`). */
  datatype FatalError = FatalError(errors: seq<ErrorEntry>)

  const FormattedPrefix: string := "Error: "

  /** formatFatalError: exactly one JSON error from component `solcjs` carrying `message`. */
  function FormatFatalError(message: string): (doc: FatalError)
    ensures |doc.errors| == 1
    ensures doc.errors[0].kind == "JSONError"
    ensures doc.errors[0].component == "solcjs"
    ensures doc.errors[0].severity == "error"
    ensures MessageOf(doc) == Some(message)
  {
    FatalError([ErrorEntry("JSONError", "solcjs", "error", message, FormattedPrefix + message)])
  }

  /**
   * Reads the message back out of a fatal-error document's formatted message,
   * when the document has one error whose formatted message carries the prefix.
   */
  function MessageOf(doc: FatalError): Option<string> {
    if |doc.errors| == 1
       && |doc.errors[0].formattedMessage| >= |FormattedPrefix|
       && doc.errors[0].formattedMessage[..|FormattedPrefix|] == FormattedPrefix
    then Some(doc.errors[0].formattedMessage[|FormattedPrefix|..])
    else None
  }

  /** Distinct messages give distinct documents, and `message` is the formatted message minus `Error: `. */
  lemma FatalErrorInjective(m1: string, m2: string)
    ensures FormatFatalError(m1) == FormatFatalError(m2) <==> m1 == m2
    ensures FormatFatalError(m1).errors[0].message == m1
  {
    if FormatFatalError(m1) == FormatFatalError(m2) {
      assert MessageOf(FormatFatalError(m1)) == Some(m1);
    }
  }
}
