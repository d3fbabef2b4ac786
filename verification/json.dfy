/**
 * The parsed JSON values the importer and the two remote replies deliver,
 * with the pieces of JavaScript semantics the dashboard relies on:
 * truthiness, property reads (which throw on `null`) and the text a value
 * becomes when it is written to a text column.
 */
module JsonValues {
  import opened Common

  /**
   * A value as `JSON.parse` returns it. Numbers are integers. An object's
   * fields are in `Object.keys` order; when a key repeats, the last binding
   * is the one `JSON.parse` keeps (see `Lookup`).
   */
  datatype Json =
    | Null
    | Bool(b: bool)
    | Num(n: int)
    | Str(s: string)
    | Arr(items: seq<Json>)
    | Obj(fields: seq<(string, Json)>)

  /** The result of reading `value.key` in JavaScript. */
  datatype Access = Missing | Found(value: Json) | TypeError

  /** JavaScript truthiness: `null`, `false`, `0` and `""` are falsy; arrays and objects are truthy. */
  predicate Truthy(j: Json) {
    match j
    case Null => false
    case Bool(b) => b
    case Num(n) => n != 0
    case Str(s) => s != []
    case Arr(_) => true
    case Obj(_) => true
  }

  /** Truthiness of a property read; `undefined` is falsy. */
  predicate Present(a: Access) {
    a.Found? && Truthy(a.value)
  }

  /** The value bound to `key`: the last binding, as in `JSON.parse`. */
  function Lookup(fields: seq<(string, Json)>, key: string): (r: Option<Json>)
    ensures r.Some? <==> exists k :: 0 <= k < |fields| && fields[k].0 == key
    ensures r.Some? ==> exists k :: 0 <= k < |fields| && fields[k] == (key, r.value)
  {
    if fields == [] then None
    else if fields[|fields| - 1].0 == key then Some(fields[|fields| - 1].1)
    else Lookup(fields[..|fields| - 1], key)
  }

  /**
   * `j.key`. Reading from `null` throws; reading a name that a number, a
   * boolean, a string or an array does not carry gives `undefined`. Only
   * names that are not properties of strings and arrays are ever read.
   */
  function Prop(j: Json, key: string): (a: Access)
    ensures a.TypeError? <==> j.Null?
    ensures j.Obj? ==> a == (if Lookup(j.fields, key).Some? then Found(Lookup(j.fields, key).value) else Missing)
  {
    match j
    case Null => TypeError
    case Obj(fields) => (match Lookup(fields, key) case Some(v) => Found(v) case None => Missing)
    case _ => Missing
  }

  /** Bindings added after `a` override those in `a`. */
  lemma {:induction false} LookupAppend(a: seq<(string, Json)>, b: seq<(string, Json)>, key: string)
    ensures Lookup(a + b, key) == if Lookup(b, key).Some? then Lookup(b, key) else Lookup(a, key)
    decreases |b|
  {
    if b == [] {
      assert a + b == a;
    } else {
      var last := |b| - 1;
      assert (a + b)[..|a + b| - 1] == a + b[..last];
      assert (a + b)[|a + b| - 1] == b[last];
      if b[last].0 != key {
        LookupAppend(a, b[..last], key);
      }
    }
  }

  function DigitChar(d: nat): char
    requires d < 10
  {
    "0123456789"[d]
  }

  /** Decimal text of a natural number. */
  function NatText(n: nat): (r: string)
    ensures r != [] && forall i :: 0 <= i < |r| ==> '0' <= r[i] <= '9'
  {
    if n < 10 then [DigitChar(n)] else NatText(n / 10) + [DigitChar(n % 10)]
  }

  /**
   * The JSON text of a value, the form in which a non-string list element
   * reaches a text column (string escapes are not modelled).
   */
  function Serialize(j: Json): string
    decreases j, 1
  {
    match j
    case Null => "null"
    case Bool(b) => if b then "true" else "false"
    case Num(n) => if n < 0 then "-" + NatText(-n) else NatText(n)
    case Str(s) => "\"" + s + "\""
    case Arr(items) => "[" + SerializeItems(j, 0) + "]"
    case Obj(fields) => "{" + SerializeFields(j, 0) + "}"
  }

  function SerializeItems(j: Json, from: nat): string
    requires j.Arr? && from <= |j.items|
    decreases j, 0, |j.items| - from
  {
    if from == |j.items| then ""
    else (if from == 0 then "" else ",") + Serialize(j.items[from]) + SerializeItems(j, from + 1)
  }

  function SerializeFields(j: Json, from: nat): string
    requires j.Obj? && from <= |j.fields|
    decreases j, 0, |j.fields| - from
  {
    if from == |j.fields| then ""
    else
      var field := j.fields[from];
      (if from == 0 then "" else ",") + "\"" + field.0 + "\":" + Serialize(field.1) + SerializeFields(j, from + 1)
  }

  /** The text stored for one element of an imported list: a string as it is, anything else as JSON text. */
  function ElementText(j: Json): (t: string)
    ensures j.Str? ==> t == j.s
  {
    if j.Str? then j.s else Serialize(j)
  }
}
