/** JavaScript values as they reach the gateway after `JSON.parse`, with the
    three pieces of JavaScript semantics the core relies on: truthiness,
    property read and write on plain objects, and `String(v)` as template
    literals apply it. */
module JsValues {
  import opened Strings

  datatype Option<T> = None | Some(value: T)

  /** A JSON value. Numbers are integral (see README). An object is the ordered
      list of its own properties, in `Object.keys` order. */
  datatype JsValue =
    | Undefined
    | Null
    | Bool(b: bool)
    | Num(n: int)
    | Str(s: string)
    | Arr(items: seq<JsValue>)
    | Obj(fields: seq<(string, JsValue)>)

  /** A plain object: its properties in `Object.keys` order. */
  type Record = seq<(string, JsValue)>

  /** JavaScript truthiness: `undefined`, `null`, `false`, `0` and `''` are falsy. */
  predicate Truthy(v: JsValue)
  {
    match v
    case Undefined => false
    case Null => false
    case Bool(b) => b
    case Num(n) => n != 0
    case Str(s) => s != ""
    case Arr(_) => true
    case Obj(_) => true
  }

  /** `Object.keys(r)`. */
  function Keys(r: Record): (ks: seq<string>)
    ensures |ks| == |r|
    ensures forall i {:trigger ks[i]} :: 0 <= i < |r| ==> ks[i] == r[i].0
  {
    if r == [] then [] else [r[0].0] + Keys(r[1..])
  }

  /** Property names are distinct in a JavaScript object. */
  predicate DistinctKeys(r: Record)
  {
    forall i, j :: 0 <= i < j < |r| ==> r[i].0 != r[j].0
  }

  /** `r[k]`: the value of property `k`, `undefined` when there is none. */
  function Get(r: Record, k: string): JsValue
  {
    if r == [] then Undefined
    else if r[0].0 == k then r[0].1
    else Get(r[1..], k)
  }

  /** With distinct property names, reading a property by its name gives the
      value stored at its position. */
  lemma {:induction false} GetAtPosition(r: Record, i: nat)
    requires DistinctKeys(r) && i < |r|
    ensures Get(r, r[i].0) == r[i].1
  {
    if i > 0 {
      assert r[0].0 != r[i].0;
      assert DistinctKeys(r[1..]) by {
        forall a, b | 0 <= a < b < |r[1..]|
          ensures r[1..][a].0 != r[1..][b].0
        {
          assert r[1..][a] == r[a + 1] && r[1..][b] == r[b + 1];
        }
      }
      GetAtPosition(r[1..], i - 1);
      assert r[1..][i - 1] == r[i];
    }
  }

  /** `r[k] = v`: an existing property keeps its place, a new one is appended. */
  function Set(r: Record, k: string, v: JsValue): (r': Record)
    ensures Get(r', k) == v
    ensures forall k' :: k' != k ==> Get(r', k') == Get(r, k')
    ensures k in Keys(r) ==> Keys(r') == Keys(r)
    ensures k !in Keys(r) ==> Keys(r') == Keys(r) + [k]
  {
    if r == [] then [(k, v)]
    else if r[0].0 == k then [(k, v)] + r[1..]
    else [r[0]] + Set(r[1..], k, v)
  }

  /** `v[k]` for any value: only objects have the properties the gateway reads. */
  function Prop(v: JsValue, k: string): JsValue
  {
    if v.Obj? then Get(v.fields, k) else Undefined
  }

  /** `String(v)`, which is what `${v}` inserts into a template literal.
      Array elements that are `null` or `undefined` print as empty strings.
      A number prints as plain decimal, which is JavaScript's rendering only
      for magnitudes below 10^21 (from there on JavaScript uses exponent form,
      `1e+21`). */
  function Display(v: JsValue): string
  {
    match v
    case Undefined => "undefined"
    case Null => "null"
    case Bool(b) => if b then "true" else "false"
    case Num(n) => IntToString(n)
    case Str(s) => s
    case Arr(items) =>
      Join(seq(|items|, i requires 0 <= i < |items| =>
                 if items[i].Undefined? || items[i].Null? then "" else Display(items[i])), ",")
    case Obj(_) => "[object Object]"
  }
}
