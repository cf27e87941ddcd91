/** JSON values as `JSON.parse` hands them to the converters, and the two
    pieces of JavaScript's object model the converters rely on: `typeof`
    and `Object.entries`. */
module JsonValue {

  /** A parsed JSON value. A number keeps only what the converters ask of
      it, whether it is mathematically an integer (`Number.isInteger`).
      An object keeps its properties in the order `Object.entries` lists
      them. */
  datatype Json =
    | Null
    | Bool(b: bool)
    | Num(isInteger: bool)
    | Str(s: string)
    | Arr(items: seq<Json>)
    | Obj(members: seq<(string, Json)>)

  /** What the converters are handed: `JSON.parse` either produced a value
      or threw an exception whose string conversion (`${e}`) is kept. */
  datatype ParseOutcome = Parsed(value: Json) | ParseFailed(errorText: string)

  /** `typeof v === 'object'`, which holds for null as well. */
  predicate IsTypeofObject(v: Json) {
    v.Null? || v.Arr? || v.Obj?
  }

  /** `typeof v === 'object' && v !== null`: an array or an object, the
      values `Object.entries` lists properties of. */
  predicate IsCompound(v: Json) {
    v.Arr? || v.Obj?
  }

  function Digit(d: nat): char
    requires d < 10
  {
    "0123456789"[d]
  }

  /** The property name JavaScript gives the array index `n`: its decimal
      spelling. */
  function IndexKey(n: nat): (r: string)
    ensures |r| > 0
    ensures forall j :: 0 <= j < |r| ==> '0' <= r[j] <= '9'
    ensures n < 10 <==> |r| == 1
  {
    if n < 10 then [Digit(n)] else IndexKey(n / 10) + [Digit(n % 10)]
  }

  /** `Object.entries(v)`: the properties of an object in order, or the
      index/element pairs of an array. */
  function Entries(v: Json): seq<(string, Json)>
    requires IsCompound(v)
  {
    if v.Obj? then v.members
    else seq(|v.items|, i requires 0 <= i < |v.items| => (IndexKey(i), v.items[i]))
  }
}
