/** JSON values as `json.loads` builds them: objects keep insertion order and hold each key once. */
module Json {
  import opened Common

  datatype Json =
    | Null
    | Bool(flag: bool)
    | Int(number: int)
    | Float(double: Double)
    | Str(text: string)
    | List(items: seq<Json>)
    | Obj(fields: seq<Field>)

  datatype Field = Field(key: string, value: Json)

  /** A double: `mantissa * 2^exponent`, or one of the values `json` reads and writes besides. */
  datatype Double = Finite(mantissa: int, exponent: int) | NegativeZero | Infinite(negative: bool) | NotANumber

  function Pow2(n: nat): nat
  {
    if n == 0 then 1 else 2 * Pow2(n - 1)
  }

  function Abs(n: int): nat
  {
    if n < 0 then -n else n
  }

  /** Each double once: an odd mantissa of at most 53 bits, inside the exponent range of IEEE 754 binary64. */
  predicate Canonical(d: Double)
  {
    d.Finite? ==>
      || (d.mantissa == 0 && d.exponent == 0)
      || (d.mantissa % 2 == 1 && Abs(d.mantissa) < 0x20_0000_0000_0000 && -1074 <= d.exponent <= 1023
          && (d.exponent > 971 ==> Abs(d.mantissa) < Pow2(1024 - d.exponent)))
  }

  /** `d < n`; a NaN is below nothing. */
  predicate Below(d: Double, n: int)
  {
    match d
    case Finite(m, e) => if e >= 0 then m * Pow2(e) < n else m < n * Pow2(-e)
    case NegativeZero => 0 < n
    case Infinite(negative) => negative
    case NotANumber => false
  }

  predicate UniqueKeys(fields: seq<Field>)
  {
    forall i, j :: 0 <= i < j < |fields| ==> fields[i].key != fields[j].key
  }

  predicate WellFormed(v: Json)
  {
    match v
    case Obj(fields) => UniqueKeys(fields) && forall f <- fields :: WellFormed(f.value)
    case List(items) => forall item <- items :: WellFormed(item)
    case Float(double) => Canonical(double)
    case _ => true
  }

  /** `value.get(key)` */
  function Get(fields: seq<Field>, key: string): (r: Option<Json>)
    ensures r.Some? ==> Field(key, r.value) in fields
    ensures r.None? ==> forall f <- fields :: f.key != key
  {
    if fields == [] then None
    else if fields[0].key == key then Some(fields[0].value)
    else Get(fields[1..], key)
  }

  lemma {:induction false} GetAt(fields: seq<Field>, i: nat)
    requires UniqueKeys(fields) && i < |fields|
    ensures Get(fields, fields[i].key) == Some(fields[i].value)
  {
    if i > 0 {
      GetAt(fields[1..], i - 1);
    }
  }

  /** `out[key] = value` on an ordered dict: in place when the key is there, otherwise at the end. */
  function Put(fields: seq<Field>, key: string, value: Json): (after: seq<Field>)
    ensures |fields| <= |after| <= |fields| + 1
    ensures forall i :: 0 <= i < |fields| && fields[i].key != key ==> after[i] == fields[i]
    ensures forall i :: 0 <= i < |fields| && fields[i].key == key && UniqueKeys(fields) ==>
              after[i] == Field(key, value) && |after| == |fields|
    ensures (forall f <- fields :: f.key != key) ==> after == fields + [Field(key, value)]
    ensures forall f <- after :: f in fields || f == Field(key, value)
  {
    if fields == [] then [Field(key, value)]
    else if fields[0].key == key then [Field(key, value)] + fields[1..]
    else [fields[0]] + Put(fields[1..], key, value)
  }

  lemma {:induction false} GetAfterPut(fields: seq<Field>, key: string, value: Json, other: string)
    ensures Get(Put(fields, key, value), other) == if other == key then Some(value) else Get(fields, other)
  {
    if fields == [] {
      assert Put(fields, key, value)[1..] == [];
    } else if fields[0].key != key {
      assert Put(fields, key, value)[1..] == Put(fields[1..], key, value);
      GetAfterPut(fields[1..], key, value, other);
    } else {
      assert Put(fields, key, value)[1..] == fields[1..];
    }
  }

  lemma UniqueAfterPut(fields: seq<Field>, key: string, value: Json)
    requires UniqueKeys(fields)
    ensures UniqueKeys(Put(fields, key, value))
  {
    var after := Put(fields, key, value);
    if exists i :: 0 <= i < |fields| && fields[i].key == key {
      assert forall i :: 0 <= i < |fields| ==> after[i].key == fields[i].key;
    }
  }

  datatype Step = Key(name: string) | Index(i: nat)

  /** Walking down a value along keys and list positions. */
  function Lookup(v: Json, path: seq<Step>): Option<Json>
    decreases |path|
  {
    if path == [] then Some(v)
    else
      match path[0]
      case Key(name) =>
        var child := if v.Obj? then Get(v.fields, name) else None;
        if child.None? then None else Lookup(child.value, path[1..])
      case Index(i) =>
        if v.List? && i < |v.items| then Lookup(v.items[i], path[1..]) else None
  }

  /** A JSON parser and printer. `json.loads` and `json.dumps` are taken as any pair that agrees with itself. */
  datatype Codec = Codec(parse: string -> Option<Json>, print_: Json -> string)
  {
    ghost predicate Faithful()
    {
      && (forall v :: WellFormed(v) ==> parse(print_(v)) == Some(v))
      && (forall text :: parse(text).Some? ==> WellFormed(parse(text).value))
      && (forall v :: PrintsOnOneLine(print_(v)))
      && (forall fields :: print_(Obj(fields))[0] == '{')
      && parse("[DONE]") == None
    }
  }

  /** Printed values hold no raw line break and start with neither a blank nor nothing. */
  predicate PrintsOnOneLine(text: string)
  {
    text != "" && '!' <= text[0] <= '~' && '\r' !in text && '\n' !in text
  }
}
