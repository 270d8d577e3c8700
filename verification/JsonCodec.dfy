/**
 * A codec that agrees with itself exists: values written with numbers in unary and every part closed by its own mark.
 * It stands for nothing in the system; it shows that what the model asks of `json.loads` and `json.dumps` can be had.
 */
module JsonCodec {
  import opened Common
  import opened Json

  // Each writer puts its text in front of `more`.

  function NatTo(n: nat, more: string): string
  {
    if n == 0 then "0" + more else "1" + NatTo(n - 1, more)
  }

  function IntTo(n: int, more: string): string
  {
    if n < 0 then "-" + NatTo(-n, more) else NatTo(n, more)
  }

  function StrTo(text: string, more: string): string
  {
    if text == "" then "." + more else "," + NatTo(text[0] as int, StrTo(text[1..], more))
  }

  function DoubleTo(d: Double, more: string): string
  {
    match d
    case Finite(mantissa, exponent) => "e" + IntTo(mantissa, IntTo(exponent, more))
    case NegativeZero => "z" + more
    case Infinite(negative) => (if negative then "<" else ">") + more
    case NotANumber => "a" + more
  }

  function PrintTo(v: Json, more: string): string
    decreases v, 0
  {
    match v
    case Null => "n" + more
    case Bool(flag) => (if flag then "t" else "f") + more
    case Int(number) => "i" + IntTo(number, more)
    case Float(double) => "d" + DoubleTo(double, more)
    case Str(text) => "s" + StrTo(text, more)
    case List(items) => "[" + ItemsTo(items, more)
    case Obj(fields) => "{" + FieldsTo(fields, more)
  }

  function ItemsTo(items: seq<Json>, more: string): string
    decreases items, 1
  {
    if items == [] then "]" + more else "," + PrintTo(items[0], ItemsTo(items[1..], more))
  }

  function FieldsTo(fields: seq<Field>, more: string): string
    decreases fields, 1
  {
    if fields == [] then "}" + more
    else
      assert fields[0].value < fields[0];
      ":" + StrTo(fields[0].key, PrintTo(fields[0].value, FieldsTo(fields[1..], more)))
  }

  lemma Cut(a: char, x: string, b: char, y: string)
    requires [a] + x == [b] + y
    ensures a == b && x == y
  {
    assert ([a] + x)[0] == a && ([b] + y)[0] == b;
    assert ([a] + x)[1..] == x && ([b] + y)[1..] == y;
  }

  lemma {:induction false} NatReadsBack(n: nat, a: string, m: nat, b: string)
    requires NatTo(n, a) == NatTo(m, b)
    ensures n == m && a == b
  {
    var x := if n == 0 then a else NatTo(n - 1, a);
    var y := if m == 0 then b else NatTo(m - 1, b);
    Cut(if n == 0 then '0' else '1', x, if m == 0 then '0' else '1', y);
    if n > 0 { NatReadsBack(n - 1, a, m - 1, b); }
  }

  lemma NatStarts(n: nat, a: string)
    ensures NatTo(n, a) != "" && NatTo(n, a)[0] != '-'
  {}

  lemma IntReadsBack(n: int, a: string, m: int, b: string)
    requires IntTo(n, a) == IntTo(m, b)
    ensures n == m && a == b
  {
    if n >= 0 { NatStarts(n, a); }
    if m >= 0 { NatStarts(m, b); }
    if n < 0 {
      Cut('-', NatTo(-n, a), '-', NatTo(-m, b));
      NatReadsBack(-n, a, -m, b);
    } else {
      NatReadsBack(n, a, m, b);
    }
  }

  lemma {:induction false} StrReadsBack(s: string, a: string, t: string, b: string)
    requires StrTo(s, a) == StrTo(t, b)
    ensures s == t && a == b
  {
    var x := if s == "" then a else NatTo(s[0] as int, StrTo(s[1..], a));
    var y := if t == "" then b else NatTo(t[0] as int, StrTo(t[1..], b));
    Cut(if s == "" then '.' else ',', x, if t == "" then '.' else ',', y);
    if s != "" {
      NatReadsBack(s[0] as int, StrTo(s[1..], a), t[0] as int, StrTo(t[1..], b));
      StrReadsBack(s[1..], a, t[1..], b);
      assert s == [s[0]] + s[1..] && t == [t[0]] + t[1..];
    }
  }

  function DoubleTag(d: Double): char
  {
    match d
    case Finite(_, _) => 'e'
    case NegativeZero => 'z'
    case Infinite(negative) => if negative then '<' else '>'
    case NotANumber => 'a'
  }

  function DoubleRest(d: Double, more: string): string
  {
    if d.Finite? then IntTo(d.mantissa, IntTo(d.exponent, more)) else more
  }

  lemma DoubleReadsBack(d: Double, a: string, e: Double, b: string)
    requires DoubleTo(d, a) == DoubleTo(e, b)
    ensures d == e && a == b
  {
    hide IntTo;
    Cut(DoubleTag(d), DoubleRest(d, a), DoubleTag(e), DoubleRest(e, b));
    if d.Finite? {
      IntReadsBack(d.mantissa, IntTo(d.exponent, a), e.mantissa, IntTo(e.exponent, b));
      IntReadsBack(d.exponent, a, e.exponent, b);
    }
  }

  function Tag(v: Json): char
  {
    match v
    case Null => 'n'
    case Bool(flag) => if flag then 't' else 'f'
    case Int(_) => 'i'
    case Float(_) => 'd'
    case Str(_) => 's'
    case List(_) => '['
    case Obj(_) => '{'
  }

  function Rest(v: Json, more: string): string
  {
    match v
    case Null => more
    case Bool(_) => more
    case Int(number) => IntTo(number, more)
    case Float(double) => DoubleTo(double, more)
    case Str(text) => StrTo(text, more)
    case List(items) => ItemsTo(items, more)
    case Obj(fields) => FieldsTo(fields, more)
  }

  lemma TagAndRest(v: Json, more: string)
    ensures PrintTo(v, more) == [Tag(v)] + Rest(v, more)
  {}

  lemma {:induction false} ReadsBack(v: Json, a: string, w: Json, b: string)
    requires PrintTo(v, a) == PrintTo(w, b)
    ensures v == w && a == b
    decreases v, 0
  {
    TagAndRest(v, a);
    TagAndRest(w, b);
    hide PrintTo, IntTo, DoubleTo, StrTo, ItemsTo, FieldsTo;
    Cut(Tag(v), Rest(v, a), Tag(w), Rest(w, b));
    match v
    case Null =>
    case Bool(_) =>
    case Int(number) => IntReadsBack(number, a, w.number, b);
    case Float(double) => DoubleReadsBack(double, a, w.double, b);
    case Str(text) => StrReadsBack(text, a, w.text, b);
    case List(items) => ItemsReadBack(items, a, w.items, b);
    case Obj(fields) => FieldsReadBack(fields, a, w.fields, b);
  }

  lemma {:induction false} ItemsReadBack(v: seq<Json>, a: string, w: seq<Json>, b: string)
    requires ItemsTo(v, a) == ItemsTo(w, b)
    ensures v == w && a == b
    decreases v, 1
  {
    hide PrintTo;
    var x := if v == [] then a else PrintTo(v[0], ItemsTo(v[1..], a));
    var y := if w == [] then b else PrintTo(w[0], ItemsTo(w[1..], b));
    Cut(if v == [] then ']' else ',', x, if w == [] then ']' else ',', y);
    if v != [] {
      ReadsBack(v[0], ItemsTo(v[1..], a), w[0], ItemsTo(w[1..], b));
      ItemsReadBack(v[1..], a, w[1..], b);
      assert v == [v[0]] + v[1..] && w == [w[0]] + w[1..];
    }
  }

  lemma {:induction false} FieldsReadBack(v: seq<Field>, a: string, w: seq<Field>, b: string)
    requires FieldsTo(v, a) == FieldsTo(w, b)
    ensures v == w && a == b
    decreases v, 1
  {
    hide PrintTo, StrTo;
    var p := if v == [] then a else PrintTo(v[0].value, FieldsTo(v[1..], a));
    var q := if w == [] then b else PrintTo(w[0].value, FieldsTo(w[1..], b));
    Cut(if v == [] then '}' else ':', if v == [] then a else StrTo(v[0].key, p),
        if w == [] then '}' else ':', if w == [] then b else StrTo(w[0].key, q));
    if v != [] {
      assert v[0].value < v[0];
      StrReadsBack(v[0].key, p, w[0].key, q);
      ReadsBack(v[0].value, FieldsTo(v[1..], a), w[0].value, FieldsTo(w[1..], b));
      FieldsReadBack(v[1..], a, w[1..], b);
      assert v == [v[0]] + v[1..] && w == [w[0]] + w[1..];
    }
  }

  // No writer adds a line break.

  predicate Unbroken(text: string)
  {
    '\r' !in text && '\n' !in text
  }

  lemma {:induction false} NatUnbroken(n: nat, more: string)
    requires Unbroken(more)
    ensures Unbroken(NatTo(n, more))
  {
    if n > 0 { NatUnbroken(n - 1, more); }
  }

  lemma IntUnbroken(n: int, more: string)
    requires Unbroken(more)
    ensures Unbroken(IntTo(n, more))
  {
    NatUnbroken(if n < 0 then -n else n, more);
  }

  lemma {:induction false} StrUnbroken(text: string, more: string)
    requires Unbroken(more)
    ensures Unbroken(StrTo(text, more))
  {
    if text != "" {
      StrUnbroken(text[1..], more);
      NatUnbroken(text[0] as int, StrTo(text[1..], more));
    }
  }

  lemma DoubleUnbroken(d: Double, more: string)
    requires Unbroken(more)
    ensures Unbroken(DoubleTo(d, more))
  {
    if d.Finite? {
      IntUnbroken(d.exponent, more);
      IntUnbroken(d.mantissa, IntTo(d.exponent, more));
    }
  }

  lemma {:induction false} PrintUnbroken(v: Json, more: string)
    requires Unbroken(more)
    ensures Unbroken(PrintTo(v, more))
    decreases v, 0
  {
    match v
    case Int(number) => IntUnbroken(number, more);
    case Float(double) => DoubleUnbroken(double, more);
    case Str(text) => StrUnbroken(text, more);
    case List(items) => ItemsUnbroken(items, more);
    case Obj(fields) => FieldsUnbroken(fields, more);
    case _ =>
  }

  lemma {:induction false} ItemsUnbroken(items: seq<Json>, more: string)
    requires Unbroken(more)
    ensures Unbroken(ItemsTo(items, more))
    decreases items, 1
  {
    if items != [] {
      ItemsUnbroken(items[1..], more);
      PrintUnbroken(items[0], ItemsTo(items[1..], more));
    }
  }

  lemma {:induction false} FieldsUnbroken(fields: seq<Field>, more: string)
    requires Unbroken(more)
    ensures Unbroken(FieldsTo(fields, more))
    decreases fields, 1
  {
    if fields != [] {
      assert fields[0].value < fields[0];
      FieldsUnbroken(fields[1..], more);
      PrintUnbroken(fields[0].value, FieldsTo(fields[1..], more));
      StrUnbroken(fields[0].key, PrintTo(fields[0].value, FieldsTo(fields[1..], more)));
    }
  }

  ghost predicate Printed(text: string, v: Json)
  {
    WellFormed(v) && PrintTo(v, "") == text
  }

  /** The value a text was printed from. */
  ghost function Parse(text: string): (r: Option<Json>)
    ensures r.Some? ==> Printed(text, r.value)
    ensures r.None? ==> forall v :: !Printed(text, v)
  {
    if exists v :: Printed(text, v) then
      var v :| Printed(text, v);
      Some(v)
    else None
  }

  lemma ParsePrinted(v: Json)
    requires WellFormed(v)
    ensures Parse(PrintTo(v, "")) == Some(v)
  {
    assert Printed(PrintTo(v, ""), v);
    ReadsBack(v, "", Parse(PrintTo(v, "")).value, "");
  }

  lemma DoneIsNoValue()
    ensures Parse("[DONE]") == None
  {
    forall v ensures !Printed("[DONE]", v) {
      TagAndRest(v, "");
      assert PrintTo(v, "")[0] == Tag(v);
      if v.List? {
        assert PrintTo(v, "")[1] == ItemsTo(v.items, "")[0] != 'D';
      }
      assert "[DONE]"[0] == '[' && "[DONE]"[1] == 'D';
    }
  }

  lemma PrintLine(v: Json)
    ensures PrintsOnOneLine(PrintTo(v, "")) && (v.Obj? ==> PrintTo(v, "")[0] == '{')
  {
    PrintUnbroken(v, "");
    TagAndRest(v, "");
    hide PrintTo, Rest;
  }

  /** What the model asks of a codec can be met. */
  lemma FaithfulCodecExists()
    ensures exists codec: Codec :: codec.Faithful()
  {
    var codec := Codec((text: string) => Parse(text), (v: Json) => PrintTo(v, ""));
    forall v ensures WellFormed(v) ==> codec.parse(codec.print_(v)) == Some(v) {
      if WellFormed(v) { ParsePrinted(v); }
    }
    forall v ensures PrintsOnOneLine(codec.print_(v)) { PrintLine(v); }
    forall fields ensures codec.print_(Obj(fields)) != "" && codec.print_(Obj(fields))[0] == '{' {
      PrintLine(Obj(fields));
    }
    DoneIsNoValue();
    hide PrintTo, Parse;
    assert codec.Faithful();
  }
}
