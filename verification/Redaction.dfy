/**
 * Structural redaction of captured bodies (`_redact` in agent_ingress.py): how deep and wide the output
 * can be, and exactly when redacting twice is redacting once.
 */
module Redaction {
  import opened Common
  import opened Json

  const MAX_DEPTH: nat := 8
  const MAX_ITEMS: nat := 50
  const ELLIPSIS := "\U{2026}"
  const REDACTED := Str("[redacted]")
  const DEPTH_LIMITED := Str("[depth-limited]")
  const ITEMS_LIMITED := Str("[items-limited]")

  /** Which keys name a credential and which strings look like one; the patterns themselves are not modelled. */
  datatype Policy = Policy(sensitive: string -> bool, secret: string -> bool)
  {
    /** The redactor's own marks are neither. */
    predicate SparesMarkers()
    {
      && !sensitive(ELLIPSIS)
      && !secret(REDACTED.text) && !secret(DEPTH_LIMITED.text) && !secret(ITEMS_LIMITED.text)
    }
  }

  function Min(a: nat, b: nat): nat { if a <= b then a else b }

  function RedactField(p: Policy, field: Field, depth: nat): Field
    decreases field, 0
  {
    Field(field.key, if p.sensitive(field.key) then REDACTED else Redact(p, field.value, depth + 1))
  }

  /** The entries inside the cut, each redacted under its own key. */
  function RedactFields(p: Policy, fields: seq<Field>, depth: nat): (after: seq<Field>)
    ensures |after| == Min(MAX_ITEMS, |fields|)
    ensures forall i :: 0 <= i < |after| ==> after[i] == RedactField(p, fields[i], depth)
    decreases fields, 1
  {
    seq(Min(MAX_ITEMS, |fields|), i requires 0 <= i < |fields| => RedactField(p, fields[i], depth))
  }

  function RedactItems(p: Policy, items: seq<Json>, depth: nat): (after: seq<Json>)
    ensures |after| == Min(MAX_ITEMS, |items|)
    ensures forall i :: 0 <= i < |after| ==> after[i] == Redact(p, items[i], depth + 1)
    decreases items, 1
  {
    seq(Min(MAX_ITEMS, |items|), i requires 0 <= i < |items| => Redact(p, items[i], depth + 1))
  }

  function Redact(p: Policy, v: Json, depth: nat := 0): Json
    decreases v, 2
  {
    if depth >= MAX_DEPTH then DEPTH_LIMITED
    else
      match v
      case Obj(fields) =>
        var kept := RedactFields(p, fields, depth);
        Obj(if |fields| > MAX_ITEMS then Put(kept, ELLIPSIS, ITEMS_LIMITED) else kept)
      case List(items) =>
        var kept := RedactItems(p, items, depth);
        List(if |items| > MAX_ITEMS then kept + [ITEMS_LIMITED] else kept)
      case Str(text) => if p.secret(text) then REDACTED else v
      case _ => v
  }

  /**
   * At most `levels` nested containers, at most 51 children in each, and nothing but the marker under a sensitive key.
   */
  predicate Bounded(p: Policy, v: Json, levels: nat)
    decreases v, 1
  {
    match v
    case Obj(fields) =>
      && levels > 0 && |fields| <= MAX_ITEMS + 1
      && forall f <- fields :: BoundedField(p, f, levels - 1)
    case List(items) =>
      && levels > 0 && |items| <= MAX_ITEMS + 1
      && forall item <- items :: Bounded(p, item, levels - 1)
    case _ => true
  }

  predicate BoundedField(p: Policy, f: Field, levels: nat)
    decreases f, 0
  {
    (p.sensitive(f.key) ==> f.value == REDACTED) && Bounded(p, f.value, levels)
  }

  lemma PutIsBounded(p: Policy, fields: seq<Field>, levels: nat)
    requires p.SparesMarkers() && |fields| <= MAX_ITEMS && forall f <- fields :: BoundedField(p, f, levels)
    ensures forall f <- Put(fields, ELLIPSIS, ITEMS_LIMITED) :: BoundedField(p, f, levels)
    ensures |Put(fields, ELLIPSIS, ITEMS_LIMITED)| <= MAX_ITEMS + 1
  {
    assert BoundedField(p, Field(ELLIPSIS, ITEMS_LIMITED), levels);
    hide BoundedField;
  }

  /** A redacted object is bounded when the entries kept of it are. */
  lemma ObjectBounds(p: Policy, fields: seq<Field>, depth: nat)
    requires p.SparesMarkers() && depth < MAX_DEPTH
    requires forall f <- RedactFields(p, fields, depth) :: BoundedField(p, f, MAX_DEPTH - depth - 1)
    ensures Bounded(p, Redact(p, Obj(fields), depth), MAX_DEPTH - depth)
  {
    var kept := RedactFields(p, fields, depth);
    PutIsBounded(p, kept, MAX_DEPTH - depth - 1);
    hide BoundedField, Put, RedactFields;
    assert Redact(p, Obj(fields), depth)
           == Obj(if |fields| > MAX_ITEMS then Put(kept, ELLIPSIS, ITEMS_LIMITED) else kept);
  }

  lemma ListBounds(p: Policy, items: seq<Json>, depth: nat)
    requires depth < MAX_DEPTH
    requires forall item <- RedactItems(p, items, depth) :: Bounded(p, item, MAX_DEPTH - depth - 1)
    ensures Bounded(p, Redact(p, List(items), depth), MAX_DEPTH - depth)
  {
    var kept := RedactItems(p, items, depth);
    assert Redact(p, List(items), depth) == List(if |items| > MAX_ITEMS then kept + [ITEMS_LIMITED] else kept);
    assert Bounded(p, ITEMS_LIMITED, MAX_DEPTH - depth - 1);
    hide RedactItems;
  }

  lemma ScalarBounds(p: Policy, v: Json, depth: nat)
    requires depth <= MAX_DEPTH && (depth == MAX_DEPTH || !(v.Obj? || v.List?))
    ensures Bounded(p, Redact(p, v, depth), MAX_DEPTH - depth)
  {}

  /** Redacted output nests at most `MAX_DEPTH - depth` levels, none of them with more than 51 children. */
  lemma {:induction false} RedactBounds(p: Policy, v: Json, depth: nat)
    requires p.SparesMarkers() && depth <= MAX_DEPTH
    ensures Bounded(p, Redact(p, v, depth), MAX_DEPTH - depth)
    decreases v, 2
  {
    hide Redact, Bounded, RedactFields, RedactItems, BoundedField;
    if depth < MAX_DEPTH && v.Obj? {
      EntriesBound(p, v.fields, depth);
      ObjectBounds(p, v.fields, depth);
    } else if depth < MAX_DEPTH && v.List? {
      ItemsBound(p, v.items, depth);
      ListBounds(p, v.items, depth);
    } else {
      ScalarBounds(p, v, depth);
    }
  }

  lemma {:induction false} EntriesBound(p: Policy, fields: seq<Field>, depth: nat)
    requires p.SparesMarkers() && depth < MAX_DEPTH
    ensures forall f <- RedactFields(p, fields, depth) :: BoundedField(p, f, MAX_DEPTH - depth - 1)
    decreases fields, 1
  {
    hide Redact, Bounded, BoundedField, RedactField;
    var kept := RedactFields(p, fields, depth);
    forall i | 0 <= i < |kept| ensures BoundedField(p, kept[i], MAX_DEPTH - depth - 1) {
      RedactBounds(p, fields[i].value, depth + 1);
      FieldBounds(p, fields[i], depth);
    }
  }

  lemma {:induction false} ItemsBound(p: Policy, items: seq<Json>, depth: nat)
    requires p.SparesMarkers() && depth < MAX_DEPTH
    ensures forall item <- RedactItems(p, items, depth) :: Bounded(p, item, MAX_DEPTH - depth - 1)
    decreases items, 1
  {
    hide Redact, Bounded;
    var kept := RedactItems(p, items, depth);
    forall i | 0 <= i < |kept| ensures Bounded(p, kept[i], MAX_DEPTH - depth - 1) {
      RedactBounds(p, items[i], depth + 1);
    }
  }

  lemma FieldBounds(p: Policy, f: Field, depth: nat)
    requires depth < MAX_DEPTH
    requires !p.sensitive(f.key) ==> Bounded(p, Redact(p, f.value, depth + 1), MAX_DEPTH - depth - 1)
    ensures BoundedField(p, RedactField(p, f, depth), MAX_DEPTH - depth - 1)
  {
    hide Redact;
  }

  /** The path stays inside the cuts and above the depth limit, under no sensitive key and no overwritten entry. */
  predicate Rendered(p: Policy, v: Json, path: seq<Step>, depth: nat)
    decreases |path|
  {
    path == [] ||
    (depth < MAX_DEPTH &&
     match path[0]
     case Key(name) =>
       v.Obj? && exists i: nat :: i < Min(MAX_ITEMS, |v.fields|) && v.fields[i].key == name && !p.sensitive(name)
                                  && !Overwritten(v.fields, i) && Rendered(p, v.fields[i].value, path[1..], depth + 1)
     case Index(i) =>
       v.List? && i < Min(MAX_ITEMS, |v.items|) && Rendered(p, v.items[i], path[1..], depth + 1))
  }

  lemma EntrySurvives(p: Policy, fields: seq<Field>, i: nat, depth: nat)
    requires UniqueKeys(fields) && depth < MAX_DEPTH && i < Min(MAX_ITEMS, |fields|)
    requires !p.sensitive(fields[i].key) && !Overwritten(fields, i)
    ensures Get(fields, fields[i].key) == Some(fields[i].value)
    ensures var once := Redact(p, Obj(fields), depth);
            once.Obj? && Get(once.fields, fields[i].key) == Some(Redact(p, fields[i].value, depth + 1))
  {
    var kept := RedactFields(p, fields, depth);
    assert UniqueKeys(kept);
    UniqueAfterPut(kept, ELLIPSIS, ITEMS_LIMITED);
    var after := Redact(p, Obj(fields), depth).fields;
    assert after[i] == kept[i] == RedactField(p, fields[i], depth);
    GetAt(fields, i);
    GetAt(after, i);
  }

  lemma ItemSurvives(p: Policy, items: seq<Json>, i: nat, depth: nat)
    requires depth < MAX_DEPTH && i < Min(MAX_ITEMS, |items|)
    ensures var once := Redact(p, List(items), depth);
            once.List? && i < |once.items| && once.items[i] == Redact(p, items[i], depth + 1)
  {}

  lemma LookupStep(v: Json, path: seq<Step>)
    requires path != []
    ensures path[0].Key? ==>
              Lookup(v, path) == (if v.Obj? && Get(v.fields, path[0].name).Some?
                                  then Lookup(Get(v.fields, path[0].name).value, path[1..]) else None)
    ensures path[0].Index? ==>
              Lookup(v, path)
                  == (if v.List? && path[0].i < |v.items| then Lookup(v.items[path[0].i], path[1..]) else None)
  {
    hide Get;
  }

  /** The first step of such a path. */
  lemma RenderedStep(p: Policy, v: Json, path: seq<Step>, depth: nat) returns (i: nat)
    requires path != [] && Rendered(p, v, path, depth)
    ensures depth < MAX_DEPTH
    ensures path[0].Key? ==>
              && v.Obj? && i < Min(MAX_ITEMS, |v.fields|) && v.fields[i].key == path[0].name
              && !p.sensitive(path[0].name)
              && !Overwritten(v.fields, i) && Rendered(p, v.fields[i].value, path[1..], depth + 1)
    ensures path[0].Index? ==>
              v.List? && i == path[0].i < Min(MAX_ITEMS, |v.items|) && Rendered(p, v.items[i], path[1..], depth + 1)
  {
    hide Overwritten;
    match path[0]
    case Key(name) =>
      i :| i < Min(MAX_ITEMS, |v.fields|) && v.fields[i].key == name && !p.sensitive(name)
           && !Overwritten(v.fields, i) && Rendered(p, v.fields[i].value, path[1..], depth + 1);
    case Index(n) => i := n;
  }

  lemma ChildWellFormed(v: Json, i: nat)
    requires WellFormed(v)
    ensures v.Obj? && i < |v.fields| ==> UniqueKeys(v.fields) && WellFormed(v.fields[i].value)
    ensures v.List? && i < |v.items| ==> WellFormed(v.items[i])
  {}

  /** Whatever lies on such a path is still there afterwards, at the same path, redacted only in itself. */
  lemma {:induction false} RenderedSurvives(p: Policy, v: Json, path: seq<Step>, depth: nat)
    requires WellFormed(v) && Rendered(p, v, path, depth)
    ensures Lookup(v, path).Some?
    ensures Lookup(Redact(p, v, depth), path) == Some(Redact(p, Lookup(v, path).value, depth + |path|))
    decreases |path|
  {
    hide Redact, Get, WellFormed, Rendered, Overwritten, UniqueKeys;
    if path != [] {
      var i := RenderedStep(p, v, path, depth);
      hide Lookup;
      LookupStep(v, path);
      LookupStep(Redact(p, v, depth), path);
      ChildWellFormed(v, i);
      if path[0].Key? {
        EntrySurvives(p, v.fields, i, depth);
        RenderedSurvives(p, v.fields[i].value, path[1..], depth + 1);
      } else {
        ItemSurvives(p, v.items, i, depth);
        RenderedSurvives(p, v.items[i], path[1..], depth + 1);
      }
    }
  }

  /**
   * What stands at a rendered path: the marker eight levels down; a secret string replaced and any other scalar as it
   * was; of an object or list the first fifty children under their keys and in order, credentials replaced, and a
   * marker when there were more.
   */
  predicate RedactedHere(p: Policy, before: Json, after: Json, depth: nat)
  {
    if depth >= 8 then after == Str("[depth-limited]")
    else
      match before
      case Str(text) => after == Str(if p.secret(text) then "[redacted]" else text)
      case List(items) =>
        && after.List?
        && (if |items| <= 50 then |after.items| == |items|
            else |after.items| == 51 && after.items[50] == Str("[items-limited]"))
      case Obj(fields) =>
        && after.Obj? && |after.fields| >= Min(50, |fields|)
        && (forall i :: 0 <= i < |fields| && i < 50 ==>
              && after.fields[i].key == fields[i].key
              && (p.sensitive(fields[i].key) && (|fields| <= 50 || fields[i].key != ELLIPSIS) ==>
                    after.fields[i].value == Str("[redacted]")))
        && (if |fields| <= 50 then |after.fields| == |fields|
            else && |after.fields| == (if exists i :: 0 <= i < 50 && fields[i].key == ELLIPSIS then 50 else 51)
                 && Get(after.fields, ELLIPSIS) == Some(Str("[items-limited]")))
      case _ => after == before
  }

  lemma {:induction false} GetPut(fields: seq<Field>, key: string, value: Json)
    ensures Get(Put(fields, key, value), key) == Some(value)
    ensures |Put(fields, key, value)| == |fields| + if exists f <- fields :: f.key == key then 0 else 1
  {
    if fields != [] && fields[0].key != key {
      assert Put(fields, key, value)[1..] == Put(fields[1..], key, value);
      GetPut(fields[1..], key, value);
      assert fields == [fields[0]] + fields[1..];
    } else if fields != [] {
      assert fields[0] in fields;
    }
  }

  lemma PutKeepsKeys(fields: seq<Field>, key: string, value: Json)
    requires UniqueKeys(fields)
    ensures |fields| <= |Put(fields, key, value)|
    ensures forall i :: 0 <= i < |fields| ==>
              Put(fields, key, value)[i].key == fields[i].key
              && (fields[i].key != key ==> Put(fields, key, value)[i] == fields[i])
  {}

  /** The kept entries: their keys, and the marker under a sensitive one. */
  lemma KeptEntries(p: Policy, fields: seq<Field>, depth: nat)
    ensures var kept := RedactFields(p, fields, depth);
            && |kept| == Min(50, |fields|) && (UniqueKeys(fields) ==> UniqueKeys(kept))
            && forall i :: 0 <= i < |kept| ==>
                 kept[i].key == fields[i].key && (p.sensitive(fields[i].key) ==> kept[i].value == Str("[redacted]"))
  {
    hide Redact;
  }

  lemma SmallObjectHere(p: Policy, fields: seq<Field>, kept: seq<Field>, depth: nat)
    requires depth < 8 && |fields| <= 50 && |kept| == |fields|
    requires forall i :: 0 <= i < |kept| ==>
               kept[i].key == fields[i].key && (p.sensitive(fields[i].key) ==> kept[i].value == Str("[redacted]"))
    ensures RedactedHere(p, Obj(fields), Obj(kept), depth)
  {}

  lemma CutObjectHere(p: Policy, fields: seq<Field>, kept: seq<Field>, after: seq<Field>, depth: nat)
    requires depth < 8 && |fields| > 50 && |kept| == 50
    requires forall i :: 0 <= i < |kept| ==>
               kept[i].key == fields[i].key && (p.sensitive(fields[i].key) ==> kept[i].value == Str("[redacted]"))
    requires |after| == 50 + if exists f <- kept :: f.key == ELLIPSIS then 0 else 1
    requires forall i ::
             0 <= i < 50 ==> after[i].key == kept[i].key && (kept[i].key != ELLIPSIS ==> after[i] == kept[i])
    requires Get(after, ELLIPSIS) == Some(Str("[items-limited]"))
    ensures RedactedHere(p, Obj(fields), Obj(after), depth)
  {
    hide Get;
    assert (exists f <- kept :: f.key == ELLIPSIS) <==> exists i :: 0 <= i < 50 && fields[i].key == ELLIPSIS by {
      if i :| 0 <= i < 50 && fields[i].key == ELLIPSIS { assert kept[i] in kept; }
      if f :| f in kept && f.key == ELLIPSIS {
        var i :| 0 <= i < |kept| && kept[i] == f;
        assert fields[i].key == ELLIPSIS;
      }
    }
  }

  lemma ObjectRedactedHere(p: Policy, fields: seq<Field>, depth: nat)
    requires UniqueKeys(fields) && depth < MAX_DEPTH
    ensures RedactedHere(p, Obj(fields), Redact(p, Obj(fields), depth), depth)
  {
    hide Redact, Get, UniqueKeys, RedactedHere, Put, RedactFields;
    var kept := RedactFields(p, fields, depth);
    KeptEntries(p, fields, depth);
    RedactedObject(p, fields, depth);
    if |fields| <= 50 {
      SmallObjectHere(p, fields, kept, depth);
    } else {
      GetPut(kept, ELLIPSIS, ITEMS_LIMITED);
      PutKeepsKeys(kept, ELLIPSIS, ITEMS_LIMITED);
      CutObjectHere(p, fields, kept, Put(kept, ELLIPSIS, ITEMS_LIMITED), depth);
    }
  }

  lemma RedactedObject(p: Policy, fields: seq<Field>, depth: nat)
    requires depth < MAX_DEPTH
    ensures var kept := RedactFields(p, fields, depth);
            Redact(p, Obj(fields), depth)
                == Obj(if |fields| > MAX_ITEMS then Put(kept, ELLIPSIS, ITEMS_LIMITED) else kept)
  {
    hide Put, RedactFields;
  }

  lemma RedactIsHere(p: Policy, v: Json, depth: nat)
    requires WellFormed(v)
    ensures RedactedHere(p, v, Redact(p, v, depth), depth)
  {
    if depth < MAX_DEPTH && v.Obj? { ObjectRedactedHere(p, v.fields, depth); }
    hide RedactFields, Put;
  }

  lemma {:induction false} LookupWellFormed(v: Json, path: seq<Step>)
    requires WellFormed(v) && Lookup(v, path).Some?
    ensures WellFormed(Lookup(v, path).value)
    decreases |path|
  {
    if path != [] {
      match path[0]
      case Key(name) => LookupWellFormed(Get(v.fields, name).value, path[1..]);
      case Index(i) => LookupWellFormed(v.items[i], path[1..]);
    }
  }

  /** Redaction, path by path. */
  lemma RedactedExactly(p: Policy, v: Json, path: seq<Step>)
    requires WellFormed(v) && Rendered(p, v, path, 0)
    ensures var before, after := Lookup(v, path), Lookup(Redact(p, v), path);
            before.Some? && after.Some? && RedactedHere(p, before.value, after.value, |path|)
  {
    hide Redact, Rendered, RedactedHere, Lookup, WellFormed;
    RenderedSurvives(p, v, path, 0);
    LookupWellFormed(v, path);
    RedactIsHere(p, Lookup(v, path).value, |path|);
  }

  /** In a cut object a literal ellipsis key loses its value to the cut marker. */
  predicate Overwritten(fields: seq<Field>, i: nat)
  {
    i < |fields| && |fields| > MAX_ITEMS && fields[i].key == ELLIPSIS
  }

  /**
   * On the lowest level that is still rendered, some cut object holds a literal ellipsis key inside the cut.
   * A caller can check this before redacting.
   */
  predicate EllipsisOnLastLevel(p: Policy, v: Json, depth: nat)
    decreases v, 1
  {
    match v
    case Obj(fields) => exists i: nat :: i < Min(MAX_ITEMS, |fields|) && EntryBlocks(p, fields, i, depth)
    case List(items) =>
      depth < MAX_DEPTH - 1 &&
      exists i: nat :: i < Min(MAX_ITEMS, |items|) && EllipsisOnLastLevel(p, items[i], depth + 1)
    case _ => false
  }

  predicate EntryBlocks(p: Policy, fields: seq<Field>, i: nat, depth: nat)
    requires i < |fields|
    decreases fields, 0
  {
    if Overwritten(fields, i) then depth == MAX_DEPTH - 1
    else depth < MAX_DEPTH - 1 && !p.sensitive(fields[i].key) && EllipsisOnLastLevel(p, fields[i].value, depth + 1)
  }

  ghost predicate Fixed(p: Policy, v: Json, depth: nat)
  {
    Redact(p, v, depth) == v
  }

  /** The second pass over an object is a fixed point exactly when it is one at every entry inside the cut. */
  lemma ObjectFixed(p: Policy, fields: seq<Field>, depth: nat)
    requires p.SparesMarkers() && UniqueKeys(fields) && depth < MAX_DEPTH
    ensures var once := Redact(p, Obj(fields), depth);
            && once.Obj? && |once.fields| >= Min(MAX_ITEMS, |fields|)
            && (Fixed(p, once, depth) <==>
                forall i: nat ::
                    i < Min(MAX_ITEMS, |fields|) ==> RedactField(p, once.fields[i], depth) == once.fields[i])
  {
    var kept := RedactFields(p, fields, depth);
    assert UniqueKeys(kept);
    var once := Redact(p, Obj(fields), depth);
    var again := RedactFields(p, once.fields, depth);
    if |fields| > MAX_ITEMS && |once.fields| > MAX_ITEMS {
      assert forall i :: 0 <= i < |kept| ==> kept[i].key != ELLIPSIS;
      assert once.fields == kept + [Field(ELLIPSIS, ITEMS_LIMITED)];
      assert forall i :: 0 <= i < |again| ==> again[i].key != ELLIPSIS;
      assert forall f <- again :: f.key != ELLIPSIS;
      assert Redact(p, once, depth) == Obj(again + [Field(ELLIPSIS, ITEMS_LIMITED)]);
      assert again == once.fields[..MAX_ITEMS] <==> Fixed(p, once, depth);
    } else {
      assert |once.fields| <= MAX_ITEMS;
    }
  }

  lemma ListFixed(p: Policy, items: seq<Json>, depth: nat)
    requires depth < MAX_DEPTH
    ensures var once := Redact(p, List(items), depth);
            && once.List? && |once.items| >= Min(MAX_ITEMS, |items|)
            && (Fixed(p, once, depth) <==>
                forall i: nat :: i < Min(MAX_ITEMS, |items|) ==> Fixed(p, once.items[i], depth + 1))
  {
    var once := Redact(p, List(items), depth);
    var again := RedactItems(p, once.items, depth);
    assert once.items[..|again|] == RedactItems(p, items, depth);
    if |items| > MAX_ITEMS {
      assert once.items == once.items[..MAX_ITEMS] + [ITEMS_LIMITED];
      assert Redact(p, once, depth) == List(again + [ITEMS_LIMITED]);
    }
    assert again == once.items[..|again|] <==> Fixed(p, once, depth);
  }

  lemma EntryFixed(p: Policy, fields: seq<Field>, i: nat, depth: nat)
    requires p.SparesMarkers() && UniqueKeys(fields) && depth < MAX_DEPTH && i < Min(MAX_ITEMS, |fields|)
    requires !p.sensitive(fields[i].key) ==>
               (Fixed(p, Redact(p, fields[i].value, depth + 1), depth + 1) <==>
                !(depth < MAX_DEPTH - 1 && EllipsisOnLastLevel(p, fields[i].value, depth + 1)))
    ensures var once := Redact(p, Obj(fields), depth);
            once.Obj? && i < |once.fields| &&
            (RedactField(p, once.fields[i], depth) == once.fields[i] <==> !EntryBlocks(p, fields, i, depth))
  {
    var kept := RedactFields(p, fields, depth);
    assert UniqueKeys(kept);
    var once := Redact(p, Obj(fields), depth);
    if Overwritten(fields, i) {
      assert once.fields[i] == Field(ELLIPSIS, ITEMS_LIMITED);
    } else {
      assert once.fields[i] == RedactField(p, fields[i], depth);
    }
  }

  lemma {:induction false} ObjectExactlyWhen(p: Policy, fields: seq<Field>, depth: nat)
    requires p.SparesMarkers() && WellFormed(Obj(fields)) && depth < MAX_DEPTH
    ensures Fixed(p, Redact(p, Obj(fields), depth), depth) <==> !EllipsisOnLastLevel(p, Obj(fields), depth)
    decreases fields, 0
  {
    hide Redact, RedactField, Fixed;
    ObjectFixed(p, fields, depth);
    var once := Redact(p, Obj(fields), depth);
    forall i: nat | i < Min(MAX_ITEMS, |fields|)
      ensures RedactField(p, once.fields[i], depth) == once.fields[i] <==> !EntryBlocks(p, fields, i, depth)
    {
      ChildExactlyWhen(p, fields[i].value, depth + 1);
      EntryFixed(p, fields, i, depth);
    }
  }

  lemma {:induction false} ListExactlyWhen(p: Policy, items: seq<Json>, depth: nat)
    requires p.SparesMarkers() && WellFormed(List(items)) && depth < MAX_DEPTH
    ensures Fixed(p, Redact(p, List(items), depth), depth) <==> !EllipsisOnLastLevel(p, List(items), depth)
    decreases items, 0
  {
    hide Redact, Fixed;
    ListFixed(p, items, depth);
    var once := Redact(p, List(items), depth);
    forall i: nat | i < Min(MAX_ITEMS, |items|)
      ensures Fixed(p, once.items[i], depth + 1) <==>
              !(depth < MAX_DEPTH - 1 && EllipsisOnLastLevel(p, items[i], depth + 1))
    {
      ItemSurvives(p, items, i, depth);
      ChildExactlyWhen(p, items[i], depth + 1);
    }
  }

  lemma {:induction false} ChildExactlyWhen(p: Policy, v: Json, depth: nat)
    requires p.SparesMarkers() && WellFormed(v)
    ensures Fixed(p, Redact(p, v, depth), depth) <==> !(depth < MAX_DEPTH && EllipsisOnLastLevel(p, v, depth))
    decreases v, 2
  {
    if depth < MAX_DEPTH {
      IdempotentExactlyWhen(p, v, depth);
    }
  }

  /**
   * Redacting twice is redacting once exactly when no cut object on the last rendered level holds a literal ellipsis
   * key.
   */
  lemma {:induction false} IdempotentExactlyWhen(p: Policy, v: Json, depth: nat)
    requires p.SparesMarkers() && WellFormed(v) && depth < MAX_DEPTH
    ensures Fixed(p, Redact(p, v, depth), depth) <==> !EllipsisOnLastLevel(p, v, depth)
    decreases v, 1
  {
    match v
    case Obj(fields) => ObjectExactlyWhen(p, fields, depth);
    case List(items) => ListExactlyWhen(p, items, depth);
    case _ =>
  }

  /** Fifty-one fields, the first under the ellipsis key. */
  function CrowdedObject(): Json
  {
    Obj(seq(MAX_ITEMS + 1, i requires 0 <= i => Field(if i == 0 then ELLIPSIS else seq(i, _ => 'k'), Null)))
  }

  function Nest(levels: nat, v: Json): Json
  {
    if levels == 0 then v else List([Nest(levels - 1, v)])
  }

  lemma {:induction false} NestedEllipsis(p: Policy, levels: nat, v: Json, depth: nat)
    requires depth + levels < MAX_DEPTH && EllipsisOnLastLevel(p, v, depth + levels) && WellFormed(v)
    ensures EllipsisOnLastLevel(p, Nest(levels, v), depth) && WellFormed(Nest(levels, v))
    decreases levels
  {
    if levels > 0 {
      NestedEllipsis(p, levels - 1, v, depth + 1);
      assert Nest(levels, v).items[0] == Nest(levels - 1, v);
    }
  }

  /** A body on which a second pass still changes something: seven lists around a crowded object. */
  lemma NotAlwaysIdempotent(p: Policy)
    requires p.SparesMarkers()
    ensures var v := Nest(7, CrowdedObject());
            WellFormed(v) && Redact(p, Redact(p, v)) != Redact(p, v)
  {
    var crowded := CrowdedObject();
    assert Overwritten(crowded.fields, 0);
    forall i, j | 0 <= i < j < |crowded.fields|
      ensures crowded.fields[i].key != crowded.fields[j].key
    {
      if i == 0 { assert crowded.fields[j].key[0] == 'k'; } else { assert |crowded.fields[i].key| == i; }
    }
    assert EntryBlocks(p, crowded.fields, 0, 7);
    NestedEllipsis(p, 7, crowded, 0);
    IdempotentExactlyWhen(p, Nest(7, crowded), 0);
  }
}
