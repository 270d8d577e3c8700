/**
 * Removing reserved evidence namespaces from agent output (`_strip_untrusted_evidence_values`
 * in agent_ingress.py).
 */
module EvidenceStripping {
  import opened Common
  import opened Json

  const RESERVED_EVIDENCE_BODY_KEYS: set<string> := {"a2a_evidence", "a2aCloudEvidence"}
  const META := "_meta"
  const EMPTY := Obj([])

  datatype Stripped = Stripped(value: Json, changed: bool)
  datatype StrippedItems = StrippedItems(items: seq<Json>, changed: bool)
  datatype StrippedFields = StrippedFields(fields: seq<Field>, changed: bool)

  function Strip(v: Json): Stripped
    decreases v, 0
  {
    match v
    case Obj(fields) =>
      var after := StripFields(fields);
      Stripped(Obj(after.fields), after.changed)
    case List(items) =>
      var after := StripItems(items);
      Stripped(List(after.items), after.changed)
    case _ => Stripped(v, false)
  }

  function StripItems(items: seq<Json>): (after: StrippedItems)
    ensures |after.items| == |items|
    decreases items, 1
  {
    if items == [] then StrippedItems([], false)
    else
      var first, later := Strip(items[0]), StripItems(items[1..]);
      StrippedItems([first.value] + later.items, first.changed || later.changed)
  }

  /** One entry of the loop over an object's keys: what is left of it, and whether something went. */
  function StripField(field: Field): StrippedFields
    decreases field, 1
  {
    if field.key in RESERVED_EVIDENCE_BODY_KEYS then StrippedFields([], true)
    else
      var child := Strip(field.value);
      if child.changed && field.key == META && child.value == EMPTY then StrippedFields([], true)
      else StrippedFields([Field(field.key, child.value)], child.changed)
  }

  function StripFields(fields: seq<Field>): StrippedFields
    decreases fields, 2
  {
    if fields == [] then StrippedFields([], false)
    else
      var first, later := StripField(fields[0]), StripFields(fields[1..]);
      StrippedFields(first.fields + later.fields, first.changed || later.changed)
  }

  lemma StripFieldsStep(fields: seq<Field>)
    requires fields != []
    ensures StripFields(fields) == StrippedFields(StripField(fields[0]).fields + StripFields(fields[1..]).fields,
                                                  StripField(fields[0]).changed || StripFields(fields[1..]).changed)
  {
    hide StripField;
  }

  lemma {:induction false} StripFieldsAppend(a: seq<Field>, b: seq<Field>)
    ensures StripFields(a + b) ==
            StrippedFields(StripFields(a).fields + StripFields(b).fields, StripFields(a).changed
                           || StripFields(b).changed)
  {
    if a == [] {
      NothingAdded(b);
      NothingAdded(StripFields(b).fields);
    } else {
      StripFieldsStep(a);
      StripFieldsStep(a + b);
      hide *;
      DropFirst(a, b);
      StripFieldsAppend(a[1..], b);
      Assoc(StripField(a[0]).fields, StripFields(a[1..]).fields, StripFields(b).fields);
    }
  }

  lemma StripItemsStep(items: seq<Json>)
    requires items != []
    ensures StripItems(items) == StrippedItems([Strip(items[0]).value] + StripItems(items[1..]).items,
                                               Strip(items[0]).changed || StripItems(items[1..]).changed)
  {
    hide Strip;
  }

  lemma {:induction false} StripItemsAppend(a: seq<Json>, b: seq<Json>)
    ensures StripItems(a + b) ==
            StrippedItems(StripItems(a).items + StripItems(b).items, StripItems(a).changed || StripItems(b).changed)
  {
    if a == [] {
      NothingAdded(b);
      NothingAdded(StripItems(b).items);
    } else {
      StripItemsStep(a);
      StripItemsStep(a + b);
      hide *;
      DropFirst(a, b);
      StripItemsAppend(a[1..], b);
      Assoc([Strip(a[0]).value], StripItems(a[1..]).items, StripItems(b).items);
    }
  }

  lemma StripFieldsSnoc(fields: seq<Field>, i: nat)
    requires i < |fields|
    ensures StripFields(fields[..i + 1]) ==
            StrippedFields(StripFields(fields[..i]).fields + StripField(fields[i]).fields,
                           StripFields(fields[..i]).changed || StripField(fields[i]).changed)
  {
    StripFieldsAppend(fields[..i], [fields[i]]);
    assert fields[..i + 1] == fields[..i] + [fields[i]];
    assert [fields[i]][1..] == [];
  }

  lemma StripItemsSnoc(items: seq<Json>, i: nat)
    requires i < |items|
    ensures StripItems(items[..i + 1]) ==
            StrippedItems(StripItems(items[..i]).items + [Strip(items[i]).value],
                          StripItems(items[..i]).changed || Strip(items[i]).changed)
  {
    StripItemsAppend(items[..i], [items[i]]);
    assert items[..i + 1] == items[..i] + [items[i]];
    assert [items[i]][1..] == [];
  }

  /**
   * `_strip_untrusted_evidence_values`: walks a snapshot of the keys and deletes or rewrites entries
   * of the object itself, so at step `i` the object is the surviving entries followed by the unvisited ones.
   */
  method StripUntrustedEvidenceValues(value: Json) returns (changed: bool, after: Json)
    ensures Stripped(after, changed) == Strip(value)
    decreases value, 0
  {
    hide StripFields, StripItems;
    match value
    case Obj(fields) =>
      var entries;
      changed, entries := StripEntries(fields);
      after := Obj(entries);
    case List(items) =>
      var visited;
      changed, visited := StripElements(items);
      after := List(visited);
    case _ => changed, after := false, value;
  }

  method StripEntries(fields: seq<Field>) returns (changed: bool, entries: seq<Field>)
    ensures StrippedFields(entries, changed) == StripFields(fields)
    decreases fields, 1
  {
    changed, entries := false, fields;
    var kept: seq<Field> := [];
    NothingStripped(fields);
    hide Strip, StripFields;
    for i := 0 to |fields|
      invariant StrippedFields(kept, changed) == StripFields(fields[..i])
      invariant entries == kept + fields[i..]
    {
      StripFieldsSnoc(fields, i);
      var field := fields[i];
      if field.key in RESERVED_EVIDENCE_BODY_KEYS {
        changed := true;
        NothingAdded(kept);
      } else {
        var childChanged, child := StripUntrustedEvidenceValues(field.value);
        if !(childChanged && field.key == META && child == EMPTY) {
          kept := kept + [Field(field.key, child)];
        } else {
          NothingAdded(kept);
        }
        changed := childChanged || changed;
      }
      entries := kept + fields[i + 1..];
    }
    NothingAdded(kept);
  }

  lemma NothingStripped(fields: seq<Field>)
    ensures StripFields(fields[..0]) == StrippedFields([], false) && fields[..|fields|] == fields
    ensures [] + fields[0..] == fields && fields[|fields|..] == []
  {}

  method StripElements(items: seq<Json>) returns (changed: bool, elements: seq<Json>)
    ensures StrippedItems(elements, changed) == StripItems(items)
    decreases items, 1
  {
    changed, elements := false, items;
    var visited: seq<Json> := [];
    NothingVisited(items);
    hide Strip, StripItems;
    for i := 0 to |items|
      invariant StrippedItems(visited, changed) == StripItems(items[..i])
      invariant elements == visited + items[i..]
    {
      StripItemsSnoc(items, i);
      var itemChanged, item := StripUntrustedEvidenceValues(items[i]);
      visited := visited + [item];
      changed := itemChanged || changed;
      elements := visited + items[i + 1..];
    }
    NothingAdded(visited);
  }

  lemma NothingVisited(items: seq<Json>)
    ensures StripItems(items[..0]) == StrippedItems([], false) && items[..|items|] == items
    ensures [] + items[0..] == items && items[|items|..] == []
  {}

  /** A reserved key occurs somewhere, at any depth. */
  predicate HasReserved(v: Json)
  {
    match v
    case Obj(fields) => exists f <- fields :: f.key in RESERVED_EVIDENCE_BODY_KEYS || HasReserved(f.value)
    case List(items) => exists item <- items :: HasReserved(item)
    case _ => false
  }

  /** An object whose whole content is reserved keys and `_meta` objects of the same kind. */
  predicate OnlyReserved(v: Json)
  {
    && v.Obj? && v.fields != []
    && forall f <- v.fields :: f.key in RESERVED_EVIDENCE_BODY_KEYS || (f.key == META && OnlyReserved(f.value))
  }

  lemma {:induction false} StripChanges(v: Json)
    ensures Strip(v).changed <==> HasReserved(v)
    ensures !HasReserved(v) ==> Strip(v).value == v
    ensures !HasReserved(Strip(v).value)
    decreases v, 0
  {
    match v
    case Obj(fields) => StripFieldsChanges(fields);
    case List(items) => StripItemsChanges(items);
    case _ =>
  }

  lemma {:induction false} StripItemsChanges(items: seq<Json>)
    ensures StripItems(items).changed <==> exists item <- items :: HasReserved(item)
    ensures !StripItems(items).changed ==> StripItems(items).items == items
    ensures forall item <- StripItems(items).items :: !HasReserved(item)
    decreases items, 1
  {
    if items != [] {
      assert items == [items[0]] + items[1..];
      StripChanges(items[0]);
      StripItemsChanges(items[1..]);
    }
  }

  lemma {:induction false} StripFieldsChanges(fields: seq<Field>)
    ensures StripFields(fields).changed <==>
              exists f <- fields :: f.key in RESERVED_EVIDENCE_BODY_KEYS || HasReserved(f.value)
    ensures !StripFields(fields).changed ==> StripFields(fields).fields == fields
    ensures forall f <- StripFields(fields).fields :: f.key !in RESERVED_EVIDENCE_BODY_KEYS && !HasReserved(f.value)
    decreases fields, 1
  {
    if fields != [] {
      assert fields == [fields[0]] + fields[1..];
      assert fields[0].value < fields[0];
      StripChanges(fields[0].value);
      StripFieldsChanges(fields[1..]);
    }
  }

  /** Stripping twice is stripping once, and the second pass reports no change. */
  lemma StripIdempotent(v: Json)
    ensures Strip(Strip(v).value) == Stripped(Strip(v).value, false)
  {
    StripChanges(v);
    StripChanges(Strip(v).value);
  }

  /** The only objects that strip to `{}` with a change are those made of reserved keys alone. */
  lemma {:induction false} EmptiedIsOnlyReserved(v: Json)
    ensures OnlyReserved(v) <==> Strip(v) == Stripped(EMPTY, true)
    decreases v, 0
  {
    if v.Obj? {
      FieldsEmptied(v.fields);
    }
  }

  lemma {:induction false} FieldsEmptied(fields: seq<Field>)
    ensures StripFields(fields).fields == [] <==>
              forall f <- fields :: f.key in RESERVED_EVIDENCE_BODY_KEYS || (f.key == META && OnlyReserved(f.value))
    ensures StripFields(fields).fields == [] ==> (StripFields(fields).changed <==> fields != [])
    decreases fields, 1
  {
    if fields != [] {
      assert fields == [fields[0]] + fields[1..];
      assert fields[0].value < fields[0];
      EmptiedIsOnlyReserved(fields[0].value);
      FieldsEmptied(fields[1..]);
    }
  }

  /** The path leads through a reserved key, or through a `_meta` object that held nothing else. */
  predicate Removed(v: Json, path: seq<Step>)
    decreases |path|
  {
    && path != []
    && match path[0]
       case Key(name) =>
         v.Obj? && Get(v.fields, name).Some? &&
         var child := Get(v.fields, name).value;
         name in RESERVED_EVIDENCE_BODY_KEYS || (name == META && OnlyReserved(child)) || Removed(child, path[1..])
       case Index(i) => v.List? && i < |v.items| && Removed(v.items[i], path[1..])
  }

  lemma KeyOccursOnce(fields: seq<Field>)
    requires UniqueKeys(fields) && fields != []
    ensures Get(fields[1..], fields[0].key) == None
  {}

  ghost function GetStripped(before: Option<Json>, name: string): Option<Json>
  {
    if before.None? || name in RESERVED_EVIDENCE_BODY_KEYS || (name == META && OnlyReserved(before.value)) then None
    else Some(Strip(before.value).value)
  }

  lemma {:induction false} GetAfterStrip(fields: seq<Field>, name: string)
    requires UniqueKeys(fields)
    ensures Get(StripFields(fields).fields, name) == GetStripped(Get(fields, name), name)
  {
    if fields != [] {
      var first, later := StripField(fields[0]).fields, StripFields(fields[1..]).fields;
      EmptiedIsOnlyReserved(fields[0].value);
      KeyOccursOnce(fields);
      GetAfterStrip(fields[1..], name);
      if first == [] {
        assert first + later == later;
      } else {
        assert (first + later)[0] == first[0] && (first + later)[1..] == later;
      }
    }
  }

  lemma GetWellFormed(v: Json, name: string)
    requires v.Obj? && WellFormed(v) && Get(v.fields, name).Some?
    ensures WellFormed(Get(v.fields, name).value)
  {
    assert Field(name, Get(v.fields, name).value) in v.fields;
  }

  /**
   * Nothing else changes: at every path the stripped value has exactly what the original has there (itself
   * stripped, so every scalar as it was), unless the path was removed; and it has nothing the original lacks.
   */
  lemma {:induction false} StripKeepsTheRest(v: Json, path: seq<Step>)
    requires WellFormed(v)
    ensures Lookup(Strip(v).value, path) ==
            if Removed(v, path) || Lookup(v, path).None? then None else Some(Strip(Lookup(v, path).value).value)
    decreases |path|
  {
    if path != [] {
      match path[0]
      case Key(name) =>
        if v.Obj? {
          GetAfterStrip(v.fields, name);
          if Get(v.fields, name).Some? {
            GetWellFormed(v, name);
            StripKeepsTheRest(Get(v.fields, name).value, path[1..]);
          }
        }
      case Index(i) =>
        if v.List? && i < |v.items| {
          StripItemAt(v.items, i);
          StripKeepsTheRest(v.items[i], path[1..]);
        }
    }
  }

  lemma {:induction false} StripItemAt(items: seq<Json>, i: nat)
    requires i < |items|
    ensures StripItems(items).items[i] == Strip(items[i]).value
  {
    if i > 0 {
      StripItemAt(items[1..], i - 1);
    }
  }

  lemma {:induction false} StripWellFormed(v: Json)
    requires WellFormed(v)
    ensures WellFormed(Strip(v).value)
    decreases v, 0
  {
    match v
    case Obj(fields) => StripFieldsWellFormed(fields);
    case List(items) =>
      forall i | 0 <= i < |items|
        ensures WellFormed(StripItems(items).items[i])
      {
        StripItemAt(items, i);
        StripWellFormed(items[i]);
      }
    case _ =>
  }

  lemma {:induction false} StripFieldsWellFormed(fields: seq<Field>)
    requires UniqueKeys(fields) && forall f <- fields :: WellFormed(f.value)
    ensures UniqueKeys(StripFields(fields).fields)
    ensures forall f <- StripFields(fields).fields :: WellFormed(f.value) && exists g <- fields :: g.key == f.key
    decreases fields, 1
  {
    if fields != [] {
      assert fields == [fields[0]] + fields[1..];
      assert fields[0].value < fields[0];
      StripWellFormed(fields[0].value);
      StripFieldsWellFormed(fields[1..]);
      forall g <- fields[1..] ensures g.key != fields[0].key {
        var j :| 0 <= j < |fields[1..]| && fields[1..][j] == g;
        assert fields[j + 1] == g;
      }
    }
  }

  // What stripping is, path by path and without the walk.

  /** An entry that goes: a reserved key, or a `_meta` object with nothing else in it. */
  predicate Gone(f: Field)
  {
    f.key in RESERVED_EVIDENCE_BODY_KEYS || (f.key == META && OnlyReserved(f.value))
  }

  function Keys(fields: seq<Field>): seq<string>
  {
    if fields == [] then [] else [fields[0].key] + Keys(fields[1..])
  }

  /** The keys of the other entries, in order. */
  function KeptKeys(fields: seq<Field>): seq<string>
  {
    if fields == [] then [] else (if Gone(fields[0]) then [] else [fields[0].key]) + KeptKeys(fields[1..])
  }

  /**
   * The same but for what stands inside: an object with the kept keys, a list of the same length, or the very scalar.
   */
  predicate SameOutside(before: Json, after: Json)
  {
    match before
    case Obj(fields) => after.Obj? && Keys(after.fields) == KeptKeys(fields)
    case List(items) => after.List? && |after.items| == |items|
    case _ => after == before
  }

  /** At every path that was not removed, and at no other, there is what was there. */
  ghost predicate Cleaned(before: Json, after: Json)
  {
    forall path: seq<Step> ::
      && (Lookup(after, path).Some? <==> Lookup(before, path).Some? && !Removed(before, path))
      && (Lookup(after, path).Some? && Lookup(before, path).Some? ==>
            SameOutside(Lookup(before, path).value, Lookup(after, path).value))
  }

  lemma {:induction false} StripKeepsKeys(fields: seq<Field>)
    ensures Keys(StripFields(fields).fields) == KeptKeys(fields)
  {
    if fields != [] {
      var first, later := StripField(fields[0]).fields, StripFields(fields[1..]).fields;
      EmptiedIsOnlyReserved(fields[0].value);
      StripKeepsKeys(fields[1..]);
      if first == [] {
        assert first + later == later;
      } else {
        assert (first + later)[0] == first[0] && (first + later)[1..] == later;
      }
    }
  }

  lemma StripSameOutside(v: Json)
    ensures SameOutside(v, Strip(v).value)
  {
    if v.Obj? { StripKeepsKeys(v.fields); }
  }

  lemma StripCleans(v: Json)
    requires WellFormed(v)
    ensures Cleaned(v, Strip(v).value)
  {
    hide SameOutside, Strip, Removed, WellFormed, Lookup;
    forall path: seq<Step>
      ensures (Lookup(Strip(v).value, path).Some? <==> Lookup(v, path).Some? && !Removed(v, path))
              && (Lookup(Strip(v).value, path).Some? && Lookup(v, path).Some? ==>
                    SameOutside(Lookup(v, path).value, Lookup(Strip(v).value, path).value))
    {
      StripKeepsTheRest(v, path);
      if Lookup(v, path).Some? { StripSameOutside(Lookup(v, path).value); }
    }
  }

  lemma LookupFirst(v: Json, step: Step, path: seq<Step>)
    ensures Lookup(v, [step] + path) == if Lookup(v, [step]).Some? then Lookup(Lookup(v, [step]).value, path) else None
    ensures Lookup(v, [step]).Some? && !Removed(v, [step]) ==>
              (Removed(v, [step] + path) <==> Removed(Lookup(v, [step]).value, path))
  {
    assert ([step] + path)[1..] == path && [step][1..] == [];
  }

  /** What stands at a step that stays is cleaned itself. */
  lemma CleanedInside(before: Json, after: Json, step: Step)
    requires Cleaned(before, after) && Lookup(before, [step]).Some? && Lookup(after, [step]).Some?
    ensures Cleaned(Lookup(before, [step]).value, Lookup(after, [step]).value)
  {
    hide SameOutside, Lookup, Removed;
    var a, b := Lookup(before, [step]).value, Lookup(after, [step]).value;
    assert !Removed(before, [step]);
    forall path: seq<Step>
      ensures (Lookup(b, path).Some? <==> Lookup(a, path).Some? && !Removed(a, path))
              && (Lookup(b, path).Some? && Lookup(a, path).Some? ==>
                    SameOutside(Lookup(a, path).value, Lookup(b, path).value))
    {
      LookupFirst(before, step, path);
      LookupFirst(after, step, path);
    }
  }

  lemma LookupKey(v: Json, i: nat)
    requires v.Obj? && UniqueKeys(v.fields) && i < |v.fields|
    ensures Lookup(v, [Key(v.fields[i].key)]) == Some(v.fields[i].value)
  {
    GetAt(v.fields, i);
    assert [Key(v.fields[i].key)][1..] == [];
  }

  lemma {:induction false} KeysAt(fields: seq<Field>, i: nat)
    requires i < |fields|
    ensures |Keys(fields)| == |fields| && Keys(fields)[i] == fields[i].key
  {
    if |fields| > 1 { KeysAt(fields[1..], if i == 0 then 0 else i - 1); }
  }

  lemma SameLength(a: seq<Field>, b: seq<Field>)
    requires Keys(a) == Keys(b)
    ensures |a| == |b| && forall i :: 0 <= i < |a| ==> a[i].key == b[i].key
  {
    if a != [] { KeysAt(a, 0); }
    if b != [] { KeysAt(b, 0); }
    forall i | 0 <= i < |a| ensures a[i].key == b[i].key {
      KeysAt(a, i);
      KeysAt(b, i);
    }
  }

  /** So the stripped value is the only one that cleans. */
  lemma {:induction false} CleanedIsUnique(v: Json, a: Json, b: Json)
    requires WellFormed(a) && WellFormed(b) && Cleaned(v, a) && Cleaned(v, b)
    ensures a == b
    decreases a
  {
    assert Lookup(v, []) == Some(v) && Lookup(a, []) == Some(a) && Lookup(b, []) == Some(b);
    assert SameOutside(v, a) && SameOutside(v, b);
    if v.Obj? {
      SameLength(a.fields, b.fields);
      forall i | 0 <= i < |a.fields| ensures a.fields[i] == b.fields[i] {
        var step := Key(a.fields[i].key);
        LookupKey(a, i);
        LookupKey(b, i);
        assert Lookup(v, [step]).Some?;
        CleanedInside(v, a, step);
        CleanedInside(v, b, step);
        assert a.fields[i].value < a.fields[i];
        CleanedIsUnique(Lookup(v, [step]).value, a.fields[i].value, b.fields[i].value);
      }
    } else if v.List? {
      forall i | 0 <= i < |a.items| ensures a.items[i] == b.items[i] {
        var step := Index(i);
        assert [step][1..] == [];
        assert Lookup(a, [step]) == Some(a.items[i]) && Lookup(b, [step]) == Some(b.items[i]);
        assert Lookup(v, [step]).Some?;
        CleanedInside(v, a, step);
        CleanedInside(v, b, step);
        CleanedIsUnique(Lookup(v, [step]).value, a.items[i], b.items[i]);
      }
    }
  }

  /** Stripping is cleaning: path by path, nothing else is meant by it. */
  lemma StrippedExactlyWhenCleaned(v: Json, after: Json)
    requires WellFormed(v) && WellFormed(after)
    ensures Cleaned(v, after) <==> after == Strip(v).value
  {
    hide Cleaned, Strip, WellFormed;
    StripCleans(v);
    StripWellFormed(v);
    if Cleaned(v, after) { CleanedIsUnique(v, after, Strip(v).value); }
  }
}
