/** Write prefixes of a grant (`normalize_write_prefixes` in grants.py). */
module WritePrefixes {
  import opened Common

  /** `value.replace("\\", "/")` */
  function Forward(value: string): (r: string)
    ensures |r| == |value|
    ensures forall i :: 0 <= i < |r| ==> r[i] == if value[i] == '\\' then '/' else value[i]
  {
    seq(|value|, i requires 0 <= i < |value| => if value[i] == '\\' then '/' else value[i])
  }

  /** `value.strip("/")` */
  function StripSlashes(value: string): (r: string)
    decreases |value|
  {
    if value != "" && value[0] == '/' then StripSlashes(value[1..])
    else if value != "" && value[|value| - 1] == '/' then StripSlashes(value[..|value| - 1])
    else value
  }

  function Clean(value: string): string
  {
    StripSlashes(Forward(value))
  }

  function AddPrefix(prefixes: seq<string>, value: string): seq<string>
  {
    var clean := Clean(value);
    if clean == "" || clean + "/" in prefixes then prefixes else prefixes + [clean + "/"]
  }

  function AddAll(prefixes: seq<string>, values: seq<string>): seq<string>
    decreases |values|
  {
    if values == [] then prefixes else AddAll(AddPrefix(prefixes, values[0]), values[1..])
  }

  /** The outputs prefix comes first, when there is one that is not empty. */
  function Candidates(outputs: Option<string>, writes: seq<string>): seq<string>
  {
    (if outputs.Some? && outputs.value != "" then [outputs.value] else []) + writes
  }

  function Normalized(outputs: Option<string>, writes: seq<string>): seq<string>
  {
    AddAll([], Candidates(outputs, writes))
  }

  lemma {:induction false} AddAllSnoc(prefixes: seq<string>, values: seq<string>, last: string)
    ensures AddAll(prefixes, values + [last]) == AddPrefix(AddAll(prefixes, values), last)
    decreases |values|
  {
    if values == [] {
      assert ([] + [last]) == [last];
    } else {
      AddAllSnoc(AddPrefix(prefixes, values[0]), values[1..], last);
      assert (values + [last])[1..] == values[1..] + [last];
    }
  }

  /** `normalize_write_prefixes` */
  method NormalizeWritePrefixes(outputs: Option<string>, writes: seq<string>) returns (prefixes: seq<string>)
    ensures prefixes == Normalized(outputs, writes)
  {
    prefixes := [];
    var values := [];
    if outputs.Some? && outputs.value != "" {
      values := [outputs.value];
    }
    values := values + writes;
    assert values == Candidates(outputs, writes);
    for i := 0 to |values|
      invariant prefixes == AddAll([], values[..i])
    {
      AddAllSnoc([], values[..i], values[i]);
      assert values[..i + 1] == values[..i] + [values[i]];
      var clean := Clean(values[i]);
      if clean == "" {
        continue;
      }
      var normalized := clean + "/";
      if normalized !in prefixes {
        prefixes := prefixes + [normalized];
      }
    }
    assert values[..|values|] == values;
  }

  /** A prefix in normal form: no backslash, no leading slash, exactly one slash at the end, and something before it. */
  predicate Normal(prefix: string)
  {
    && |prefix| >= 2 && prefix[|prefix| - 1] == '/'
    && prefix[0] != '/' && prefix[|prefix| - 2] != '/' && '\\' !in prefix
  }

  lemma {:induction false} StripSlashesInside(value: string)
    ensures var r := StripSlashes(value);
            && (forall c <- r :: c in value)
            && (r == "" || (r[0] != '/' && r[|r| - 1] != '/'))
    decreases |value|
  {
    if value != "" && value[0] == '/' {
      StripSlashesInside(value[1..]);
    } else if value != "" && value[|value| - 1] == '/' {
      StripSlashesInside(value[..|value| - 1]);
    }
  }

  /** Cleaning gives nothing or a normal prefix, and a normal prefix cleans to itself. */
  lemma CleanIsNormal(value: string)
    ensures Clean(value) == "" || Normal(Clean(value) + "/")
  {
    StripSlashesInside(Forward(value));
  }

  lemma CleanOfNormal(prefix: string)
    requires Normal(prefix)
    ensures Clean(prefix) != "" && Clean(prefix) + "/" == prefix
  {
    assert forall c <- prefix :: c != '\\';
    assert Forward(prefix) == prefix;
    var front := prefix[..|prefix| - 1];
    assert StripSlashes(prefix) == StripSlashes(front) == front;
  }

  predicate AllNormal(prefixes: seq<string>)
  {
    forall p <- prefixes :: Normal(p)
  }

  predicate Distinct(prefixes: seq<string>)
  {
    forall i, j :: 0 <= i < j < |prefixes| ==> prefixes[i] != prefixes[j]
  }

  /** The result holds each normal form once, and exactly the forms its values clean to. */
  lemma {:induction false} AddAllCovers(prefixes: seq<string>, values: seq<string>)
    requires AllNormal(prefixes) && Distinct(prefixes)
    ensures var r := AddAll(prefixes, values);
            && AllNormal(r) && Distinct(r)
            && forall p :: p in r <==> p in prefixes || exists v <- values :: Clean(v) != "" && p == Clean(v) + "/"
    decreases |values|
  {
    if values != [] {
      CleanIsNormal(values[0]);
      AddAllCovers(AddPrefix(prefixes, values[0]), values[1..]);
      assert forall v :: v in values <==> v == values[0] || v in values[1..];
    }
  }

  lemma PrefixesCover(outputs: Option<string>, writes: seq<string>)
    ensures var r := Normalized(outputs, writes);
            && AllNormal(r) && Distinct(r)
            && forall p :: p in r <==> exists v <- Candidates(outputs, writes) :: Clean(v) != "" && p == Clean(v) + "/"
  {
    AddAllCovers([], Candidates(outputs, writes));
  }

  lemma {:induction false} AddAllOfNormal(prefixes: seq<string>, more: seq<string>)
    requires AllNormal(more) && Distinct(prefixes + more)
    ensures AddAll(prefixes, more) == prefixes + more
    decreases |more|
  {
    if more == [] {
      NothingAdded(prefixes);
    } else {
      CleanOfNormal(more[0]);
      FirstIsNew(prefixes, more);
      Assoc(prefixes, [more[0]], more[1..]);
      assert [more[0]] + more[1..] == more;
      AddAllOfNormal(prefixes + [more[0]], more[1..]);
    }
  }

  lemma FirstIsNew(prefixes: seq<string>, more: seq<string>)
    requires Distinct(prefixes + more) && more != []
    ensures more[0] !in prefixes
  {
    var all := prefixes + more;
    assert all[|prefixes|] == more[0];
    forall i | 0 <= i < |prefixes| ensures prefixes[i] != more[0] {
      assert all[i] == prefixes[i];
    }
  }

  /** Normalising a normalised list changes nothing, not even its order. */
  lemma NormalizedTwice(outputs: Option<string>, writes: seq<string>)
    ensures Normalized(None, Normalized(outputs, writes)) == Normalized(outputs, writes)
  {
    var once := Normalized(outputs, writes);
    PrefixesCover(outputs, writes);
    assert Candidates(None, once) == once && [] + once == once;
    AddAllOfNormal([], once);
  }

  /** The refill done on verification: with nothing to write to, the outputs prefix alone yields nothing either. */
  lemma EmptyStaysEmpty(outputs: Option<string>, writes: seq<string>)
    ensures forall p <- Normalized(outputs, []) :: p in Normalized(outputs, writes)
    ensures Normalized(outputs, writes) == [] ==> Normalized(outputs, []) == []
  {
    var all, only := Normalized(outputs, writes), Normalized(outputs, []);
    PrefixesCover(outputs, writes);
    PrefixesCover(outputs, []);
    forall p | p in only ensures p in all {
      var v :| v in Candidates(outputs, []) && Clean(v) != "" && p == Clean(v) + "/";
      assert v in Candidates(outputs, writes);
    }
    assert only == [] || only[0] in only;
  }

  /** Stripping takes slashes off both ends, and nothing else. */
  lemma {:induction false} StripExactly(value: string) returns (i: nat, j: nat)
    ensures i <= j <= |value| && StripSlashes(value) == value[i..j]
    ensures forall k :: (0 <= k < i || j <= k < |value|) ==> value[k] == '/'
    ensures i < j ==> value[i] != '/' && value[j - 1] != '/'
    decreases |value|
  {
    if value != "" && value[0] == '/' {
      i, j := StripExactly(value[1..]);
      assert value[1..][i..j] == value[i + 1..j + 1];
      assert forall k :: 0 < k < |value| ==> value[k] == value[1..][k - 1];
      i, j := i + 1, j + 1;
    } else if value != "" && value[|value| - 1] == '/' {
      var front := value[..|value| - 1];
      i, j := StripExactly(front);
      assert front[i..j] == value[i..j] && forall k :: 0 <= k < |front| ==> value[k] == front[k];
    } else {
      i, j := 0, |value|;
      assert value[0..|value|] == value;
    }
  }

  /** The values in the order they are looked at: the outputs prefix, unless it is missing or empty, then the others. */
  predicate InOrder(values: seq<string>, outputs: Option<string>, writes: seq<string>)
  {
    if outputs.Some? && outputs.value != "" then |values| == |writes| + 1 && values[0] == outputs.value
        && values[1..] == writes
    else values == writes
  }

  /** `earlier` comes from a value in front of every value that `later` comes from. */
  predicate ComesBefore(values: seq<string>, earlier: string, later: string)
  {
    exists i :: 0 <= i < |values| && Clean(values[i]) + "/" == earlier
                && forall j :: 0 <= j <= i ==> Clean(values[j]) + "/" != later
  }

  predicate Ordered(values: seq<string>, prefixes: seq<string>)
  {
    forall a, b :: 0 <= a < b < |prefixes| ==> ComesBefore(values, prefixes[a], prefixes[b])
  }

  ghost predicate FromValues(values: seq<string>, prefixes: seq<string>)
  {
    forall p :: p in prefixes <==> exists v <- values :: Clean(v) != "" && p == Clean(v) + "/"
  }

  lemma ComesBeforeLater(values: seq<string>, last: string, earlier: string, later: string)
    requires ComesBefore(values, earlier, later)
    ensures ComesBefore(values + [last], earlier, later)
  {
    hide Clean;
    var i :| 0 <= i < |values| && Clean(values[i]) + "/" == earlier
             && forall j :: 0 <= j <= i ==> Clean(values[j]) + "/" != later;
    assert (values + [last])[i] == values[i] && forall j :: 0 <= j <= i ==> (values + [last])[j] == values[j];
  }

  lemma OrderedSnoc(values: seq<string>, prefixes: seq<string>, last: string)
    requires Ordered(values, prefixes) && FromValues(values, prefixes)
    ensures Ordered(values + [last], AddPrefix(prefixes, last))
            && FromValues(values + [last], AddPrefix(prefixes, last))
  {
    hide Clean;
    var after, form := AddPrefix(prefixes, last), Clean(last) + "/";
    assert forall v :: v in values + [last] <==> v in values || v == last;
    forall a, b | 0 <= a < b < |after| ensures ComesBefore(values + [last], after[a], after[b]) {
      if b == |prefixes| {
        assert prefixes[a] in prefixes;
        var v :| v in values && Clean(v) != "" && prefixes[a] == Clean(v) + "/";
        var i :| 0 <= i < |values| && values[i] == v;
        forall j | 0 <= j <= i ensures Clean(values[j]) + "/" != form {
          assert values[j] in values;
          SlashNotAlone(Clean(values[j]), Clean(last));
        }
        assert ComesBefore(values, prefixes[a], form);
      }
      ComesBeforeLater(values, last, after[a], after[b]);
    }
    hide ComesBefore;
  }

  lemma SlashNotAlone(a: string, b: string)
    ensures a + "/" == b + "/" ==> a == b
  {
    assert (a + "/")[..|a|] == a && (b + "/")[..|b|] == b;
  }

  lemma {:induction false} AddAllOrdered(values: seq<string>)
    ensures Ordered(values, AddAll([], values)) && FromValues(values, AddAll([], values))
    decreases |values|
  {
    if values != [] {
      var front, last := values[..|values| - 1], values[|values| - 1];
      AddAllOrdered(front);
      AddAllSnoc([], front, last);
      assert values == front + [last];
      OrderedSnoc(front, AddAll([], front), last);
    }
  }

  /** The prefixes are the cleaned values in the order in which they first appear. */
  lemma PrefixesInOrder(outputs: Option<string>, writes: seq<string>) returns (values: seq<string>)
    ensures InOrder(values, outputs, writes)
    ensures Ordered(values, Normalized(outputs, writes)) && FromValues(values, Normalized(outputs, writes))
  {
    values := Candidates(outputs, writes);
    AddAllOrdered(values);
  }
}
