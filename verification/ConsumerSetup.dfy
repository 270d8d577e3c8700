/**
 * Consumer setup values (consumer_setup.py): the full resolver and the invocation fast path, and that they agree.
 */
module ConsumerSetup {
  import opened Common
  import opened Json

  datatype Kind = Config | Secret
  datatype Field = Field(name: string, kind: Kind, required: bool)

  datatype Scope = User | Org
  datatype Row = Row(scope: Scope, owner: int, name: string, value: Json, ciphertext: string, redacted: string,
                     updatedAt: int)
  datatype Membership = Membership(userId: int, orgId: int, slug: string, active: bool, admin: bool)

  /** The stored rows of one agent and all memberships, these ordered by organisation id as the query orders them. */
  datatype Database = Database(rows: seq<Row>, memberships: seq<Membership>)

  datatype Entry = Entry(name: string, kind: Kind, source: Option<Scope>, redacted: Option<string>,
                         updatedAt: Option<int>)

  datatype Resolution = Resolution(
    fields: seq<Field>, values: seq<Entry>, missing: seq<string>,
    config: map<string, Json>, secrets: map<string, string>,
    organization: Option<Membership>, canManage: bool)
  {
    predicate Complete() { missing == [] }
  }

  datatype Result = Resolved(resolution: Resolution) | NoSuchOrganization | Undecryptable

  type Decrypt = string -> Option<string>
  type View = map<(Scope, string), Row>

  /** `_resolve_user_org`: the first active membership, of the named organisation when the name is not empty. */
  function FirstMembership(memberships: seq<Membership>, userId: int, slug: string): Option<Membership>
  {
    if memberships == [] then None
    else if memberships[0].userId == userId && memberships[0].active && (slug == "" || memberships[0].slug == slug) then
      Some(memberships[0])
    else FirstMembership(memberships[1..], userId, slug)
  }

  function Named(slug: Option<string>): string
  {
    if slug.Some? then slug.value else ""
  }

  predicate Selected(row: Row, userId: int, org: Option<Membership>)
  {
    if row.scope.User? then row.owner == userId else org.Some? && row.owner == org.value.orgId
  }

  /** `_setup_rows` followed by the dict over (scope, field name): a later row replaces an earlier one. */
  function ViewOf(rows: seq<Row>, userId: int, org: Option<Membership>): (view: View)
    ensures forall key <- view ::
            view[key] in rows && Selected(view[key], userId, org) && (view[key].scope, view[key].name) == key
  {
    if rows == [] then map[]
    else
      var front, last := rows[..|rows| - 1], rows[|rows| - 1];
      var view := ViewOf(front, userId, org);
      if Selected(last, userId, org) then view[(last.scope, last.name) := last] else view
  }

  /** The row that counts for a field: the user's, and only without one the organisation's. */
  function Effective(view: View, name: string): Option<Row>
  {
    if (User, name) in view then Some(view[(User, name)])
    else if (Org, name) in view then Some(view[(Org, name)])
    else None
  }

  /** A user's row shadows the organisation's, and of several rows for one name the last one counts. */
  lemma EffectiveIsLast(rows: seq<Row>, userId: int, org: Option<Membership>, scope: Scope, name: string, i: nat)
    requires i < |rows| && rows[i].scope == scope && rows[i].name == name && Selected(rows[i], userId, org)
    requires forall j ::
             i < j < |rows| && Selected(rows[j], userId, org) ==> rows[j].scope != scope || rows[j].name != name
    requires scope.Org? ==> forall j ::
             0 <= j < |rows| && rows[j].name == name ==> !rows[j].scope.User? || rows[j].owner != userId
    ensures Effective(ViewOf(rows, userId, org), name) == Some(rows[i])
  {
    LastRowWins(rows, userId, org, scope, name, i);
    var view := ViewOf(rows, userId, org);
    assert (User, name) in view ==> exists j :: 0 <= j < |rows| && rows[j] == view[(User, name)];
  }

  lemma {:induction false} LastRowWins(rows: seq<Row>, userId: int, org: Option<Membership>, scope: Scope, name: string,
                                       i: nat)
    requires i < |rows| && rows[i].scope == scope && rows[i].name == name && Selected(rows[i], userId, org)
    requires forall j ::
             i < j < |rows| && Selected(rows[j], userId, org) ==> rows[j].scope != scope || rows[j].name != name
    ensures (scope, name) in ViewOf(rows, userId, org) && ViewOf(rows, userId, org)[(scope, name)] == rows[i]
    decreases |rows|
  {
    if i < |rows| - 1 {
      LastRowWins(rows[..|rows| - 1], userId, org, scope, name, i);
    }
  }

  function NamesOf(fields: seq<Field>, kind: Kind): set<string>
  {
    set f | f in fields && f.kind == kind :: f.name
  }

  function ConfigOf(view: View, fields: seq<Field>): map<string, Json>
  {
    map name | name in NamesOf(fields, Config) && Effective(view, name).Some? :: Effective(view, name).value.value
  }

  predicate HasSecret(view: View, name: string)
  {
    Effective(view, name).Some? && Effective(view, name).value.ciphertext != ""
  }

  function SecretsOf(view: View, fields: seq<Field>, decrypt: Decrypt): map<string, string>
  {
    map name | name in NamesOf(fields, Secret) && HasSecret(view, name)
               && decrypt(Effective(view, name).value.ciphertext).Some?
            :: decrypt(Effective(view, name).value.ciphertext).value
  }

  /** Some declared secret cannot be decrypted. */
  predicate Broken(view: View, fields: seq<Field>, decrypt: Decrypt)
  {
    exists name <- NamesOf(fields, Secret) ::
        HasSecret(view, name) && decrypt(Effective(view, name).value.ciphertext).None?
  }

  function MissingOf(view: View, fields: seq<Field>): seq<string>
  {
    if fields == [] then []
    else
      var front, last := fields[..|fields| - 1], fields[|fields| - 1];
      MissingOf(view, front) + if last.required && Effective(view, last.name).None? then [last.name] else []
  }

  function EntryOf(view: View, field: Field): Entry
  {
    var row := Effective(view, field.name);
    if row.None? then Entry(field.name, field.kind, None, None, None)
    else Entry(field.name, field.kind, Some(row.value.scope), Some(row.value.redacted), Some(row.value.updatedAt))
  }

  function EntriesOf(view: View, fields: seq<Field>): seq<Entry>
  {
    seq(|fields|, i requires 0 <= i < |fields| => EntryOf(view, fields[i]))
  }

  predicate MayManage(member: Option<Membership>)
  {
    member.Some? && member.value.admin
  }

  predicate OrgMissing(db: Database, userId: int, slug: Option<string>)
  {
    Named(slug) != "" && FirstMembership(db.memberships, userId, Named(slug)).None?
  }

  /** What the full resolver is for, without its loop. */
  function Full(db: Database, fields: seq<Field>, userId: int, slug: Option<string>, decrypt: Decrypt): Result
  {
    if OrgMissing(db, userId, slug) then NoSuchOrganization
    else
      var org := FirstMembership(db.memberships, userId, Named(slug));
      var view := ViewOf(db.rows, userId, org);
      if Broken(view, fields, decrypt) then Undecryptable
      else
        Resolved(Resolution(fields, EntriesOf(view, fields), MissingOf(view, fields), ConfigOf(view, fields),
                            SecretsOf(view, fields, decrypt), org, MayManage(org)))
  }

  /** One more field, in every part of the result. */
  lemma OneMoreField(view: View, fields: seq<Field>, i: nat, decrypt: Decrypt)
    requires i < |fields|
    ensures var f, row, sofar := fields[i], Effective(view, fields[i].name), fields[..i];
            && MissingOf(view, fields[..i + 1]) == MissingOf(view, sofar)
                 + (if f.required && row.None? then [f.name] else [])
            && EntriesOf(view, fields[..i + 1]) == EntriesOf(view, sofar) + [EntryOf(view, f)]
            && ConfigOf(view, fields[..i + 1]) ==
                 (if f.kind.Config? && row.Some? then ConfigOf(view, sofar)[f.name := row.value.value]
                  else ConfigOf(view, sofar))
            && SecretsOf(view, fields[..i + 1], decrypt) ==
                 (if f.kind.Secret? && HasSecret(view, f.name) && decrypt(row.value.ciphertext).Some?
                  then SecretsOf(view, sofar, decrypt)[f.name := decrypt(row.value.ciphertext).value]
                  else SecretsOf(view, sofar, decrypt))
            && (Broken(view, fields[..i + 1], decrypt) <==>
                  || Broken(view, sofar, decrypt)
                  || (f.kind.Secret? && HasSecret(view, f.name) && decrypt(row.value.ciphertext).None?))
  {
    hide Effective, ConfigOf, SecretsOf, Broken, NamesOf, HasSecret;
    var f, sofar, more := fields[i], fields[..i], fields[..i + 1];
    assert more == sofar + [f] && more[..|more| - 1] == sofar;
    OneMoreConfig(view, sofar, f);
    OneMoreSecret(view, sofar, f, decrypt);
  }

  lemma NamesSnoc(fields: seq<Field>, f: Field, kind: Kind)
    ensures NamesOf(fields + [f], kind) == NamesOf(fields, kind) + if f.kind == kind then {f.name} else {}
  {
    assert forall g :: g in fields + [f] <==> g in fields || g == f;
  }

  lemma OneMoreConfig(view: View, fields: seq<Field>, f: Field)
    ensures ConfigOf(view, fields + [f]) ==
            if f.kind.Config? && Effective(view, f.name).Some?
            then ConfigOf(view, fields)[f.name := Effective(view, f.name).value.value] else ConfigOf(view, fields)
  {
    NamesSnoc(fields, f, Config);
    hide NamesOf, Effective;
  }

  lemma OneMoreSecret(view: View, fields: seq<Field>, f: Field, decrypt: Decrypt)
    ensures var row := Effective(view, f.name);
            && SecretsOf(view, fields + [f], decrypt) ==
                 (if f.kind.Secret? && HasSecret(view, f.name) && decrypt(row.value.ciphertext).Some?
                  then SecretsOf(view, fields, decrypt)[f.name := decrypt(row.value.ciphertext).value]
                  else SecretsOf(view, fields, decrypt))
            && (Broken(view, fields + [f], decrypt) <==>
                  || Broken(view, fields, decrypt)
                  || (f.kind.Secret? && HasSecret(view, f.name) && decrypt(row.value.ciphertext).None?))
  {
    NamesSnoc(fields, f, Secret);
    hide NamesOf, Effective;
  }

  lemma BrokenStays(view: View, fields: seq<Field>, i: nat, decrypt: Decrypt)
    requires i <= |fields| && Broken(view, fields[..i], decrypt)
    ensures Broken(view, fields, decrypt)
  {
    assert forall f <- fields[..i] :: f in fields;
    assert NamesOf(fields[..i], Secret) <= NamesOf(fields, Secret);
  }

  // The same from the rows, by position and without the dicts in between.

  /** The first active membership of the user, of the named organisation when a name is given. */
  ghost predicate MemberAt(memberships: seq<Membership>, userId: int, slug: string, at: Option<nat>)
  {
    match at
    case None => forall m <- memberships :: m.userId == userId && m.active ==> slug != "" && m.slug != slug
    case Some(i) =>
      && i < |memberships| && memberships[i].userId == userId && memberships[i].active
      && (slug == "" || memberships[i].slug == slug)
      && forall j :: 0 <= j < i && memberships[j].userId == userId && memberships[j].active ==>
           slug != "" && memberships[j].slug != slug
  }

  /** The row is the user's own, or one of the organisation the user acts for. */
  predicate Visible(row: Row, userId: int, org: Option<Membership>)
  {
    || (row.scope == User && row.owner == userId)
    || (row.scope == Org && org.Some? && row.owner == org.value.orgId)
  }

  /**
   * The row that counts for a name: the last of the user's own, and only without one the last of the organisation's.
   */
  ghost predicate CountsAt(rows: seq<Row>, userId: int, org: Option<Membership>, name: string, at: Option<nat>)
  {
    match at
    case None => forall r <- rows :: r.name == name ==> !Visible(r, userId, org)
    case Some(i) =>
      && i < |rows| && rows[i].name == name && Visible(rows[i], userId, org)
      && (forall j :: i < j < |rows| && rows[j].name == name && rows[j].scope == rows[i].scope ==>
            !Visible(rows[j], userId, org))
      && (rows[i].scope == Org ==> forall j :: 0 <= j < |rows| && rows[j].name == name && rows[j].scope == User ==>
            rows[j].owner != userId)
  }

  lemma {:induction false} FirstMembershipAt(memberships: seq<Membership>, userId: int, slug: string)
    returns (at: Option<nat>)
    ensures MemberAt(memberships, userId, slug, at)
    ensures FirstMembership(memberships, userId, slug) == if at.Some? then Some(memberships[at.value]) else None
  {
    if memberships == [] {
      at := None;
    } else if memberships[0].userId == userId && memberships[0].active && (slug == "" || memberships[0].slug == slug) {
      at := Some(0);
    } else {
      var later := FirstMembershipAt(memberships[1..], userId, slug);
      assert memberships == [memberships[0]] + memberships[1..];
      at := if later.None? then None else Some(later.value + 1);
    }
  }

  /** The last row of a scope and name. */
  lemma {:induction false} ViewAt(rows: seq<Row>, userId: int, org: Option<Membership>, scope: Scope, name: string)
    returns (at: Option<nat>)
    ensures (scope, name) in ViewOf(rows, userId, org) <==> at.Some?
    ensures match at
            case None => forall r <- rows :: r.name == name && r.scope == scope ==> !Visible(r, userId, org)
            case Some(i) =>
              && i < |rows| && rows[i].name == name && rows[i].scope == scope && Visible(rows[i], userId, org)
              && ViewOf(rows, userId, org)[(scope, name)] == rows[i]
              && forall j :: i < j < |rows| && rows[j].name == name && rows[j].scope == scope ==>
                   !Visible(rows[j], userId, org)
    decreases |rows|
  {
    if rows == [] {
      at := None;
    } else {
      var front, last := rows[..|rows| - 1], rows[|rows| - 1];
      at := ViewAt(front, userId, org, scope, name);
      assert rows == front + [last];
      if last.scope == scope && last.name == name && Visible(last, userId, org) {
        at := Some(|front|);
      }
    }
  }

  lemma EffectiveAt(rows: seq<Row>, userId: int, org: Option<Membership>, name: string) returns (at: Option<nat>)
    ensures CountsAt(rows, userId, org, name, at)
    ensures Effective(ViewOf(rows, userId, org), name) == if at.Some? then Some(rows[at.value]) else None
  {
    var own := ViewAt(rows, userId, org, User, name);
    var shared := ViewAt(rows, userId, org, Org, name);
    hide ViewOf;
    at := if own.Some? then own else shared;
    if at.None? {
      forall r <- rows | r.name == name ensures !Visible(r, userId, org) {
        assert r.scope == User || r.scope == Org;
      }
    }
  }

  /** The row itself, or nothing. */
  ghost predicate Counts(rows: seq<Row>, userId: int, org: Option<Membership>, name: string, row: Option<Row>)
  {
    exists at: Option<nat> ::
      CountsAt(rows, userId, org, name, at) && row == if at.Some? then Some(rows[at.value]) else None
  }

  lemma CountsOnce(rows: seq<Row>, userId: int, org: Option<Membership>, name: string, a: Option<nat>, b: Option<nat>)
    requires CountsAt(rows, userId, org, name, a) && CountsAt(rows, userId, org, name, b)
    ensures a == b
  {
    assert a.Some? ==> rows[a.value] in rows;
    assert b.Some? ==> rows[b.value] in rows;
  }

  lemma CountsExactly(rows: seq<Row>, userId: int, org: Option<Membership>, name: string, row: Option<Row>)
    ensures Counts(rows, userId, org, name, row) <==> Effective(ViewOf(rows, userId, org), name) == row
  {
    hide ViewOf, Effective;
    var at := EffectiveAt(rows, userId, org, name);
    if other: Option<nat> :| CountsAt(rows, userId, org, name, other)
                             && row == if other.Some? then Some(rows[other.value]) else None
    {
      CountsOnce(rows, userId, org, name, at, other);
    }
  }

  /** For every name at once. */
  lemma CountsAll(rows: seq<Row>, userId: int, org: Option<Membership>)
    ensures forall name, row ::
            Counts(rows, userId, org, name, row) <==> Effective(ViewOf(rows, userId, org), name) == row
  {
    forall name, row
      ensures Counts(rows, userId, org, name, row) <==> Effective(ViewOf(rows, userId, org), name) == row
    {
      CountsExactly(rows, userId, org, name, row);
    }
  }

  ghost predicate BrokenRow(rows: seq<Row>, userId: int, org: Option<Membership>, name: string, decrypt: Decrypt)
  {
    exists row :: Counts(rows, userId, org, name, Some(row)) && row.ciphertext != "" && decrypt(row.ciphertext).None?
  }

  /** Missing are the names of the required fields for which no row counts, in their order. */
  ghost predicate MissingAs(rows: seq<Row>, userId: int, org: Option<Membership>, fields: seq<Field>,
                            missing: seq<string>)
  {
    exists at: seq<nat> :: MissingAt(rows, userId, org, fields, missing, at)
  }

  ghost predicate MissingAt(rows: seq<Row>, userId: int, org: Option<Membership>, fields: seq<Field>,
                            missing: seq<string>,
                            at: seq<nat>)
  {
    && |at| == |missing| && (forall k :: 0 <= k < |at| ==> at[k] < |fields| && missing[k] == fields[at[k]].name)
    && (forall k, l :: 0 <= k < l < |at| ==> at[k] < at[l])
    && forall i: nat :: i < |fields| ==>
         (i in at <==> fields[i].required && Counts(rows, userId, org, fields[i].name, None))
  }

  /** The configuration holds the value of the row that counts for each such field, and nothing else. */
  ghost predicate ConfigAs(rows: seq<Row>, userId: int, org: Option<Membership>, fields: seq<Field>, config: map<string,
                           Json>)
  {
    && (forall name <- config :: (exists f <- fields :: f.kind == Config && f.name == name)
                                 && !Counts(rows, userId, org, name, None))
    && forall f <- fields, row :: f.kind == Config && Counts(rows, userId, org, f.name, Some(row)) ==>
         f.name in config && config[f.name] == row.value
  }

  /**
   * The secrets hold the decrypted text of the row that counts for each such field, if it has any, and nothing else.
   */
  ghost predicate SecretsAs(rows: seq<Row>, userId: int, org: Option<Membership>, fields: seq<Field>, decrypt: Decrypt,
                            secrets: map<string, string>)
  {
    && (forall name <- secrets :: (exists f <- fields :: f.kind == Secret && f.name == name)
                                  && exists row :: Counts(rows, userId, org, name, Some(row)) && row.ciphertext != "")
    && forall f <- fields, row ::
         f.kind == Secret && Counts(rows, userId, org, f.name, Some(row)) && row.ciphertext != "" ==>
           f.name in secrets && decrypt(row.ciphertext) == Some(secrets[f.name])
  }

  /** One entry per field: where its value comes from, redacted, and since when; nothing of that without a row. */
  ghost predicate ValuesAs(rows: seq<Row>, userId: int, org: Option<Membership>, fields: seq<Field>, values: seq<Entry>)
  {
    && |values| == |fields|
    && forall k, row :: 0 <= k < |fields| && Counts(rows, userId, org, fields[k].name, row) ==>
         values[k] == if row.None? then Entry(fields[k].name, fields[k].kind, None, None, None)
                      else Entry(fields[k].name, fields[k].kind, Some(row.value.scope), Some(row.value.redacted),
                                 Some(row.value.updatedAt))
  }

  ghost predicate ResolvedAs(db: Database, fields: seq<Field>, userId: int, slug: Option<string>, decrypt: Decrypt,
                             result: Result)
  {
    exists m: Option<nat> ::
      && MemberAt(db.memberships, userId, if slug.Some? then slug.value else "", m)
      && if slug.Some? && slug.value != "" && m.None? then result == NoSuchOrganization
         else ResolvedFor(db.rows, fields, userId, if m.Some? then Some(db.memberships[m.value])
                          else None, decrypt, result)
  }

  ghost predicate ResolvedFor(rows: seq<Row>, fields: seq<Field>, userId: int, org: Option<Membership>,
                              decrypt: Decrypt,
                              result: Result)
  {
    if exists f <- fields ::
        f.kind == Secret && BrokenRow(rows, userId, org, f.name, decrypt) then result == Undecryptable
    else
      && result.Resolved? && result.resolution.fields == fields && result.resolution.organization == org
      && result.resolution.canManage == (org.Some? && org.value.admin)
      && ValuesAs(rows, userId, org, fields, result.resolution.values)
      && MissingAs(rows, userId, org, fields, result.resolution.missing)
      && ConfigAs(rows, userId, org, fields, result.resolution.config)
      && SecretsAs(rows, userId, org, fields, decrypt, result.resolution.secrets)
  }

  lemma BrokenExactlyWhen(rows: seq<Row>, userId: int, org: Option<Membership>, fields: seq<Field>, decrypt: Decrypt)
    ensures Broken(ViewOf(rows, userId, org), fields, decrypt) <==>
              exists f <- fields :: f.kind == Secret && BrokenRow(rows, userId, org, f.name, decrypt)
  {
    hide ViewOf, Effective, Counts;
    CountsAll(rows, userId, org);
    var view := ViewOf(rows, userId, org);
    forall name
      ensures BrokenRow(rows, userId, org, name, decrypt) <==>
                HasSecret(view, name) && decrypt(Effective(view, name).value.ciphertext).None?
    {
      assert Counts(rows, userId, org, name, Effective(view, name));
    }
    hide HasSecret, BrokenRow;
  }

  lemma ConfigExactly(rows: seq<Row>, userId: int, org: Option<Membership>, fields: seq<Field>)
    ensures ConfigAs(rows, userId, org, fields, ConfigOf(ViewOf(rows, userId, org), fields))
  {
    hide ViewOf, Effective, Counts;
    CountsAll(rows, userId, org);
  }

  lemma SecretsExactly(rows: seq<Row>, userId: int, org: Option<Membership>, fields: seq<Field>, decrypt: Decrypt)
    requires !Broken(ViewOf(rows, userId, org), fields, decrypt)
    ensures SecretsAs(rows, userId, org, fields, decrypt, SecretsOf(ViewOf(rows, userId, org), fields, decrypt))
  {
    hide ViewOf, Effective, Counts;
    CountsAll(rows, userId, org);
    var view := ViewOf(rows, userId, org);
    var secrets := SecretsOf(view, fields, decrypt);
    forall name <- secrets ensures exists row :: Counts(rows, userId, org, name, Some(row)) && row.ciphertext != "" {
      assert Counts(rows, userId, org, name, Some(Effective(view, name).value));
    }
    assert forall f <- fields :: f.kind == Secret ==> f.name in NamesOf(fields, Secret);
  }

  lemma ValuesExactly(rows: seq<Row>, userId: int, org: Option<Membership>, fields: seq<Field>)
    ensures ValuesAs(rows, userId, org, fields, EntriesOf(ViewOf(rows, userId, org), fields))
  {
    hide ViewOf, Effective, Counts;
    CountsAll(rows, userId, org);
  }

  lemma {:induction false} MissingExactly(rows: seq<Row>, userId: int, org: Option<Membership>, fields: seq<Field>)
    returns (at: seq<nat>)
    ensures MissingAt(rows, userId, org, fields, MissingOf(ViewOf(rows, userId, org), fields), at)
    decreases |fields|
  {
    hide ViewOf, Effective, Counts;
    if fields == [] {
      at := [];
    } else {
      var front, last := fields[..|fields| - 1], fields[|fields| - 1];
      var missing := MissingOf(ViewOf(rows, userId, org), front);
      at := MissingExactly(rows, userId, org, front);
      CountsExactly(rows, userId, org, last.name, None);
      assert fields == front + [last];
      hide MissingAt;
      if last.required && Counts(rows, userId, org, last.name, None) {
        MissingOneMore(rows, userId, org, front, last, missing, at);
        at := at + [|front|];
      } else {
        MissingNoMore(rows, userId, org, front, last, missing, at);
        NothingAdded(missing);
      }
    }
  }

  lemma MissingOneMore(rows: seq<Row>, userId: int, org: Option<Membership>, front: seq<Field>, last: Field,
                       missing: seq<string>, at: seq<nat>)
    requires MissingAt(rows, userId, org, front, missing, at)
    requires last.required && Counts(rows, userId, org, last.name, None)
    ensures MissingAt(rows, userId, org, front + [last], missing + [last.name], at + [|front|])
  {
    hide Counts;
    var fields, more := front + [last], at + [|front|];
    assert forall k :: 0 <= k < |at| ==> fields[at[k]] == front[at[k]];
    assert forall i :: i in more <==> i in at || i == |front|;
  }

  lemma MissingNoMore(rows: seq<Row>, userId: int, org: Option<Membership>, front: seq<Field>, last: Field,
                      missing: seq<string>, at: seq<nat>)
    requires MissingAt(rows, userId, org, front, missing, at)
    requires !(last.required && Counts(rows, userId, org, last.name, None))
    ensures MissingAt(rows, userId, org, front + [last], missing, at)
  {
    hide Counts;
    assert forall k :: 0 <= k < |at| ==> (front + [last])[at[k]] == front[at[k]];
    assert |front| !in at;
  }

  /** What the full resolver answers, from the rows and memberships alone. */
  lemma FullExactly(db: Database, fields: seq<Field>, userId: int, slug: Option<string>, decrypt: Decrypt)
    ensures ResolvedAs(db, fields, userId, slug, decrypt, Full(db, fields, userId, slug, decrypt))
  {
    var org := FirstMembership(db.memberships, userId, Named(slug));
    hide MemberAt, FirstMembership, ViewOf, Broken, BrokenRow, ValuesAs, MissingAt, ConfigAs, SecretsAs,
         EntriesOf, MissingOf, ConfigOf, SecretsOf;
    var m := FirstMembershipAt(db.memberships, userId, Named(slug));
    BrokenExactlyWhen(db.rows, userId, org, fields, decrypt);
    ValuesExactly(db.rows, userId, org, fields);
    var at := MissingExactly(db.rows, userId, org, fields);
    ConfigExactly(db.rows, userId, org, fields);
    if !Broken(ViewOf(db.rows, userId, org), fields, decrypt) {
      SecretsExactly(db.rows, userId, org, fields, decrypt);
    }
    assert m.Some? ==> m.value < |db.memberships| by { MemberInRange(db.memberships, userId, Named(slug), m); }
  }

  lemma MemberInRange(memberships: seq<Membership>, userId: int, slug: string, at: Option<nat>)
    requires MemberAt(memberships, userId, slug, at)
    ensures at.Some? ==> at.value < |memberships|
  {}

  /** `resolve_consumer_setup` */
  method ResolveConsumerSetup(db: Database, fields: seq<Field>, userId: int, slug: Option<string>, decrypt: Decrypt)
    returns (result: Result)
    ensures result == Full(db, fields, userId, slug, decrypt)
    ensures ResolvedAs(db, fields, userId, slug, decrypt, result)
  {
    FullExactly(db, fields, userId, slug, decrypt);
    hide ResolvedAs;
    if OrgMissing(db, userId, slug) {
      return NoSuchOrganization;
    }
    var org := FirstMembership(db.memberships, userId, Named(slug));
    var view := ViewOf(db.rows, userId, org);
    hide ViewOf, ConfigOf, SecretsOf, MissingOf, EntriesOf, Broken, FirstMembership;
    var values: seq<Entry>, missing: seq<string> := [], [];
    var config: map<string, Json>, secrets: map<string, string> := map[], map[];
    NoFields(view, decrypt);
    assert fields[..0] == [];
    for i := 0 to |fields|
      invariant values == EntriesOf(view, fields[..i]) && missing == MissingOf(view, fields[..i])
      invariant config == ConfigOf(view, fields[..i]) && secrets == SecretsOf(view, fields[..i], decrypt)
      invariant !Broken(view, fields[..i], decrypt)
    {
      OneMoreField(view, fields, i, decrypt);
      var field := fields[i];
      var userRow := if (User, field.name) in view then Some(view[(User, field.name)]) else None;
      var orgRow := if (Org, field.name) in view then Some(view[(Org, field.name)]) else None;
      var row := if userRow.Some? then userRow else orgRow;
      if row.None? && field.required {
        missing := missing + [field.name];
      }
      if row.Some? {
        if field.kind.Secret? {
          if row.value.ciphertext != "" {
            var plain := decrypt(row.value.ciphertext);
            if plain.None? {
              BrokenStays(view, fields, i + 1, decrypt);
              return Undecryptable;
            }
            secrets := secrets[field.name := plain.value];
          }
        } else {
          config := config[field.name := row.value.value];
        }
      }
      values := values + [EntryOf(view, field)];
    }
    assert fields[..|fields|] == fields;
    return Resolved(Resolution(fields, values, missing, config, secrets, org, MayManage(org)));
  }

  lemma NoFields(view: View, decrypt: Decrypt)
    ensures EntriesOf(view, []) == [] && MissingOf(view, []) == [] && ConfigOf(view, []) == map[]
    ensures SecretsOf(view, [], decrypt) == map[] && !Broken(view, [], decrypt)
  {}

  /** What the two paths must agree on; the fast path may leave the redacted values out of a complete resolution. */
  ghost predicate Agree(fast: Result, full: Result)
  {
    if fast.Resolved? && full.Resolved? then
      var f, r := fast.resolution, full.resolution;
      && f.fields == r.fields && f.missing == r.missing && f.config == r.config && f.secrets == r.secrets
      && (f.Complete() <==> r.Complete())
      && f.values == (if r.Complete() then [] else r.values)
    else fast == full
  }

  ghost predicate SameOrganization(fast: Result, full: Result)
  {
    fast.Resolved? && full.Resolved? ==>
      fast.resolution.organization == full.resolution.organization
          && fast.resolution.canManage == full.resolution.canManage
  }

  /**
   * `resolve_consumer_setup_invocation`. It agrees with the full resolver on every declaration, whether complete or
   * not, and reports another organisation exactly when nothing is declared, no organisation argument is given and the
   * user has one.
   */
  method ResolveConsumerSetupInvocation(db: Database, fields: seq<Field>, userId: int, slug: Option<string>,
                                        decrypt: Decrypt)
    returns (result: Result)
    ensures Agree(result, Full(db, fields, userId, slug, decrypt))
    ensures SameOrganization(result, Full(db, fields, userId, slug, decrypt)) <==>
            !(fields == [] && slug.None? && FirstMembership(db.memberships, userId, "").Some?)
  {
    hide ViewOf, ConfigOf, SecretsOf, MissingOf, EntriesOf, Broken, FirstMembership, Effective;
    ghost var full := Full(db, fields, userId, slug, decrypt);
    var org := FirstMembership(db.memberships, userId, Named(slug));
    var view := ViewOf(db.rows, userId, org);
    NoFields(view, decrypt);
    if fields == [] && slug.None? {
      return Resolved(Resolution(fields, [], [], map[], map[], None, false));
    }
    if OrgMissing(db, userId, slug) {
      return NoSuchOrganization;
    }
    if fields == [] {
      return Resolved(Resolution(fields, [], [], map[], map[], org, MayManage(org)));
    }
    var missing: seq<string> := [];
    var config: map<string, Json>, secrets: map<string, string> := map[], map[];
    assert fields[..0] == [];
    for i := 0 to |fields|
      invariant missing == MissingOf(view, fields[..i])
      invariant config == ConfigOf(view, fields[..i]) && secrets == SecretsOf(view, fields[..i], decrypt)
      invariant !Broken(view, fields[..i], decrypt)
    {
      OneMoreField(view, fields, i, decrypt);
      var field := fields[i];
      var row := Effective(view, field.name);
      if row.None? {
        if field.required {
          missing := missing + [field.name];
        }
        continue;
      }
      if field.kind.Secret? {
        if row.value.ciphertext != "" {
          var plain := decrypt(row.value.ciphertext);
          if plain.None? {
            BrokenStays(view, fields, i + 1, decrypt);
            return Undecryptable;
          }
          secrets := secrets[field.name := plain.value];
        }
      } else {
        config := config[field.name := row.value.value];
      }
    }
    assert fields[..|fields|] == fields;
    if missing != [] {
      result := ResolveConsumerSetup(db, fields, userId, slug, decrypt);
      return;
    }
    return Resolved(Resolution(fields, [], [], config, secrets, org, MayManage(org)));
  }

  /** A setup is complete exactly when every required field has a row, and nothing undeclared is ever handed out. */
  lemma {:induction false} CompleteExactlyWhen(view: View, fields: seq<Field>)
    ensures MissingOf(view, fields) == [] <==> forall f <- fields :: f.required ==> Effective(view, f.name).Some?
    decreases |fields|
  {
    if fields != [] {
      var front, last := fields[..|fields| - 1], fields[|fields| - 1];
      CompleteExactlyWhen(view, front);
      assert forall f :: f in fields <==> f in front || f == last;
    }
  }
}
