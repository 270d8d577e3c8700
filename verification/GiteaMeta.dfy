/**
 * Scoped repository tokens and the collaborator entries they need (gitea_meta.py). One entry serves every active token
 * of the same service user on the same repository.
 */
module GiteaMeta {
  import opened Common

  type TokenName = string

  /** A service user's access to one repository. */
  datatype Access = Access(username: string, owner: string, repo: string)

  /** An audit row. */
  datatype Row = Row(access: Access, expiresAt: int, revoked: bool)

  predicate Active(row: Row, now: int)
  {
    !row.revoked && row.expiresAt > now
  }

  function ActiveAccesses(rows: map<TokenName, Row>, now: int): set<Access>
  {
    set n | n in rows && Active(rows[n], now) :: rows[n].access
  }

  function UnrevokedAccesses(rows: map<TokenName, Row>): set<Access>
  {
    set n | n in rows && !rows[n].revoked :: rows[n].access
  }

  function Unrevoked(rows: map<TokenName, Row>): set<TokenName>
  {
    set n | n in rows && !rows[n].revoked
  }

  /** The names `_count_active_for_repo` counts. */
  function OthersActive(rows: map<TokenName, Row>, access: Access, now: int, exclude: TokenName): set<TokenName>
  {
    set n | n in rows && rows[n].access == access && Active(rows[n], now) && n != exclude
  }

  /**
   * Every active token has its collaborator entry, no entry outlives the last unrevoked token, and the remote tokens
   * are exactly the unrevoked ones.
   */
  ghost predicate Consistent(rows: map<TokenName, Row>, collaborators: set<Access>, remote: set<TokenName>, now: int)
  {
    && ActiveAccesses(rows, now) <= collaborators <= UnrevokedAccesses(rows)
    && remote == Unrevoked(rows)
  }

  /** Tokens expiring by themselves never break consistency. */
  lemma ConsistentLater(rows: map<TokenName, Row>, collaborators: set<Access>, remote: set<TokenName>, now: int,
                        later: int)
    requires Consistent(rows, collaborators, remote, now) && now <= later
    ensures Consistent(rows, collaborators, remote, later)
  {
    forall a | a in ActiveAccesses(rows, later) ensures a in collaborators {
      var n :| n in rows && Active(rows[n], later) && rows[n].access == a;
      assert Active(rows[n], now);
    }
  }

  function Revoke(rows: map<TokenName, Row>, name: TokenName): map<TokenName, Row>
    requires name in rows
  {
    rows[name := rows[name].(revoked := true)]
  }

  /** Revoking a token and dropping its entry when no other active token needs it. */
  lemma RevokeKeepsConsistent(rows: map<TokenName, Row>, collaborators: set<Access>, remote: set<TokenName>,
                              name: TokenName, now: int)
    requires Consistent(rows, collaborators, remote, now) && name in rows && !rows[name].revoked
    ensures var access := rows[name].access;
            var after := Revoke(rows, name);
            Consistent(after, if OthersActive(after, access, now, name) == {} then collaborators - {access}
                       else collaborators,
                       remote - {name}, now)
  {
    var access := rows[name].access;
    var after := Revoke(rows, name);
    var kept := if OthersActive(after, access, now, name) == {} then collaborators - {access} else collaborators;
    forall a | a in ActiveAccesses(after, now) ensures a in kept {
      var n :| n in after && Active(after[n], now) && after[n].access == a;
      assert n != name && rows[n].access in ActiveAccesses(rows, now);
      if a == access {
        assert n in OthersActive(after, access, now, name);
      }
    }
    forall a | a in kept ensures a in UnrevokedAccesses(after) {
      var n :| n in rows && !rows[n].revoked && rows[n].access == a;
      if a == access {
        var other :| other in OthersActive(after, access, now, name);
        assert after[other].access in UnrevokedAccesses(after);
      } else {
        assert after[n].access in UnrevokedAccesses(after);
      }
    }
  }

  lemma MintKeepsConsistent(rows: map<TokenName, Row>, collaborators: set<Access>, remote: set<TokenName>,
                            name: TokenName, row: Row, now: int)
    requires Consistent(rows, collaborators, remote, now) && name !in rows && !row.revoked
    ensures Consistent(rows[name := row], collaborators + {row.access}, remote + {name}, now)
  {
    var after := rows[name := row];
    forall a | a in ActiveAccesses(after, now) ensures a in collaborators + {row.access} {
      var n :| n in after && Active(after[n], now) && after[n].access == a;
      assert n != name ==> rows[n].access in ActiveAccesses(rows, now);
    }
    forall a | a in collaborators + {row.access} ensures a in UnrevokedAccesses(after) {
      if a in collaborators {
        var n :| n in rows && !rows[n].revoked && rows[n].access == a;
        assert after[n].access in UnrevokedAccesses(after);
      } else {
        assert after[name].access in UnrevokedAccesses(after);
      }
    }
  }

  // ---------------------------------------------------------------- sweeping

  /** Some token of the access is active at time `t`. */
  predicate Needed(rows: map<TokenName, Row>, a: Access, t: int)
  {
    exists n <- rows :: rows[n].access == a && Active(rows[n], t)
  }

  /** What the sweeper's query returns at `start`, each name once. */
  ghost predicate ExpiredAt(rows: map<TokenName, Row>, expired: seq<TokenName>, start: int)
  {
    && (forall n :: n in expired <==> n in rows && !rows[n].revoked && rows[n].expiresAt <= start)
    && (forall i, j :: 0 <= i < j < |expired| ==> expired[i] != expired[j])
  }

  /** The clock readings of the revocations, none before `start`. */
  predicate Onward(start: int, clock: seq<int>)
  {
    (clock != [] ==> start <= clock[0]) && forall i :: 0 < i < |clock| ==> clock[i - 1] <= clock[i]
  }

  function EndOf(start: int, clock: seq<int>): int
  {
    if clock == [] then start else clock[|clock| - 1]
  }

  lemma {:induction false} OnwardFrom(start: int, clock: seq<int>, i: nat)
    requires Onward(start, clock) && i < |clock|
    ensures start <= clock[i] <= EndOf(start, clock)
  {
    OnwardUpTo(start, clock, i);
    OnwardDownTo(clock, i, |clock| - 1);
  }

  lemma {:induction false} OnwardUpTo(start: int, clock: seq<int>, i: nat)
    requires Onward(start, clock) && i < |clock|
    ensures start <= clock[i]
  {
    if i > 0 { OnwardUpTo(start, clock, i - 1); }
  }

  lemma {:induction false} OnwardDownTo(clock: seq<int>, i: nat, j: nat)
    requires i <= j < |clock| && forall k :: 0 < k < |clock| ==> clock[k - 1] <= clock[k]
    ensures clock[i] <= clock[j]
    decreases j
  {
    if i < j { OnwardDownTo(clock, i, j - 1); }
  }

  /** Whenever a token of the access was revoked, another one was still active. */
  predicate Kept(before: map<TokenName, Row>, a: Access, expired: seq<TokenName>, clock: seq<int>)
    requires |clock| == |expired| && forall n <- expired :: n in before
  {
    forall i :: 0 <= i < |expired| && before[expired[i]].access == a ==> Needed(before, a, clock[i])
  }

  /** The entries a sweep leaves, from the rows and clock readings alone. */
  function EntriesAfter(before: map<TokenName, Row>, entries: set<Access>, expired: seq<TokenName>,
                        clock: seq<int>): set<Access>
    requires |clock| == |expired| && forall n <- expired :: n in before
  {
    set a | a in entries && Kept(before, a, expired, clock)
  }

  /** The rows a sweep leaves: every token expired at its start is revoked, nothing else changes. */
  function SweptRows(before: map<TokenName, Row>, expired: seq<TokenName>): (rows: map<TokenName, Row>)
    ensures rows.Keys == before.Keys
  {
    map n | n in before :: if n in expired then before[n].(revoked := true) else before[n]
  }

  lemma SweptAre(before: map<TokenName, Row>, expired: seq<TokenName>, start: int)
    requires ExpiredAt(before, expired, start)
    ensures forall n <- before :: SweptRows(before, expired)[n] ==
              if !before[n].revoked && before[n].expiresAt <= start
                  then Row(before[n].access, before[n].expiresAt, true)
              else before[n]
  {}

  lemma SweptSnoc(before: map<TokenName, Row>, expired: seq<TokenName>, i: nat)
    requires i < |expired| && expired[i] in before
    ensures SweptRows(before, expired[..i + 1]) == Revoke(SweptRows(before, expired[..i]), expired[i])
  {
    assert expired[..i + 1] == expired[..i] + [expired[i]];
  }

  /** The count of other active tokens after `i + 1` revocations says whether the access is still needed. */
  lemma CountIsNeed(before: map<TokenName, Row>, expired: seq<TokenName>, start: int, now: int, i: nat)
    requires ExpiredAt(before, expired, start) && start <= now && i < |expired|
    ensures expired[i] in before
    ensures var access := before[expired[i]].access;
            OthersActive(SweptRows(before, expired[..i + 1]), access, now, expired[i]) != {} <==>
                Needed(before, access, now)
  {
    assert expired[i] in expired;
    var access, swept := before[expired[i]].access, SweptRows(before, expired[..i + 1]);
    assert forall n <- expired[..i + 1] :: n in expired;
    if Needed(before, access, now) {
      var n :| n in before && before[n].access == access && Active(before[n], now);
      assert n in OthersActive(swept, access, now, expired[i]);
    }
    if n :| n in OthersActive(swept, access, now, expired[i]) {
      assert before[n].access == access && Active(before[n], now);
    }
  }

  lemma NotYetSwept(before: map<TokenName, Row>, expired: seq<TokenName>, start: int, i: nat)
    requires ExpiredAt(before, expired, start) && i < |expired|
    ensures expired[i] in before && SweptRows(before, expired[..i])[expired[i]] == before[expired[i]]
    ensures !before[expired[i]].revoked
  {
    assert expired[i] in expired;
    assert expired[i] !in expired[..i];
  }

  lemma NothingSwept(before: map<TokenName, Row>, entries: set<Access>, expired: seq<TokenName>, clock: seq<int>)
    requires |clock| == |expired|
    ensures SweptRows(before, expired[..0]) == before
            && EntriesAfter(before, entries, expired[..0], clock[..0]) == entries
  {}

  lemma EntriesSnoc(before: map<TokenName, Row>, entries: set<Access>, expired: seq<TokenName>, clock: seq<int>, i: nat)
    requires |clock| == |expired| && i < |expired| && forall n <- expired :: n in before
    ensures forall n <- expired[..i] :: n in before
    ensures forall n <- expired[..i + 1] :: n in before
    ensures var access := before[expired[i]].access;
            EntriesAfter(before, entries, expired[..i + 1], clock[..i + 1]) ==
            EntriesAfter(before, entries, expired[..i], clock[..i])
            - if Needed(before, access, clock[i]) then {} else {access}
  {
    hide Needed;
    assert expired[..i + 1] == expired[..i] + [expired[i]] && clock[..i + 1] == clock[..i] + [clock[i]];
    forall a ensures Kept(before, a, expired[..i + 1], clock[..i + 1]) <==>
      Kept(before, a, expired[..i], clock[..i]) && (before[expired[i]].access == a ==> Needed(before, a, clock[i])) {
      assert forall k :: 0 <= k < i ==> expired[..i + 1][k] == expired[..i][k] && clock[..i + 1][k] == clock[..i][k];
      assert expired[..i + 1][i] == expired[i] && clock[..i + 1][i] == clock[i];
    }
  }

  /** An access that lost its last active token during the sweep while no revocation looked. */
  predicate Lingers(before: map<TokenName, Row>, a: Access, expired: seq<TokenName>, start: int, clock: seq<int>)
    requires |clock| == |expired| && forall n <- expired :: n in before
  {
    Needed(before, a, start) && !Needed(before, a, EndOf(start, clock)) && Kept(before, a, expired, clock)
  }

  ghost predicate NoneLingers(before: map<TokenName, Row>, expired: seq<TokenName>, start: int, clock: seq<int>)
    requires |clock| == |expired| && forall n <- expired :: n in before
  {
    forall a :: !Lingers(before, a, expired, start, clock)
  }

  lemma ActiveIsNeeded(rows: map<TokenName, Row>, t: int)
    ensures forall a :: a in ActiveAccesses(rows, t) <==> Needed(rows, a, t)
  {}

  /** Revoking what had expired takes no active access away. */
  lemma SweptStaysNeeded(before: map<TokenName, Row>, expired: seq<TokenName>, start: int, t: int)
    requires ExpiredAt(before, expired, start) && start <= t
    ensures forall a :: Needed(SweptRows(before, expired), a, t) <==> Needed(before, a, t)
  {
    var swept := SweptRows(before, expired);
    forall a ensures Needed(swept, a, t) <==> Needed(before, a, t) {
      if Needed(before, a, t) {
        var n :| n in before && before[n].access == a && Active(before[n], t);
        assert Active(swept[n], t);
      }
      if Needed(swept, a, t) {
        var n :| n in swept && swept[n].access == a && Active(swept[n], t);
        assert Active(before[n], t);
      }
    }
  }

  /** An entry that stays had an active token when the sweep started. */
  lemma KeptWasNeeded(before: map<TokenName, Row>, a: Access, expired: seq<TokenName>, start: int, clock: seq<int>)
    requires ExpiredAt(before, expired, start) && |clock| == |expired| && Onward(start, clock)
    requires forall n <- expired :: n in before
    requires a in UnrevokedAccesses(before) && Kept(before, a, expired, clock)
    ensures Needed(before, a, start)
  {
    var n :| n in before && !before[n].revoked && before[n].access == a;
    if before[n].expiresAt <= start {
      var i :| 0 <= i < |expired| && expired[i] == n;
      assert before[expired[i]].access == a;
      OnwardFrom(start, clock, i);
      var m :| m in before && before[m].access == a && Active(before[m], clock[i]);
      assert Active(before[m], start);
    } else {
      assert Active(before[n], start);
    }
  }

  /** An access needed at the end was needed at every revocation. */
  lemma NeededIsKept(before: map<TokenName, Row>, a: Access, expired: seq<TokenName>, start: int, clock: seq<int>)
    requires |clock| == |expired| && Onward(start, clock) && forall n <- expired :: n in before
    requires Needed(before, a, EndOf(start, clock))
    ensures Kept(before, a, expired, clock) && Needed(before, a, start)
  {
    var n :| n in before && before[n].access == a && Active(before[n], EndOf(start, clock));
    forall i | 0 <= i < |expired| ensures Needed(before, a, clock[i]) {
      OnwardFrom(start, clock, i);
      assert Active(before[n], clock[i]);
    }
    if clock != [] { OnwardFrom(start, clock, 0); }
    assert Active(before[n], start);
  }

  /**
   * Right after a sweep the entries lie between the accesses active at its end and at its start. They are exactly the
   * active ones if and only if no access lingers: its last tokens ran out during the sweep, and at each revocation of
   * one of its tokens, if there was any, another was still active.
   */
  lemma AfterSweepExactlyWhen(before: map<TokenName, Row>, entries: set<Access>, remote: set<TokenName>,
                              expired: seq<TokenName>, start: int, clock: seq<int>)
    requires Consistent(before, entries, remote, start)
    requires ExpiredAt(before, expired, start) && |clock| == |expired| && Onward(start, clock)
    ensures forall n <- expired :: n in before
    ensures var left, active := EntriesAfter(before, entries, expired, clock),
                                ActiveAccesses(SweptRows(before, expired), EndOf(start, clock));
            && active <= left <= ActiveAccesses(before, start)
            && (left == active <==> NoneLingers(before, expired, start, clock))
  {
    var end := EndOf(start, clock);
    if clock != [] { OnwardFrom(start, clock, 0); }
    ActiveIsNeeded(before, start);
    ActiveIsNeeded(SweptRows(before, expired), end);
    SweptStaysNeeded(before, expired, start, end);
    forall a ensures Needed(before, a, end) ==> Kept(before, a, expired, clock) && Needed(before, a, start) {
      if Needed(before, a, end) { NeededIsKept(before, a, expired, start, clock); }
    }
    forall a | a in UnrevokedAccesses(before) && Kept(before, a, expired, clock) ensures Needed(before, a, start) {
      KeptWasNeeded(before, a, expired, start, clock);
    }
    hide Needed, Kept, SweptRows, ActiveAccesses, UnrevokedAccesses;
    var left, active := EntriesAfter(before, entries, expired, clock), ActiveAccesses(SweptRows(before, expired), end);
    assert forall a :: Lingers(before, a, expired, start, clock) <==> a in left && a !in active;
  }

  const ONE := Access("meta-read", "owner", "one")
  const TWO := Access("meta-read", "owner", "two")

  /** Tokens that expire at 5 and at 8, a sweep that starts at 6 and revokes the first at 9: the second entry stays. */
  lemma SweepLeavesAnIdleEntry()
    ensures var before := map["first" := Row(ONE, 5, false), "second" := Row(TWO, 8, false)];
            && Consistent(before, {ONE, TWO}, {"first", "second"}, 6) && ExpiredAt(before, ["first"], 6)
            && EntriesAfter(before, {ONE, TWO}, ["first"], [9]) == {TWO}
            && ActiveAccesses(SweptRows(before, ["first"]), 9) == {}
  {
    var before := map["first" := Row(ONE, 5, false), "second" := Row(TWO, 8, false)];
    assert "first" != "second" && ONE != TWO;
    assert before["first"].access in UnrevokedAccesses(before) && before["second"].access in UnrevokedAccesses(before);
    assert Unrevoked(before) == {"first", "second"};
    assert ["first"][0] == "first";
    assert !Needed(before, ONE, 9);
    assert Kept(before, TWO, ["first"], [9]) && !Kept(before, ONE, ["first"], [9]);
  }

  /** Another token of the same access is neither revoked nor expired. */
  predicate StillUsed(rows: map<TokenName, Row>, name: TokenName, now: int)
    requires name in rows
  {
    exists n <- rows :: n != name && rows[n].access == rows[name].access && !rows[n].revoked && now < rows[n].expiresAt
  }

  /** Another token of the access that still counts, looked for after one was revoked. */
  lemma OthersAre(before: map<TokenName, Row>, after: map<TokenName, Row>, access: Access, now: int, name: TokenName)
    requires name in before && before[name].access == access && after == Revoke(before, name)
    ensures OthersActive(after, access, now, name) != {} <==>
              StillUsed(before, name, now)
  {
    if n :| n in before && n != name && before[n].access == access && !before[n].revoked && now < before[n].expiresAt {
      assert n in OthersActive(after, access, now, name);
    }
    if n :| n in OthersActive(after, access, now, name) {
      assert n in before && n != name && before[n] == after[n];
    }
  }

  lemma ClockMovesOn(start: int, clock: seq<int>, i: nat)
    requires Onward(start, clock) && i < |clock|
    ensures start <= clock[i] && (if i == 0 then start else clock[i - 1]) <= clock[i]
  {
    OnwardFrom(start, clock, i);
  }

  lemma EndIsLast(start: int, clock: seq<int>)
    ensures EndOf(start, clock) == if clock == [] then start else clock[|clock| - 1]
  {}

  lemma ValidIsConsistent(tokens: Tokens, now: int)
    requires tokens.Valid(now)
    ensures Consistent(tokens.rows, tokens.collaborators, tokens.remote, now)
  {}

  lemma StaysValid(tokens: Tokens, now: int, later: int)
    requires tokens.Valid(now) && now <= later
    ensures tokens.Valid(later)
  {
    ConsistentLater(tokens.rows, tokens.collaborators, tokens.remote, now, later);
  }

  /** One revocation of a sweep takes rows and entries one token further. */
  lemma SweepStep(before: map<TokenName, Row>, entries: set<Access>, rows: map<TokenName, Row>, after: map<TokenName,
                  Row>,
                  left: set<Access>, expired: seq<TokenName>, start: int, clock: seq<int>, i: nat)
    requires ExpiredAt(before, expired, start) && |clock| == |expired| && i < |expired| && start <= clock[i]
    requires forall n <- expired :: n in before
    requires rows == SweptRows(before, expired[..i]) && after == Revoke(rows, expired[i])
    requires forall n <- expired[..i] :: n in before
    requires var had := EntriesAfter(before, entries, expired[..i], clock[..i]);
             var access := before[expired[i]].access;
             left == if OthersActive(after, access, clock[i], expired[i]) == {} then had - {access} else had
    ensures after == SweptRows(before, expired[..i + 1])
    ensures forall n <- expired[..i + 1] :: n in before
    ensures left == EntriesAfter(before, entries, expired[..i + 1], clock[..i + 1])
  {
    hide SweptRows, Revoke, EntriesAfter, OthersActive, Needed, ExpiredAt;
    SweptSnoc(before, expired, i);
    CountIsNeed(before, expired, start, clock[i], i);
    EntriesSnoc(before, entries, expired, clock, i);
  }

  class Tokens {
    var rows: map<TokenName, Row>
    var collaborators: set<Access>
    var remote: set<TokenName>

    ghost predicate Valid(now: int)
      reads this
    {
      Consistent(rows, collaborators, remote, now)
    }

    constructor ()
      ensures rows == map[] && collaborators == {} && remote == {}
      ensures forall now :: Valid(now)
    {
      rows, collaborators, remote := map[], {}, {};
    }

    /** `mint_scoped_token`; `name` carries a nonce and is new. */
    method MintScopedToken(name: TokenName, access: Access, ttlSeconds: int, now: int)
      requires Valid(now) && name !in rows
      modifies this
      ensures Valid(now)
      ensures rows == old(rows)[name := Row(access, now + ttlSeconds, false)]
      ensures collaborators == old(collaborators) + {access} && remote == old(remote) + {name}
    {
      MintKeepsConsistent(rows, collaborators, remote, name, Row(access, now + ttlSeconds, false), now);
      collaborators := collaborators + {access};
      remote := remote + {name};
      rows := rows[name := Row(access, now + ttlSeconds, false)];
    }

    /** `revoke_token`: false only for an unknown name; revoking again changes nothing. */
    method RevokeToken(name: TokenName, now: int) returns (known: bool)
      requires Valid(now)
      modifies this
      ensures Valid(now) && known == (name in old(rows))
      ensures !known || old(rows)[name].revoked ==>
                rows == old(rows) && collaborators == old(collaborators) && remote == old(remote)
      ensures known ==> rows == Revoke(old(rows), name)
      ensures known && !old(rows)[name].revoked ==>
                var access := old(rows)[name].access;
                && remote == old(remote) - {name}
                && collaborators == if OthersActive(rows, access, now, name) == {} then old(collaborators) - {access}
                                    else old(collaborators)
      ensures known ==> rows == old(rows)[name := Row(old(rows)[name].access, old(rows)[name].expiresAt, true)]
      ensures known && !old(rows)[name].revoked ==>
                (old(rows)[name].access in collaborators <==>
                   old(rows)[name].access in old(collaborators) && StillUsed(old(rows), name, now))
    {
      if name !in rows {
        return false;
      }
      if rows[name].revoked {
        return true;
      }
      RevokeKeepsConsistent(rows, collaborators, remote, name, now);
      remote := remote - {name};
      rows := Revoke(rows, name);
      var access := rows[name].access;
      OthersAre(old(rows), rows, access, now, name);
      var remaining := |OthersActive(rows, access, now, name)|;
      if remaining == 0 {
        collaborators := collaborators - {access};
      }
      return true;
    }

    /**
     * `sweep_expired_tokens`: `expired` is what its query returned at `start`; the clock may move on before each of the
     * revocations (`clock[i]`). Afterwards every token that had expired at the start is revoked and nothing else is,
     * and the entries are exactly the active accesses if and only if none lingers.
     */
    method SweepExpiredTokens(expired: seq<TokenName>, start: int, clock: seq<int>) returns (revoked: nat)
      requires Valid(start) && |clock| == |expired| && ExpiredAt(rows, expired, start) && Onward(start, clock)
      modifies this
      ensures Valid(EndOf(start, clock))
      ensures revoked == |expired| && rows == SweptRows(old(rows), expired) && rows.Keys == old(rows).Keys
      ensures forall n <- rows :: var row := old(rows)[n];
                rows[n] == if !row.revoked && row.expiresAt <= start then Row(row.access, row.expiresAt, true) else row
      ensures (forall n <- expired :: n in old(rows))
              && collaborators == EntriesAfter(old(rows), old(collaborators), expired, clock)
      ensures ActiveAccesses(rows, EndOf(start, clock)) <= collaborators <= ActiveAccesses(old(rows), start)
      ensures collaborators == ActiveAccesses(rows, EndOf(start, clock)) <==>
              NoneLingers(old(rows), expired, start, clock)
    {
      hide *;
      ValidIsConsistent(this, start);
      AfterSweepExactlyWhen(rows, collaborators, remote, expired, start, clock);
      SweptAre(rows, expired, start);
      revoked := 0;
      ghost var now := start;
      NothingSwept(rows, collaborators, expired, clock);
      for i := 0 to |expired|
        invariant now == if i == 0 then start else clock[i - 1]
        invariant Valid(now) && revoked == i && rows == SweptRows(old(rows), expired[..i])
        invariant forall n <- expired[..i] :: n in old(rows)
        invariant collaborators == EntriesAfter(old(rows), old(collaborators), expired[..i], clock[..i])
      {
        ClockMovesOn(start, clock, i);
        StaysValid(this, now, clock[i]);
        now := clock[i];
        NotYetSwept(old(rows), expired, start, i);
        ghost var before := rows;
        var known := RevokeToken(expired[i], clock[i]);
        SweepStep(old(rows), old(collaborators), before, rows, collaborators, expired, start, clock, i);
        if known {
          revoked := revoked + 1;
        }
      }
      EndIsLast(start, clock);
      assert expired[..|expired|] == expired && clock[..|clock|] == clock;
    }
  }
}
