/** Signed workspace grants (`mint_grant_token` and `verify_grant_token` in grants.py). */
module Grants {
  import opened Common
  import opened Json
  import opened Base64Url
  import opened WritePrefixes
  import Utf8

  /** An ideal signature scheme: a signature checks for exactly the message it was made for. */
  datatype Signer = Signer(sign: Bytes -> Bytes, check: (Bytes, Bytes) -> bool)
  {
    ghost predicate Ideal()
    {
      forall signed, message :: check(sign(signed), message) <==> signed == message
    }
  }

  datatype Request = Request(
    issuer: string, audience: string, bucket: string, mode: string,
    allowPatterns: seq<string>, denyPatterns: seq<string>,
    outputsPrefix: Option<string>, writePrefixes: seq<string>,
    llmModels: seq<string>, llmMaxBudgetUsd: Json, llmRpmLimit: Option<int>, llmTpmLimit: Option<int>,
    sourceGrants: seq<Json>, ttlSeconds: int)

  function Strings(texts: seq<string>): (v: Json)
    ensures WellFormed(v) && v.List? && |v.items| == |texts|
    ensures forall i :: 0 <= i < |texts| ==> v.items[i] == Str(texts[i])
  {
    List(seq(|texts|, i requires 0 <= i < |texts| => Str(texts[i])))
  }

  function MaybeText(text: Option<string>): Json
  {
    if text.None? then Null else Str(text.value)
  }

  function MaybeInt(n: Option<int>): Json
  {
    if n.None? then Null else Int(n.value)
  }

  /** A dict display or a run of assignments: later entries overwrite earlier ones in place. */
  function Dict(entries: seq<Field>): seq<Field>
  {
    if entries == [] then []
    else Put(Dict(entries[..|entries| - 1]), entries[|entries| - 1].key, entries[|entries| - 1].value)
  }

  function Entries(request: Request, now: int, grantId: string, nonce: string): seq<Field>
  {
    [ Field("grant_id", Str(grantId)),
      Field("issuer", Str(request.issuer)),
      Field("audience", Str(request.audience)),
      Field("bucket", Str(request.bucket)),
      Field("mode", Str(request.mode)),
      Field("allow_patterns", Strings(request.allowPatterns)),
      Field("deny_patterns", Strings(request.denyPatterns)),
      Field("outputs_prefix", MaybeText(request.outputsPrefix)),
      Field("write_prefixes", Strings(Normalized(request.outputsPrefix, request.writePrefixes))),
      Field("llm_models", Strings(request.llmModels)),
      Field("llm_max_budget_usd", request.llmMaxBudgetUsd),
      Field("llm_rpm_limit", MaybeInt(request.llmRpmLimit)),
      Field("llm_tpm_limit", MaybeInt(request.llmTpmLimit)),
      Field("expires_at", Int(now + request.ttlSeconds)),
      Field("issued_at", Int(now)),
      Field("nonce", Str(nonce)),
      Field("source_grants", List(request.sourceGrants)) ]
  }

  function Token(body: Bytes, sig: Bytes): string
  {
    B64(body) + "." + B64(sig)
  }

  /** `mint_grant_token`: the token and the payload it carries. */
  function Mint(codec: Codec, signer: Signer, request: Request, now: int, grantId: string, nonce: string)
    : (string, Json)
  {
    var payload := Obj(Dict(Entries(request, now, grantId, nonce)));
    var body := Utf8.Encode(codec.print_(payload));
    (Token(body, signer.sign(body)), payload)
  }

  datatype Refusal = Malformed | Undecodable | Forged | NotJson | Expired | Crash
  datatype Verdict = Accepted(grant: Json) | Refused(why: Refusal)

  predicate Truthy(v: Json)
  {
    match v
    case Null => false
    case Bool(flag) => flag
    case Int(n) => n != 0
    case Float(d) => d != NegativeZero && !(d.Finite? && d.mantissa == 0)
    case Str(text) => text != ""
    case List(items) => items != []
    case Obj(fields) => fields != []
  }

  predicate Has(fields: seq<Field>, key: string)
  {
    Get(fields, key).Some? && Truthy(Get(fields, key).value)
  }

  function LastDot(token: string): (i: nat)
    requires '.' in token
    ensures i < |token| && token[i] == '.' && '.' !in token[i + 1..]
  {
    if token[|token| - 1] == '.' then |token| - 1 else LastDot(token[..|token| - 1])
  }

  /** What compares to an integer without a `TypeError`. */
  predicate Comparable(v: Json)
  {
    v.Int? || v.Float? || v.Bool?
  }

  /** `value < now` */
  predicate Earlier(v: Json, now: int)
    requires Comparable(v)
  {
    match v
    case Int(n) => n < now
    case Float(d) => Below(d, now)
    case Bool(flag) => (if flag then 1 else 0) < now
  }

  /** The expiry check and the refill of `write_prefixes`; `asText` is `str` on values that are no strings. */
  function Admit(fields: seq<Field>, now: int, asText: Json -> string): Verdict
  {
    if Has(fields, "expires_at") && !Comparable(Get(fields, "expires_at").value) then Refused(Crash)
    else if Has(fields, "expires_at") && Earlier(Get(fields, "expires_at").value, now) then Refused(Expired)
    else if !Has(fields, "write_prefixes") && Has(fields, "outputs_prefix") then
      var outputs := Get(fields, "outputs_prefix").value;
      var prefix := if outputs.Str? then outputs.text else asText(outputs);
      Accepted(Obj(Put(fields, "write_prefixes", Strings(Normalized(Some(prefix), [])))))
    else Accepted(Obj(fields))
  }

  /** `verify_grant_token` */
  function Verify(codec: Codec, signer: Signer, token: string, now: int, asText: Json -> string): Verdict
  {
    if '.' !in token then Refused(Malformed)
    else
      var body, sig := B64D(token[..LastDot(token)]), B64D(token[LastDot(token) + 1..]);
      if body.None? || sig.None? then Refused(Undecodable)
      else if !signer.check(sig.value, body.value) then Refused(Forged)
      else
        var text := Utf8.Decode(body.value);
        if text.None? then Refused(Crash)
        else
          var data := codec.parse(text.value);
          if data.None? then Refused(NotJson)
          else if !data.value.Obj? then Refused(Crash)
          else Admit(data.value.fields, now, asText)
  }

  lemma {:induction false} DictWellFormed(entries: seq<Field>)
    requires forall f <- entries :: WellFormed(f.value)
    ensures WellFormed(Obj(Dict(entries)))
    decreases |entries|
  {
    if entries != [] {
      var front, last := entries[..|entries| - 1], entries[|entries| - 1];
      DictWellFormed(front);
      UniqueAfterPut(Dict(front), last.key, last.value);
      assert last in entries;
    }
  }

  /** Writing what a key already holds changes nothing. */
  lemma {:induction false} PutSame(fields: seq<Field>, key: string, value: Json)
    requires Get(fields, key) == Some(value)
    ensures Put(fields, key, value) == fields
  {
    if fields[0].key != key {
      PutSame(fields[1..], key, value);
    }
  }

  // The seventeen keys are told apart by their length, their first and their fifth letter.

  function KeyCode(key: string): int
    requires key != ""
  {
    |key| * 1_000_000 + key[0] as int * 1_000 + key[if |key| > 4 then 4 else |key| - 1] as int
  }

  function KeyCodes(): (codes: seq<int>)
    ensures |codes| == 17
  {
    [8_103_116, 6_105_101, 8_097_101, 6_098_101, 4_109_101, 14_097_119, 13_100_095, 14_111_117, 14_119_101,
     10_108_109, 18_108_109, 13_108_114, 13_108_116, 10_101_114, 9_105_101, 5_110_101, 13_115_099]
  }

  lemma EntriesCoded(request: Request, now: int, grantId: string, nonce: string)
    ensures var entries := Entries(request, now, grantId, nonce);
            |entries| == 17 && forall i ::
                0 <= i < 17 ==> entries[i].key != "" && KeyCode(entries[i].key) == KeyCodes()[i]
  {
    hide Normalized, Strings, MaybeText, MaybeInt;
  }

  lemma CodesDiffer()
    ensures forall i, j :: 0 <= i < j < 17 ==> KeyCodes()[i] != KeyCodes()[j]
  {}

  lemma EntriesDistinct(request: Request, now: int, grantId: string, nonce: string)
    ensures UniqueKeys(Entries(request, now, grantId, nonce)) && |Entries(request, now, grantId, nonce)| == 17
  {
    hide Entries, KeyCode, KeyCodes;
    EntriesCoded(request, now, grantId, nonce);
    CodesDiffer();
    var entries := Entries(request, now, grantId, nonce);
    forall i, j | 0 <= i < j < |entries| ensures entries[i].key != entries[j].key {
      assert KeyCode(entries[i].key) == KeyCodes()[i] && KeyCode(entries[j].key) == KeyCodes()[j];
    }
  }

  /** A dict of distinct keys holds its entries in order. */
  lemma {:induction false} DictOfDistinct(entries: seq<Field>)
    requires UniqueKeys(entries)
    ensures Dict(entries) == entries
    decreases |entries|
  {
    if entries != [] {
      var front, last := entries[..|entries| - 1], entries[|entries| - 1];
      assert entries == front + [last];
      DictOfDistinct(front);
      forall f <- front ensures f.key != last.key {
        var i :| 0 <= i < |front| && front[i] == f;
        assert entries[i].key != entries[|entries| - 1].key;
      }
    }
  }

  /** What a payload has to hold for a request, key by key. */
  ghost predicate Carries(fields: seq<Field>, request: Request, now: int, grantId: string, nonce: string)
  {
    && |fields| == 17 && UniqueKeys(fields)
    && Get(fields, "grant_id") == Some(Str(grantId))
    && Get(fields, "issuer") == Some(Str(request.issuer))
    && Get(fields, "audience") == Some(Str(request.audience))
    && Get(fields, "bucket") == Some(Str(request.bucket))
    && Get(fields, "mode") == Some(Str(request.mode))
    && Get(fields, "allow_patterns") == Some(Strings(request.allowPatterns))
    && Get(fields, "deny_patterns") == Some(Strings(request.denyPatterns))
    && Get(fields, "outputs_prefix")
         == Some(if request.outputsPrefix.Some? then Str(request.outputsPrefix.value) else Null)
    && Get(fields, "write_prefixes") == Some(Strings(Normalized(request.outputsPrefix, request.writePrefixes)))
    && Get(fields, "llm_models") == Some(Strings(request.llmModels))
    && Get(fields, "llm_max_budget_usd") == Some(request.llmMaxBudgetUsd)
    && Get(fields, "llm_rpm_limit") == Some(if request.llmRpmLimit.Some? then Int(request.llmRpmLimit.value) else Null)
    && Get(fields, "llm_tpm_limit") == Some(if request.llmTpmLimit.Some? then Int(request.llmTpmLimit.value) else Null)
    && Get(fields, "expires_at") == Some(Int(now + request.ttlSeconds))
    && Get(fields, "issued_at") == Some(Int(now))
    && Get(fields, "nonce") == Some(Str(nonce))
    && Get(fields, "source_grants") == Some(List(request.sourceGrants))
  }

  lemma IdentityEntries(request: Request, now: int, grantId: string, nonce: string)
    ensures var entries := Entries(request, now, grantId, nonce);
            && |entries| == 17
            && entries[0] == Field("grant_id", Str(grantId))
            && entries[1] == Field("issuer", Str(request.issuer))
            && entries[2] == Field("audience", Str(request.audience))
            && entries[3] == Field("bucket", Str(request.bucket))
            && entries[4] == Field("mode", Str(request.mode))
  {
    hide Normalized, Strings;
  }

  lemma PathEntries(request: Request, now: int, grantId: string, nonce: string)
    ensures var entries := Entries(request, now, grantId, nonce);
            && |entries| == 17
            && entries[5] == Field("allow_patterns", Strings(request.allowPatterns))
            && entries[6] == Field("deny_patterns", Strings(request.denyPatterns))
            && entries[7]
                 == Field("outputs_prefix", if request.outputsPrefix.Some? then Str(request.outputsPrefix.value)
                          else Null)
            && entries[8] == Field("write_prefixes", Strings(Normalized(request.outputsPrefix, request.writePrefixes)))
  {
    hide Normalized, Strings;
  }

  lemma LimitEntries(request: Request, now: int, grantId: string, nonce: string)
    ensures var entries := Entries(request, now, grantId, nonce);
            && |entries| == 17
            && entries[9] == Field("llm_models", Strings(request.llmModels))
            && entries[10] == Field("llm_max_budget_usd", request.llmMaxBudgetUsd)
            && entries[11]
                 == Field("llm_rpm_limit", if request.llmRpmLimit.Some? then Int(request.llmRpmLimit.value) else Null)
            && entries[12]
                 == Field("llm_tpm_limit", if request.llmTpmLimit.Some? then Int(request.llmTpmLimit.value) else Null)
  {
    hide Normalized, Strings;
  }

  lemma TimeEntries(request: Request, now: int, grantId: string, nonce: string)
    ensures var entries := Entries(request, now, grantId, nonce);
            && |entries| == 17
            && entries[13] == Field("expires_at", Int(now + request.ttlSeconds))
            && entries[14] == Field("issued_at", Int(now))
            && entries[15] == Field("nonce", Str(nonce))
            && entries[16] == Field("source_grants", List(request.sourceGrants))
  {
    hide Normalized, Strings;
  }

  lemma Reads(entries: seq<Field>, i: nat, key: string, value: Json)
    requires UniqueKeys(entries) && i < |entries| && entries[i] == Field(key, value)
    ensures Get(entries, key) == Some(value)
  {
    GetAt(entries, i);
  }

  lemma MintedIs(codec: Codec, signer: Signer, request: Request, now: int, grantId: string, nonce: string)
    ensures var payload := Obj(Dict(Entries(request, now, grantId, nonce)));
            var body := Utf8.Encode(codec.print_(payload));
            Mint(codec, signer, request, now, grantId, nonce) == (Token(body, signer.sign(body)), payload)
  {
    hide Dict, Entries, Token;
  }

  /** The payload of a minted token holds what was asked for under each of its seventeen keys, and nothing else. */
  lemma MintedCarries(codec: Codec, signer: Signer, request: Request, now: int, grantId: string, nonce: string)
    ensures var payload := Mint(codec, signer, request, now, grantId, nonce).1;
            payload.Obj? && Carries(payload.fields, request, now, grantId, nonce)
  {
    hide UniqueKeys, Dict, Get, Normalized, Strings, Mint, Entries;
    MintedIs(codec, signer, request, now, grantId, nonce);
    EntriesCarry(request, now, grantId, nonce);
    EntriesDistinct(request, now, grantId, nonce);
    DictOfDistinct(Entries(request, now, grantId, nonce));
    hide Carries;
  }

  lemma EntriesCarry(request: Request, now: int, grantId: string, nonce: string)
    ensures Carries(Entries(request, now, grantId, nonce), request, now, grantId, nonce)
  {
    hide UniqueKeys, Get, Normalized, Strings, Entries;
    var entries := Entries(request, now, grantId, nonce);
    EntriesDistinct(request, now, grantId, nonce);
    IdentityEntries(request, now, grantId, nonce);
    PathEntries(request, now, grantId, nonce);
    LimitEntries(request, now, grantId, nonce);
    TimeEntries(request, now, grantId, nonce);
    Reads(entries, 0, "grant_id", Str(grantId));
    Reads(entries, 1, "issuer", Str(request.issuer));
    Reads(entries, 2, "audience", Str(request.audience));
    Reads(entries, 3, "bucket", Str(request.bucket));
    Reads(entries, 4, "mode", Str(request.mode));
    Reads(entries, 5, "allow_patterns", Strings(request.allowPatterns));
    Reads(entries, 6, "deny_patterns", Strings(request.denyPatterns));
    Reads(entries, 7, "outputs_prefix", if request.outputsPrefix.Some? then Str(request.outputsPrefix.value) else Null);
    Reads(entries, 8, "write_prefixes", Strings(Normalized(request.outputsPrefix, request.writePrefixes)));
    Reads(entries, 9, "llm_models", Strings(request.llmModels));
    Reads(entries, 10, "llm_max_budget_usd", request.llmMaxBudgetUsd);
    Reads(entries, 11, "llm_rpm_limit", if request.llmRpmLimit.Some? then Int(request.llmRpmLimit.value) else Null);
    Reads(entries, 12, "llm_tpm_limit", if request.llmTpmLimit.Some? then Int(request.llmTpmLimit.value) else Null);
    Reads(entries, 13, "expires_at", Int(now + request.ttlSeconds));
    Reads(entries, 14, "issued_at", Int(now));
    Reads(entries, 15, "nonce", Str(nonce));
    Reads(entries, 16, "source_grants", List(request.sourceGrants));
  }

  lemma CarriesPrefixes(fields: seq<Field>, request: Request, now: int, grantId: string, nonce: string)
    requires Carries(fields, request, now, grantId, nonce)
    ensures Get(fields, "outputs_prefix") == Some(MaybeText(request.outputsPrefix))
    ensures Get(fields, "write_prefixes") == Some(Strings(Normalized(request.outputsPrefix, request.writePrefixes)))
    ensures Get(fields, "expires_at") == Some(Int(now + request.ttlSeconds))
  {}

  /** Refilling a payload whose own prefixes normalised to nothing writes nothing back. */
  lemma RefillChangesNothing(fields: seq<Field>, outputs: Option<string>, writes: seq<string>)
    requires Get(fields, "outputs_prefix") == Some(MaybeText(outputs)) && Has(fields, "outputs_prefix")
    requires Get(fields, "write_prefixes") == Some(Strings(Normalized(outputs, writes)))
             && !Has(fields, "write_prefixes")
    ensures Put(fields, "write_prefixes", Strings(Normalized(outputs, []))) == fields
  {
    hide Put, Get;
    EmptyStaysEmpty(outputs, writes);
    PutSame(fields, "write_prefixes", Strings([]));
  }

  /** The verifier's checks on a minted payload: an expiry of zero is no expiry, and the refill changes nothing. */
  lemma AdmitMinted(fields: seq<Field>, request: Request, expires: int, later: int, asText: Json -> string)
    requires Get(fields, "outputs_prefix") == Some(MaybeText(request.outputsPrefix))
    requires Get(fields, "write_prefixes") == Some(Strings(Normalized(request.outputsPrefix, request.writePrefixes)))
    requires Get(fields, "expires_at") == Some(Int(expires))
    ensures Admit(fields, later, asText) ==
            if expires == 0 || later <= expires then Accepted(Obj(fields)) else Refused(Expired)
  {
    hide Put, Get, Normalized, Strings;
    if !Has(fields, "write_prefixes") && Has(fields, "outputs_prefix") {
      RefillChangesNothing(fields, request.outputsPrefix, request.writePrefixes);
    }
  }

  lemma {:induction false} LastDotAt(front: string, back: string)
    requires '.' !in back
    ensures LastDot(front + "." + back) == |front|
    decreases |back|
  {
    var token := front + "." + back;
    assert token[|front|] == '.';
    if back != "" {
      assert token[|token| - 1] == back[|back| - 1] && back[|back| - 1] in back;
      assert token[..|token| - 1] == front + "." + back[..|back| - 1];
      LastDotAt(front, back[..|back| - 1]);
    }
  }

  /** Splitting at the last dot gives the body and its signature back. */
  lemma TokenParts(body: Bytes, sig: Bytes)
    ensures var token := Token(body, sig);
            && '.' in token
            && B64D(token[..LastDot(token)]) == Some(body)
            && B64D(token[LastDot(token) + 1..]) == Some(sig)
  {
    hide B64, B64D;
    var front, back := B64(body), B64(sig);
    var token := Token(body, sig);
    B64RoundTrip(body);
    B64RoundTrip(sig);
    assert token[|front|] == '.';
    LastDotAt(front, back);
    assert token[..|front|] == front && token[|front| + 1..] == back;
  }

  /** A signed object reaches the last checks as it was. */
  lemma SignedReachesAdmit(codec: Codec, signer: Signer, fields: seq<Field>, later: int, asText: Json -> string)
    requires codec.Faithful() && signer.Ideal() && WellFormed(Obj(fields))
    ensures var body := Utf8.Encode(codec.print_(Obj(fields)));
            Verify(codec, signer, Token(body, signer.sign(body)), later, asText) == Admit(fields, later, asText)
  {
    hide B64D, LastDot, Token, Admit;
    var text := codec.print_(Obj(fields));
    Utf8.DecodeEncode(text);
    TokenParts(Utf8.Encode(text), signer.sign(Utf8.Encode(text)));
  }

  /**
   * A minted token verifies to the very payload it was minted with, up to and including its expiry second, and is
   * refused as expired at any later time; with an expiry of zero it never expires.
   */
  lemma MintThenVerify(codec: Codec, signer: Signer, request: Request, now: int, grantId: string, nonce: string,
                       later: int, asText: Json -> string)
    requires codec.Faithful() && signer.Ideal()
    requires (forall grant <- request.sourceGrants :: WellFormed(grant)) && WellFormed(request.llmMaxBudgetUsd)
    ensures var (token, payload) := Mint(codec, signer, request, now, grantId, nonce);
            Verify(codec, signer, token, later, asText) ==
            if now + request.ttlSeconds == 0 || later <= now + request.ttlSeconds then Accepted(payload)
            else Refused(Expired)
  {
    hide *;
    MintedIs(codec, signer, request, now, grantId, nonce);
    var fields := Dict(Entries(request, now, grantId, nonce));
    EntriesWellFormed(request, now, grantId, nonce);
    MintedCarries(codec, signer, request, now, grantId, nonce);
    CarriesPrefixes(fields, request, now, grantId, nonce);
    SignedReachesAdmit(codec, signer, fields, later, asText);
    AdmitMinted(fields, request, now + request.ttlSeconds, later, asText);
  }

  lemma EntriesWellFormed(request: Request, now: int, grantId: string, nonce: string)
    requires (forall grant <- request.sourceGrants :: WellFormed(grant)) && WellFormed(request.llmMaxBudgetUsd)
    ensures WellFormed(Obj(Dict(Entries(request, now, grantId, nonce))))
  {
    hide Dict, Normalized, WellFormed, Strings;
    var entries := Entries(request, now, grantId, nonce);
    ListIsWellFormed(request.sourceGrants);
    forall i | 0 <= i < |entries| ensures WellFormed(entries[i].value) {
      if entries[i].value.Str? || entries[i].value.Null? || entries[i].value.Int? {
        ScalarsAreWellFormed(entries[i].value);
      }
    }
    DictWellFormed(entries);
  }

  lemma ListIsWellFormed(items: seq<Json>)
    requires forall item <- items :: WellFormed(item)
    ensures WellFormed(List(items))
  {}

  lemma ScalarsAreWellFormed(v: Json)
    requires v.Str? || v.Null? || v.Int?
    ensures WellFormed(v)
  {}

  /** Putting any other body in front of a signature is refused as forged, whatever the body says. */
  lemma AnotherBodyIsForged(codec: Codec, signer: Signer, signed: Bytes, body: Bytes, now: int, asText: Json -> string)
    requires signer.Ideal() && body != signed
    ensures Verify(codec, signer, Token(body, signer.sign(signed)), now, asText) == Refused(Forged)
  {
    hide B64, B64D, LastDot, Token;
    TokenParts(body, signer.sign(signed));
  }

  /** The two sides of the last dot decode, the signature checks, and the body is text of a JSON object. */
  ghost predicate Genuine(codec: Codec, signer: Signer, token: string, front: string, back: string, body: Bytes,
                          sig: Bytes,
                          fields: seq<Field>)
  {
    && token == front + "." + back && '.' !in back && B64D(front) == Some(body) && B64D(back) == Some(sig)
    && signer.check(sig, body) && Utf8.Decode(body).Some? && codec.parse(Utf8.Decode(body).value) == Some(Obj(fields))
  }

  /** No expiry, or one that compares to a number and is not past. */
  predicate Unexpired(fields: seq<Field>, now: int)
  {
    var expiry := Get(fields, "expires_at");
    expiry.None? || !Truthy(expiry.value) || (Comparable(expiry.value) && !Earlier(expiry.value, now))
  }

  /** The payload as it is, but for write prefixes that are missing or empty and follow from the outputs prefix. */
  ghost predicate AcceptedAs(fields: seq<Field>, grant: Json, asText: Json -> string)
  {
    var writes, outputs := Get(fields, "write_prefixes"), Get(fields, "outputs_prefix");
    if (writes.Some? && Truthy(writes.value)) || outputs.None? || !Truthy(outputs.value) then grant == Obj(fields)
    else
      && grant.Obj?
      && forall key :: Get(grant.fields, key) ==
           if key == "write_prefixes"
           then Some(Strings(Normalized(Some(if outputs.value.Str? then outputs.value.text else asText(outputs.value)),
                                        [])))
           else Get(fields, key)
  }

  lemma SplitAtLastDot(token: string)
    requires '.' in token
    ensures var i := LastDot(token); token == token[..i] + "." + token[i + 1..] && '.' !in token[i + 1..]
  {}

  lemma AdmitExactly(fields: seq<Field>, now: int, asText: Json -> string)
    ensures Admit(fields, now, asText).Accepted? <==> Unexpired(fields, now)
    ensures Admit(fields, now, asText).Accepted? ==> AcceptedAs(fields, Admit(fields, now, asText).grant, asText)
  {
    hide Truthy, Comparable, Earlier, Normalized, Strings, Get, Put;
    if Admit(fields, now, asText).Accepted? && !Has(fields, "write_prefixes") && Has(fields, "outputs_prefix") {
      var outputs := Get(fields, "outputs_prefix").value;
      var value := Strings(Normalized(Some(if outputs.Str? then outputs.text else asText(outputs)), []));
      forall key ensures Get(Put(fields, "write_prefixes", value), key) ==
                         if key == "write_prefixes" then Some(value) else Get(fields, key) {
        GetAfterPut(fields, "write_prefixes", value, key);
      }
    }
  }

  lemma VerifyGenuine(codec: Codec, signer: Signer, token: string, now: int, asText: Json -> string, front: string,
                      back: string, body: Bytes, sig: Bytes, fields: seq<Field>)
    requires Genuine(codec, signer, token, front, back, body, sig, fields)
    ensures Verify(codec, signer, token, now, asText) == Admit(fields, now, asText)
  {
    hide B64D, Admit, LastDot;
    LastDotAt(front, back);
    assert token[|front|] == '.';
    assert token[..|front|] == front && token[|front| + 1..] == back;
  }

  /** A token is accepted exactly when it is genuine and has not expired, and then as its own payload. */
  lemma AcceptedExactlyWhen(codec: Codec, signer: Signer, token: string, now: int, asText: Json -> string)
    ensures var verdict := Verify(codec, signer, token, now, asText);
            && (verdict.Accepted? <==>
                  exists front, back, body, sig, fields ::
                    Genuine(codec, signer, token, front, back, body, sig, fields) && Unexpired(fields, now))
            && forall front, back, body, sig, fields ::
                 verdict.Accepted? && Genuine(codec, signer, token, front, back, body, sig, fields) ==>
                   AcceptedAs(fields, verdict.grant, asText)
  {
    var verdict := Verify(codec, signer, token, now, asText);
    hide B64D, Admit, LastDot, AcceptedAs, Unexpired, Verify, Genuine;
    forall front, back, body, sig, fields | Genuine(codec, signer, token, front, back, body, sig, fields)
      ensures (verdict.Accepted? <==> Unexpired(fields, now))
              && (verdict.Accepted? ==> AcceptedAs(fields, verdict.grant, asText))
    {
      VerifyGenuine(codec, signer, token, now, asText, front, back, body, sig, fields);
      AdmitExactly(fields, now, asText);
    }
    if verdict.Accepted? {
      AcceptedIsGenuine(codec, signer, token, now, asText);
    }
  }

  lemma AcceptedIsGenuine(codec: Codec, signer: Signer, token: string, now: int, asText: Json -> string)
    requires Verify(codec, signer, token, now, asText).Accepted?
    ensures exists front, back, body, sig, fields :: Genuine(codec, signer, token, front, back, body, sig, fields)
  {
    hide B64D, Admit, LastDot;
    SplitAtLastDot(token);
    var front, back := token[..LastDot(token)], token[LastDot(token) + 1..];
    var body, sig := B64D(front).value, B64D(back).value;
    var data := codec.parse(Utf8.Decode(body).value).value;
    assert Genuine(codec, signer, token, front, back, body, sig, data.fields);
  }
}
