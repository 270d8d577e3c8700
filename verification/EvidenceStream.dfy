/**
 * The evidence stream of agent_ingress.py: judging each frame (`_sanitize_sse_frame`) and the generator
 * `evidence_sse` that forwards frames and closes with one gateway evidence event.
 */
module EvidenceStream {
  import opened Common
  import opened Json
  import opened EvidenceStripping
  import opened SseFraming
  import opened SseValues
  import opened Utf8

  const EVIDENCE_EVENT_KINDS: set<string> := {"receipt_sealed", "replay_sealed", "receipt_error"}
  const DONE := "[DONE]"

  datatype Verdict = Forward(frame: Bytes) | Drop | Done

  predicate IsEvidence(v: Json)
  {
    v.Obj? && Get(v.fields, "type") == Some(Str("a2a.evidence"))
  }

  predicate IsEvidenceEvent(v: Json)
  {
    && v.Obj? && Get(v.fields, "type") == Some(Str("event"))
    && Get(v.fields, "kind").Some? && Get(v.fields, "kind").value.Str?
    && Get(v.fields, "kind").value.text in EVIDENCE_EVENT_KINDS
  }

  function GatewayFrame(codec: Codec, event: Json): Bytes
  {
    Encode(DataFrame(codec.print_(event)))
  }

  function JudgeValues(codec: Codec, values: seq<string>, frame: Bytes): Verdict
  {
    if values == [] then Forward(frame)
    else
      var payload := codec.parse(values[0]);
      if payload.None? then JudgeValues(codec, values[1..], frame)
      else if IsEvidence(payload.value) || IsEvidenceEvent(payload.value) then Drop
      else if payload.value.Obj? && Strip(payload.value).changed then
        Forward(GatewayFrame(codec, Strip(payload.value).value))
      else JudgeValues(codec, values[1..], frame)
  }

  /** `_sanitize_sse_frame` */
  function Sanitize(codec: Codec, frame: Bytes): Verdict
  {
    var text := Decode(frame);
    if text.None? then Forward(frame)
    else
      var values := DataValues(text.value);
      if DONE in values then Done else JudgeValues(codec, values, frame)
  }

  /**
   * A value a client may see from the agent: not the end mark, not gateway evidence, and no reserved key at any depth
   * of a payload that is an object. Payloads that are no objects are not looked into.
   */
  predicate Harmless(codec: Codec, value: string)
  {
    && value != DONE
    && (codec.parse(value).Some? ==>
          var v := codec.parse(value).value;
          !IsEvidence(v) && !IsEvidenceEvent(v) && (v.Obj? ==> !HasReserved(v)))
  }

  lemma StrippedStaysOrdinary(v: Json)
    requires WellFormed(v) && v.Obj? && !IsEvidence(v) && !IsEvidenceEvent(v)
    ensures var after := Strip(v).value;
            after.Obj? && WellFormed(after) && !IsEvidence(after) && !IsEvidenceEvent(after) && !HasReserved(after)
  {
    StripChanges(v);
    StripWellFormed(v);
    KeptText(v.fields, "type");
    KeptText(v.fields, "kind");
    hide Get, HasReserved, WellFormed, StripFields;
  }

  /** Stripping neither adds nor alters text under a key of the object itself. */
  lemma KeptText(fields: seq<Field>, name: string)
    requires UniqueKeys(fields)
    ensures var after := Get(StripFields(fields).fields, name);
            after.Some? && after.value.Str? ==> Get(fields, name) == after
  {
    GetAfterStrip(fields, name);
    hide Get, StripFields;
  }

  /** A frame the gateway writes itself reads back as the one event it holds. */
  lemma GatewayFrameReadsBack(codec: Codec, fields: seq<Field>)
    requires codec.Faithful()
    ensures var text := DataFrame(codec.print_(Obj(fields)));
            Decode(GatewayFrame(codec, Obj(fields))) == Some(text) && DataValues(text) == [codec.print_(Obj(fields))]
  {
    var printed := codec.print_(Obj(fields));
    assert PrintsOnOneLine(printed);
    DecodeEncode(DataFrame(printed));
    DataFrameReadsBack(printed);
  }

  /** The payload for which the gateway writes a frame of its own. */
  lemma RewrittenIsHarmless(codec: Codec, v: Json)
    requires codec.Faithful() && WellFormed(v) && v.Obj? && !IsEvidence(v) && !IsEvidenceEvent(v)
    ensures var after := Strip(v).value;
            after.Obj? && WellFormed(after) && Harmless(codec, codec.print_(after))
  {
    StrippedStaysOrdinary(v);
    var after := Strip(v).value;
    assert codec.parse(codec.print_(after)) == Some(after);
    hide Strip, IsEvidence, IsEvidenceEvent, HasReserved, WellFormed;
  }

  /** What is forwarded for a text frame is text again, ends with a blank line again, and holds only harmless values. */
  lemma {:induction false} JudgedValuesHarmless(codec: Codec, values: seq<string>, frame: Bytes)
    requires codec.Faithful() && DONE !in values
    ensures match JudgeValues(codec, values, frame)
            case Forward(out) =>
              || (out == frame && forall value <- values :: Harmless(codec, value))
              || (exists fields :: out == GatewayFrame(codec, Obj(fields)) && WellFormed(Obj(fields))
                                   && Harmless(codec, codec.print_(Obj(fields))))
            case _ => true
  {
    if values != [] {
      var payload := codec.parse(values[0]);
      JudgedValuesHarmless(codec, values[1..], frame);
      assert values == [values[0]] + values[1..];
      if payload.Some? && payload.value.Obj? && !IsEvidence(payload.value) && !IsEvidenceEvent(payload.value) {
        StripChanges(payload.value);
        RewrittenIsHarmless(codec, payload.value);
        assert Strip(payload.value).value == Obj(Strip(payload.value).value.fields);
      }
      hide Strip, IsEvidence, IsEvidenceEvent, HasReserved, WellFormed, GatewayFrame;
    }
  }

  lemma ForwardedFrame(codec: Codec, frame: Bytes)
    requires codec.Faithful() && Decode(frame).Some? && Sanitize(codec, frame).Forward?
    ensures var out := Decode(Sanitize(codec, frame).frame);
            && out.Some? && (forall value <- DataValues(out.value) :: Harmless(codec, value))
            && (EndsWithBlankLine(Decode(frame).value) ==> EndsWithBlankLine(out.value))
  {
    hide Decode, DataValues, EndsWithBlankLine, Harmless;
    JudgedValuesHarmless(codec, DataValues(Decode(frame).value), frame);
    var out := Sanitize(codec, frame).frame;
    if out != frame || !(forall value <- DataValues(Decode(frame).value) :: Harmless(codec, value)) {
      var fields :| out == GatewayFrame(codec, Obj(fields)) && Harmless(codec, codec.print_(Obj(fields)));
      GatewayFrameReadsBack(codec, fields);
    }
  }

  lemma {:induction false} HarmlessValuesPass(codec: Codec, values: seq<string>, frame: Bytes)
    requires forall value <- values :: Harmless(codec, value)
    ensures JudgeValues(codec, values, frame) == Forward(frame)
  {
    if values != [] {
      var payload := codec.parse(values[0]);
      assert Harmless(codec, values[0]);
      if payload.Some? {
        StripChanges(payload.value);
      }
      HarmlessValuesPass(codec, values[1..], frame);
    }
  }

  /** Sanitising is idempotent: a forwarded frame, sanitised again, is forwarded unchanged. */
  lemma SanitizeTwice(codec: Codec, frame: Bytes)
    requires codec.Faithful() && Sanitize(codec, frame).Forward?
    ensures Sanitize(codec, Sanitize(codec, frame).frame) == Sanitize(codec, frame)
  {
    if Decode(frame).Some? {
      ForwardedFrame(codec, frame);
      var out := Sanitize(codec, frame).frame;
      HarmlessValuesPass(codec, DataValues(Decode(out).value), out);
    }
  }

  /** A reserved key occurs somewhere in the value's payload, whatever the payload is. */
  predicate HoldsReserved(codec: Codec, value: string)
  {
    codec.parse(value).Some? && HasReserved(codec.parse(value).value)
  }

  predicate SomeHoldsReserved(codec: Codec, values: seq<string>)
  {
    exists value <- values :: HoldsReserved(codec, value)
  }

  predicate AllHarmless(codec: Codec, values: seq<string>)
  {
    forall value <- values :: Harmless(codec, value)
  }

  /**
   * A forwarded text frame still holds a reserved key exactly when nothing in it had to be rewritten and some payload
   * has one, and then that payload is not an object.
   */
  lemma ReservedKeySurvivesExactlyWhen(codec: Codec, frame: Bytes)
    requires codec.Faithful() && Decode(frame).Some? && Sanitize(codec, frame).Forward?
    ensures var out := Decode(Sanitize(codec, frame).frame);
            && out.Some?
            && (SomeHoldsReserved(codec, DataValues(out.value)) <==>
                AllHarmless(codec, DataValues(Decode(frame).value))
                    && SomeHoldsReserved(codec, DataValues(Decode(frame).value)))
            && (forall value <- DataValues(out.value) :: HoldsReserved(codec, value) ==> !codec.parse(value).value.Obj?)
  {
    hide *;
    ForwardedFrame(codec, frame);
    SanitizeForwards(codec, frame);
    var values := DataValues(Decode(frame).value);
    var out := Sanitize(codec, frame).frame;
    HarmlessHoldsNone(codec, DataValues(Decode(out).value));
    if AllHarmless(codec, values) {
      AllHarmlessPass(codec, values, frame);
    } else {
      RewrittenHoldsNone(codec, values, frame);
    }
  }

  lemma SanitizeForwards(codec: Codec, frame: Bytes)
    requires Decode(frame).Some? && Sanitize(codec, frame).Forward?
    ensures DONE !in DataValues(Decode(frame).value)
    ensures Sanitize(codec, frame) == JudgeValues(codec, DataValues(Decode(frame).value), frame)
  {
    hide Decode, DataValues;
  }

  lemma HarmlessHoldsNone(codec: Codec, values: seq<string>)
    requires forall value <- values :: Harmless(codec, value)
    ensures forall value <- values :: HoldsReserved(codec, value) ==> !codec.parse(value).value.Obj?
  {}

  lemma AllHarmlessPass(codec: Codec, values: seq<string>, frame: Bytes)
    requires AllHarmless(codec, values)
    ensures JudgeValues(codec, values, frame) == Forward(frame)
  {
    HarmlessValuesPass(codec, values, frame);
  }

  /** A frame with a value that is not harmless is forwarded, if at all, as one that holds no reserved key. */
  lemma RewrittenHoldsNone(codec: Codec, values: seq<string>, frame: Bytes)
    requires codec.Faithful() && DONE !in values && !AllHarmless(codec, values)
             && JudgeValues(codec, values, frame).Forward?
    ensures var out := Decode(JudgeValues(codec, values, frame).frame);
            out.Some? && !SomeHoldsReserved(codec, DataValues(out.value))
  {
    hide Decode, DataValues, DataFrame, JudgeValues;
    JudgedValuesHarmless(codec, values, frame);
    var out := JudgeValues(codec, values, frame).frame;
    var fields :| out == GatewayFrame(codec, Obj(fields)) && WellFormed(Obj(fields))
                  && Harmless(codec, codec.print_(Obj(fields)));
    GatewayFrameReadsBack(codec, fields);
    assert codec.parse(codec.print_(Obj(fields))) == Some(Obj(fields));
  }

  /** A list holding an object with a reserved key. */
  const LISTED_EVIDENCE := List([Obj([Field("a2a_evidence", Null)])])

  /** It passes: the frame is forwarded as it is, reserved key and all. */
  lemma ListedEvidencePasses(codec: Codec)
    requires codec.Faithful()
    ensures var frame := GatewayFrame(codec, LISTED_EVIDENCE);
            && Sanitize(codec, frame) == Forward(frame)
            && Decode(frame).Some? && SomeHoldsReserved(codec, DataValues(Decode(frame).value))
  {
    var printed := codec.print_(LISTED_EVIDENCE);
    ListedEvidence();
    assert codec.parse(printed) == Some(LISTED_EVIDENCE) && PrintsOnOneLine(printed);
    DecodeEncode(DataFrame(printed));
    hide Decode, DataValues, DataFrame, HasReserved;
    DataFrameReadsBack(printed);
    assert [printed][0] == printed && HoldsReserved(codec, printed);
    assert printed != DONE && Harmless(codec, printed);
    HarmlessValuesPass(codec, [printed], GatewayFrame(codec, LISTED_EVIDENCE));
  }

  lemma ListedEvidence()
    ensures WellFormed(LISTED_EVIDENCE) && HasReserved(LISTED_EVIDENCE)
  {
    var inner := Obj([Field("a2a_evidence", Null)]);
    assert inner.fields[0] == Field("a2a_evidence", Null) && inner.fields[0].key in RESERVED_EVIDENCE_BODY_KEYS;
    assert HasReserved(inner);
    assert LISTED_EVIDENCE.items[0] == inner;
  }

  // The verdict on a frame, from its data values and without the loop over them.

  /** A payload only the gateway may send: its evidence, or one of its evidence events. */
  predicate Forged(codec: Codec, value: string)
  {
    && codec.parse(value).Some? && codec.parse(value).value.Obj?
    && var fields := codec.parse(value).value.fields;
       || Get(fields, "type") == Some(Str("a2a.evidence"))
       || (Get(fields, "type") == Some(Str("event"))
           && exists kind <- ["receipt_sealed", "replay_sealed", "receipt_error"] ::
                Get(fields, "kind") == Some(Str(kind)))
  }

  /** An object with a reserved key at some depth. */
  predicate Tainted(codec: Codec, value: string)
  {
    codec.parse(value).Some? && codec.parse(value).value.Obj? && HasReserved(codec.parse(value).value)
  }

  /** The first value that is either. */
  predicate DecidedAt(codec: Codec, values: seq<string>, i: nat)
  {
    && i < |values| && (Forged(codec, values[i]) || Tainted(codec, values[i]))
    && forall j :: 0 <= j < i ==> !Forged(codec, values[j]) && !Tainted(codec, values[j])
  }

  /** A terminated text frame with one value, whose payload is the cleaned payload of `value`. */
  ghost predicate RewrittenFrom(codec: Codec, value: string, frame: Bytes)
  {
    && Decode(frame).Some? && EndsWithBlankLine(Decode(frame).value)
    && var values := DataValues(Decode(frame).value);
       && |values| == 1 && codec.parse(value).Some? && codec.parse(values[0]).Some?
       && Cleaned(codec.parse(value).value, codec.parse(values[0]).value)
  }

  ghost predicate JudgedAs(codec: Codec, values: seq<string>, frame: Bytes, verdict: Verdict)
  {
    if exists i: nat :: DecidedAt(codec, values, i) && Forged(codec, values[i]) then verdict == Drop
    else if exists i: nat :: DecidedAt(codec, values, i) then
      verdict.Forward? && forall i: nat ::
          DecidedAt(codec, values, i) ==> RewrittenFrom(codec, values[i], verdict.frame)
    else verdict == Forward(frame)
  }

  lemma ForgedIs(codec: Codec, value: string)
    ensures Forged(codec, value) <==>
              codec.parse(value).Some?
              && (IsEvidence(codec.parse(value).value) || IsEvidenceEvent(codec.parse(value).value))
  {
    var kinds := ["receipt_sealed", "replay_sealed", "receipt_error"];
    assert kinds[0] == "receipt_sealed" && kinds[1] == "replay_sealed" && kinds[2] == "receipt_error";
    hide Get;
  }

  lemma GatewayFrameIsRewritten(codec: Codec, value: string)
    requires codec.Faithful() && Tainted(codec, value)
    ensures var payload := codec.parse(value).value;
            Strip(payload).value.Obj? && RewrittenFrom(codec, value, GatewayFrame(codec, Strip(payload).value))
  {
    var payload := codec.parse(value).value;
    var after := Strip(payload).value;
    StripCleans(payload);
    StripWellFormed(payload);
    hide Strip, Cleaned, WellFormed, Decode, DataValues, DataFrame, HasReserved, GatewayFrame, EndsWithBlankLine;
    GatewayFrameReadsBack(codec, after.fields);
    GatewayFrameEnds(codec, after);
    assert after == Obj(after.fields) && codec.parse(codec.print_(after)) == Some(after);
  }

  lemma GatewayFrameEnds(codec: Codec, v: Json)
    ensures EndsWithBlankLine(DataFrame(codec.print_(v)))
  {}

  lemma DecidedFirst(codec: Codec, values: seq<string>)
    requires values != []
    ensures Forged(codec, values[0]) || Tainted(codec, values[0]) ==>
              DecidedAt(codec, values, 0) && forall i: nat :: DecidedAt(codec, values, i) ==> i == 0
    ensures !Forged(codec, values[0]) && !Tainted(codec, values[0]) ==>
              !DecidedAt(codec, values, 0)
              && forall i: nat :: DecidedAt(codec, values[1..], i) <==> DecidedAt(codec, values, i + 1)
  {
    hide Forged, Tainted;
    forall i: nat ensures !Forged(codec, values[0]) && !Tainted(codec, values[0]) ==>
                            (DecidedAt(codec, values[1..], i) <==> DecidedAt(codec, values, i + 1))
    {
      assert forall j :: 0 <= j < |values[1..]| ==> values[1..][j] == values[j + 1];
      if DecidedAt(codec, values, i + 1) {
        assert forall j :: 0 <= j < i ==> values[1..][j] == values[j + 1];
      }
      if DecidedAt(codec, values[1..], i) {
        assert forall j :: 0 < j < i + 1 ==> values[j] == values[1..][j - 1];
      }
    }
  }

  lemma JudgedLater(codec: Codec, values: seq<string>, frame: Bytes, verdict: Verdict)
    requires values != [] && !Forged(codec, values[0]) && !Tainted(codec, values[0])
    requires JudgedAs(codec, values[1..], frame, verdict)
    ensures JudgedAs(codec, values, frame, verdict)
  {
    DecidedFirst(codec, values);
    hide Forged, Tainted, DecidedAt, RewrittenFrom;
    forall i: nat | DecidedAt(codec, values, i) ensures i > 0 && DecidedAt(codec, values[1..], i - 1) {
      assert i == (i - 1) + 1;
    }
    assert forall i: nat :: i < |values[1..]| ==> values[1..][i] == values[i + 1];
  }

  lemma JudgedNow(codec: Codec, values: seq<string>, frame: Bytes, verdict: Verdict)
    requires values != [] && (Forged(codec, values[0]) || Tainted(codec, values[0]))
    requires if Forged(codec, values[0]) then verdict == Drop
             else verdict.Forward? && RewrittenFrom(codec, values[0], verdict.frame)
    ensures JudgedAs(codec, values, frame, verdict)
  {
    DecidedFirst(codec, values);
    hide Forged, Tainted, DecidedAt, RewrittenFrom;
  }

  lemma {:induction false} JudgeExactly(codec: Codec, values: seq<string>, frame: Bytes)
    requires codec.Faithful()
    ensures JudgedAs(codec, values, frame, JudgeValues(codec, values, frame))
  {
    if values != [] {
      JudgeExactly(codec, values[1..], frame);
      ForgedIs(codec, values[0]);
      if codec.parse(values[0]).Some? { StripChanges(codec.parse(values[0]).value); }
      if Tainted(codec, values[0]) { GatewayFrameIsRewritten(codec, values[0]); }
      hide JudgedAs, Strip, IsEvidence, IsEvidenceEvent, HasReserved, Forged, RewrittenFrom, GatewayFrame;
      if Forged(codec, values[0]) || Tainted(codec, values[0]) {
        JudgedNow(codec, values, frame, JudgeValues(codec, values, frame));
      } else {
        JudgedLater(codec, values, frame, JudgeValues(codec, values[1..], frame));
      }
    }
  }

  /**
   * `_sanitize_sse_frame`, value by value. What is no text passes. A frame with an end mark is done. Otherwise the
   * first value that is forged or holds a reserved key decides: a forged one drops the frame, another one is forwarded
   * alone and cleaned; without such a value the frame passes as it is.
   */
  lemma SanitizeExactly(codec: Codec, frame: Bytes)
    requires codec.Faithful()
    ensures var text, verdict := Decode(frame), Sanitize(codec, frame);
            if text.None? then verdict == Forward(frame)
            else if DONE in DataValues(text.value) then verdict == Done
            else JudgedAs(codec, DataValues(text.value), frame, verdict)
  {
    hide Decode, DataValues, JudgedAs;
    if Decode(frame).Some? { JudgeExactly(codec, DataValues(Decode(frame).value), frame); }
  }
}
