/**
 * The generator `evidence_sse` of agent_ingress.py, from upstream chunks to the bytes a client receives,
 * and what a client that reads those bytes with `_sse_data_values` sees.
 */
module EvidenceGateway {
  import opened Common
  import opened Json
  import opened SseFraming
  import opened SseValues
  import opened Utf8
  import opened EvidenceStripping
  import opened EvidenceStream

  /** What the generator yields for frames in order. */
  function Forwarded(codec: Codec, frames: seq<Bytes>): seq<Bytes>
  {
    if frames == [] then []
    else
      var verdict := Sanitize(codec, frames[0]);
      (if verdict.Forward? then [verdict.frame] else []) + Forwarded(codec, frames[1..])
  }

  function SawDone(codec: Codec, frames: seq<Bytes>): bool
  {
    exists frame <- frames :: Sanitize(codec, frame).Done?
  }

  function ErrorEvent(status: int, detail: string): seq<Field>
  {
    [Field("type", Str("error")), Field("status", Int(status)), Field("detail", Str(detail))]
  }

  function EvidenceEvent(evidence: Json): seq<Field>
  {
    [Field("type", Str("a2a.evidence")), Field("evidence", evidence)]
  }

  const TIMED_OUT := ErrorEvent(504, "agent SSE response timed out")
  const OVERSIZED := ErrorEvent(502, "agent SSE frame exceeds 1 MiB")
  const DONE_TRANSPORTS: set<string> := {"invoke", "mcp"}

  function DoneFrame(): Bytes
  {
    Encode(DataFrame(DONE))
  }

  /** The events the gateway adds after the agent's frames. */
  function ClosingEvents(timedOut: bool, oversized: bool, evidence: Json): seq<seq<Field>>
  {
    (if timedOut then [TIMED_OUT] else if oversized then [OVERSIZED] else []) + [EvidenceEvent(evidence)]
  }

  function Closing(codec: Codec, events: seq<seq<Field>>, done: bool): seq<Bytes>
  {
    if events == [] then if done then [DoneFrame()] else []
    else [GatewayFrame(codec, Obj(events[0]))] + Closing(codec, events[1..], done)
  }

  /** The whole emission, as a function of the bytes read and of whether the deadline cut them short. */
  function Emission(codec: Codec, read: Bytes, late: bool, transport: string, evidence: Json): seq<Bytes>
  {
    var scan := ScanAll(read, MAX_SSE_FRAME_BYTES);
    var timedOut := late && !scan.oversized;
    var tail := if timedOut || scan.rest == [] then [] else Forwarded(codec, [scan.rest]);
    Forwarded(codec, scan.frames) + tail
    + Closing(codec, ClosingEvents(timedOut, scan.oversized, evidence), DoneIsDue(codec, scan, transport))
  }

  predicate DoneIsDue(codec: Codec, scan: Scan, transport: string)
  {
    SawDone(codec, scan.frames) || transport in DONE_TRANSPORTS
  }

  function ForwardedOne(codec: Codec, frame: Bytes): seq<Bytes>
  {
    if Sanitize(codec, frame).Forward? then [Sanitize(codec, frame).frame] else []
  }

  lemma ForwardedStep(codec: Codec, frames: seq<Bytes>)
    requires frames != []
    ensures Forwarded(codec, frames) == ForwardedOne(codec, frames[0]) + Forwarded(codec, frames[1..])
  {
    hide Sanitize;
  }

  lemma {:induction false} ForwardedAppend(codec: Codec, a: seq<Bytes>, b: seq<Bytes>)
    ensures Forwarded(codec, a + b) == Forwarded(codec, a) + Forwarded(codec, b)
  {
    if a == [] {
      NothingAdded(b);
      NothingAdded(Forwarded(codec, b));
    } else {
      ForwardedStep(codec, a);
      ForwardedStep(codec, a + b);
      hide *;
      DropFirst(a, b);
      ForwardedAppend(codec, a[1..], b);
      Assoc(ForwardedOne(codec, a[0]), Forwarded(codec, a[1..]), Forwarded(codec, b));
    }
  }

  lemma ForwardedSnoc(codec: Codec, frames: seq<Bytes>, frame: Bytes)
    ensures Forwarded(codec, frames + [frame]) ==
            Forwarded(codec, frames) + if Sanitize(codec, frame).Forward? then [Sanitize(codec, frame).frame] else []
    ensures SawDone(codec, frames + [frame]) == (SawDone(codec, frames) || Sanitize(codec, frame).Done?)
  {
    ForwardedAppend(codec, frames, [frame]);
    assert [frame][1..] == [];
    assert Forwarded(codec, [frame])
           == (if Sanitize(codec, frame).Forward? then [Sanitize(codec, frame).frame] else []);
    assert frame in frames + [frame];
  }

  /** The scan so far, continued over bytes still in the buffer. */
  ghost function Resume(frames: seq<Bytes>, buffered: Bytes): Scan
  {
    var later := ScanAll(buffered, MAX_SSE_FRAME_BYTES);
    Scan(frames + later.frames, later.rest, later.oversized)
  }

  lemma ResumeAfterPop(frames: seq<Bytes>, buffered: Bytes)
    ensures match FirstCompletion(buffered)
            case None =>
              Resume(frames, buffered) ==
              if |buffered| > MAX_SSE_FRAME_BYTES then Scan(frames, [], true) else Scan(frames, buffered, false)
            case Some(cut) =>
              Resume(frames, buffered) ==
              if cut > MAX_SSE_FRAME_BYTES then Scan(frames, [], true)
              else Resume(frames + [buffered[..cut]], buffered[cut..])
  {
    hide *;
    CutIsFirstCompletion(buffered);
    ScanStep(buffered, MAX_SSE_FRAME_BYTES);
    ResumeIs(frames, buffered);
    NothingAdded(frames);
    if CutPoint(buffered).Some? && CutPoint(buffered).value <= MAX_SSE_FRAME_BYTES {
      var cut := CutPoint(buffered).value;
      ResumeIs(frames + [buffered[..cut]], buffered[cut..]);
      Assoc(frames, [buffered[..cut]], ScanAll(buffered[cut..], MAX_SSE_FRAME_BYTES).frames);
    }
  }

  lemma ResumeIs(frames: seq<Bytes>, buffered: Bytes)
    ensures var later := ScanAll(buffered, MAX_SSE_FRAME_BYTES);
            Resume(frames, buffered) == Scan(frames + later.frames, later.rest, later.oversized)
  {
    hide ScanAll;
  }

  lemma ReadOneMore(chunks: seq<Bytes>, i: nat)
    requires i < |chunks|
    ensures Flatten(chunks[..i + 1]) == Flatten(chunks[..i]) + chunks[i]
  {
    assert chunks[..i + 1] == chunks[..i] + [chunks[i]];
    FlattenSnoc(chunks[..i], chunks[i]);
  }

  /** The inner loop: pops and judges every complete frame, then looks at the size of what is left. */
  method DrainBuffer(codec: Codec, buffer: FrameBuffer, ghost frames: seq<Bytes>)
    returns (emitted: seq<Bytes>, sawDone: bool, oversized: bool, ghost scanned: seq<Bytes>)
    modifies buffer
    ensures Scan(frames + scanned, buffer.data, oversized) == Resume(frames, old(buffer.data))
    ensures emitted == Forwarded(codec, scanned) && sawDone == SawDone(codec, scanned)
  {
    emitted, sawDone, oversized, scanned := [], false, false, [];
    while true
      invariant Resume(frames + scanned, buffer.data) == Resume(frames, old(buffer.data))
      invariant emitted == Forwarded(codec, scanned) && sawDone == SawDone(codec, scanned)
      decreases |buffer.data|
    {
      ResumeAfterPop(frames + scanned, buffer.data);
      var frame := buffer.PopFrame();
      if frame.None? {
        break;
      }
      if |frame.value| > MAX_SSE_FRAME_BYTES {
        oversized := true;
        buffer.Clear();
        return;
      }
      ForwardedSnoc(codec, scanned, frame.value);
      assert frames + (scanned + [frame.value]) == frames + scanned + [frame.value];
      scanned := scanned + [frame.value];
      match Sanitize(codec, frame.value)
      case Done => sawDone := true;
      case Forward(safe) => emitted := emitted + [safe];
      case Drop =>
    }
    if |buffer.data| > MAX_SSE_FRAME_BYTES {
      oversized := true;
      buffer.Clear();
    }
  }

  lemma ReadBefore(chunks: seq<Bytes>, i: nat, n: nat)
    requires i <= n <= |chunks|
    ensures Flatten(chunks[..n]) == Flatten(chunks[..i]) + Flatten(chunks[i..n])
  {
    assert chunks[..n] == chunks[..i] + chunks[i..n];
    FlattenAppend(chunks[..i], chunks[i..n]);
  }

  lemma NothingRead(codec: Codec)
    ensures ScanAll([], MAX_SSE_FRAME_BYTES) == Scan([], [], false)
    ensures Forwarded(codec, []) == [] && !SawDone(codec, [])
  {
    CutIsFirstCompletion([]);
  }

  /** The part of the upstream that is read: everything before the first chunk past the deadline. */
  function ReadBeforeDeadline(chunks: seq<Bytes>, lateAt: nat): Bytes
  {
    Flatten(if lateAt < |chunks| then chunks[..lateAt] else chunks)
  }

  /** The reading loop of `evidence_sse`; `lateAt` is the first chunk that arrives after the deadline. */
  method ReadUpstream(codec: Codec, chunks: seq<Bytes>, lateAt: nat)
    returns (emitted: seq<Bytes>, sawDone: bool, oversized: bool, timedOut: bool, rest: Bytes)
    ensures var scan := ScanAll(ReadBeforeDeadline(chunks, lateAt), MAX_SSE_FRAME_BYTES);
            && oversized == scan.oversized && timedOut == (lateAt < |chunks| && !scan.oversized)
            && emitted == Forwarded(codec, scan.frames) && sawDone == SawDone(codec, scan.frames)
            && rest == if timedOut then [] else scan.rest
  {
    hide Sanitize, ScanAll, Forwarded, SawDone;
    NothingRead(codec);
    var buffer := new FrameBuffer();
    emitted, sawDone, oversized, timedOut := [], false, false, false;
    ghost var frames: seq<Bytes> := [];
    ghost var n := if lateAt < |chunks| then lateAt else |chunks|;
    ghost var scan := ScanAll(Flatten(chunks[..n]), MAX_SSE_FRAME_BYTES);
    assert chunks[..|chunks|] == chunks;
    var i := 0;
    while i < |chunks|
      invariant i <= n && !oversized && !timedOut
      invariant emitted == Forwarded(codec, frames) && sawDone == SawDone(codec, frames)
      invariant ScanAll(Flatten(chunks[..i]), MAX_SSE_FRAME_BYTES) == Scan(frames, buffer.data, false)
    {
      buffer.Extend(chunks[i]);
      if i == lateAt {
        timedOut := true;
        buffer.Clear();
        break;
      }
      ReadOneMore(chunks, i);
      ScanSplit(Flatten(chunks[..i]), chunks[i], MAX_SSE_FRAME_BYTES);
      var more, done;
      ghost var scanned;
      more, done, oversized, scanned := DrainBuffer(codec, buffer, frames);
      ForwardedAppend(codec, frames, scanned);
      SawDoneAppend(codec, frames, scanned);
      emitted := emitted + more;
      sawDone := sawDone || done;
      frames := frames + scanned;
      i := i + 1;
      if oversized {
        ReadBefore(chunks, i, n);
        ScanSplit(Flatten(chunks[..i]), Flatten(chunks[i..n]), MAX_SSE_FRAME_BYTES);
        break;
      }
    }
    rest := buffer.data;
  }

  lemma SawDoneAppend(codec: Codec, a: seq<Bytes>, b: seq<Bytes>)
    ensures SawDone(codec, a + b) == (SawDone(codec, a) || SawDone(codec, b))
  {
    hide Sanitize;
    assert forall frame :: frame in a + b <==> frame in a || frame in b;
  }

  /**
   * `evidence_sse`. The emission is a function of the bytes read before the deadline, so two upstreams that cut the
   * same bytes differently are indistinguishable to the client.
   */
  method EvidenceSse(codec: Codec, chunks: seq<Bytes>, lateAt: nat, transport: string, evidence: Json,
                     upstreamStatus: int)
    returns (emitted: seq<Bytes>, observedStatus: int)
    ensures emitted == Emission(codec, ReadBeforeDeadline(chunks, lateAt), lateAt < |chunks|, transport, evidence)
    ensures observedStatus ==
            if ScanAll(ReadBeforeDeadline(chunks, lateAt), MAX_SSE_FRAME_BYTES).oversized then 502
            else if lateAt < |chunks| then 504
            else upstreamStatus
  {
    hide Sanitize, ScanAll, Forwarded, SawDone, ReadBeforeDeadline, Closing, ClosingEvents, GatewayFrame, DoneFrame;
    var sawDone, oversized, timedOut, rest;
    emitted, sawDone, oversized, timedOut, rest := ReadUpstream(codec, chunks, lateAt);
    NothingRead(codec);
    if rest != [] && !oversized && !timedOut {
      ForwardedSnoc(codec, [], rest);
      assert [] + [rest] == [rest];
      var verdict := Sanitize(codec, rest);
      if verdict.Forward? {
        emitted := emitted + [verdict.frame];
      }
    }
    ClosingUnfolds(codec, timedOut, oversized, evidence, sawDone || transport in DONE_TRANSPORTS);
    observedStatus := upstreamStatus;
    if oversized || timedOut {
      observedStatus := if timedOut then 504 else 502;
      emitted := emitted + [GatewayFrame(codec, Obj(if timedOut then TIMED_OUT else OVERSIZED))];
    }
    emitted := emitted + [GatewayFrame(codec, Obj(EvidenceEvent(evidence)))];
    if sawDone || transport in DONE_TRANSPORTS {
      emitted := emitted + [DoneFrame()];
    }
  }

  lemma ClosingUnfolds(codec: Codec, timedOut: bool, oversized: bool, evidence: Json, done: bool)
    ensures Closing(codec, ClosingEvents(timedOut, oversized, evidence), done) ==
            (if timedOut || oversized then [GatewayFrame(codec, Obj(if timedOut then TIMED_OUT else OVERSIZED))]
             else [])
            + [GatewayFrame(codec, Obj(EvidenceEvent(evidence)))] + (if done then [DoneFrame()] else [])
  {
    hide GatewayFrame, DoneFrame;
    var events := ClosingEvents(timedOut, oversized, evidence);
    if timedOut || oversized {
      assert events[1..] == [EvidenceEvent(evidence)];
    }
    assert [EvidenceEvent(evidence)][1..] == [];
    assert Closing(codec, [EvidenceEvent(evidence)], done) ==
           [GatewayFrame(codec, Obj(EvidenceEvent(evidence)))] + Closing(codec, [], done);
  }

  ghost predicate TextFrame(frame: Bytes)
  {
    Decode(frame).Some? && EndsWithBlankLine(Decode(frame).value)
  }

  function ValuesOfOne(frame: Bytes): seq<string>
  {
    if Decode(frame).Some? then DataValues(Decode(frame).value) else []
  }

  /** The data values of frames, one frame after the other. */
  function ValuesOf(frames: seq<Bytes>): seq<string>
  {
    if frames == [] then [] else ValuesOfOne(frames[0]) + ValuesOf(frames[1..])
  }

  lemma {:induction false} ValuesOfAppend(a: seq<Bytes>, b: seq<Bytes>)
    ensures ValuesOf(a + b) == ValuesOf(a) + ValuesOf(b)
  {
    hide ValuesOfOne;
    if a == [] {
      NothingAdded(b);
      NothingAdded(ValuesOf(b));
    } else {
      DropFirst(a, b);
      ValuesOfAppend(a[1..], b);
      Assoc(ValuesOfOne(a[0]), ValuesOf(a[1..]), ValuesOf(b));
    }
  }

  /** Text frames sent back to back read as their values one after the other. */
  lemma {:induction false} FramesReadBack(frames: seq<Bytes>)
    requires forall frame <- frames :: TextFrame(frame)
    ensures Decode(Flatten(frames)).Some? && DataValues(Decode(Flatten(frames)).value) == ValuesOf(frames)
  {
    hide DataValues, EndsWithBlankLine;
    if frames == [] {
      NoValues();
    } else {
      assert TextFrame(frames[0]);
      FramesReadBack(frames[1..]);
      DecodeAppend(frames[0], Flatten(frames[1..]));
      ValuesAppend(Decode(frames[0]).value, Decode(Flatten(frames[1..])).value);
    }
  }

  lemma NoValues()
    ensures DataValues("") == []
  {
    assert [""][1..] == [];
  }

  lemma LastAscii(raw: Bytes, c: byte)
    requires Decode(raw + [c]).Some? && c < 0x80
    ensures Decode(raw).Some? && Decode(raw + [c]).value == Decode(raw).value + [c as int as char]
  {
    assert raw + [c] + [] == raw + [c];
    SplitAfterAscii(raw, c, []);
  }

  lemma LfLfIsBlankLine(front: Bytes)
    requires Decode(front + [LF] + [LF]).Some?
    ensures TextFrame(front + [LF] + [LF])
  {
    hide Decode;
    LastAscii(front + [LF], LF);
    LastAscii(front, LF);
    var text := Decode(front).value + "\n" + "\n";
    assert text[|text| - 2..] == "\n\n";
  }

  lemma CrLfCrLfIsBlankLine(front: Bytes)
    requires Decode(front + [CR] + [LF] + [CR] + [LF]).Some?
    ensures TextFrame(front + [CR] + [LF] + [CR] + [LF])
  {
    hide Decode;
    LastAscii(front + [CR] + [LF] + [CR], LF);
    LastAscii(front + [CR] + [LF], CR);
    LastAscii(front + [CR], LF);
    LastAscii(front, CR);
    var text := Decode(front).value + "\r" + "\n" + "\r" + "\n";
    assert text[|text| - 4..] == "\r\n\r\n";
  }

  /** A frame cut from text is text, ends with a blank line, and leaves text behind. */
  lemma WholeFrameIsText(frame: Bytes, more: Bytes)
    requires WholeFrame(frame) && Decode(frame + more).Some?
    ensures TextFrame(frame) && Decode(more).Some?
  {
    hide Decode, TextFrame, CutPoint;
    var n := |frame|;
    assert Completes(frame, n) by {
      CutIsFirstCompletion(frame);
    }
    assert frame == frame[..n - 1] + [LF];
    SplitAfterAscii(frame[..n - 1], LF, more);
    if frame[n - 2] == LF {
      assert frame == frame[..n - 2] + [LF] + [LF];
      LfLfIsBlankLine(frame[..n - 2]);
    } else {
      assert frame == frame[..n - 4] + [CR] + [LF] + [CR] + [LF];
      CrLfCrLfIsBlankLine(frame[..n - 4]);
    }
  }

  lemma {:induction false} FramesAreText(frames: seq<Bytes>, more: Bytes)
    requires Decode(Flatten(frames) + more).Some?
    requires forall i :: 0 <= i < |frames| ==> WholeFrame(frames[i])
    ensures forall frame <- frames :: TextFrame(frame)
  {
    hide Decode, WholeFrame, TextFrame;
    if frames != [] {
      assert Flatten(frames) + more == frames[0] + (Flatten(frames[1..]) + more);
      WholeFrameIsText(frames[0], Flatten(frames[1..]) + more);
      FramesAreText(frames[1..], more);
    }
  }

  lemma {:induction false} ForwardedFrames(codec: Codec, frames: seq<Bytes>)
    requires codec.Faithful() && forall frame <- frames :: TextFrame(frame)
    ensures forall out <- Forwarded(codec, frames) :: TextFrame(out)
    ensures forall value <- ValuesOf(Forwarded(codec, frames)) :: Harmless(codec, value)
  {
    hide Decode, DataValues, EndsWithBlankLine, Harmless, Sanitize;
    if frames != [] {
      assert TextFrame(frames[0]);
      ForwardedFrames(codec, frames[1..]);
      var verdict := Sanitize(codec, frames[0]);
      if verdict.Forward? {
        ForwardedFrame(codec, frames[0]);
        var later := Forwarded(codec, frames[1..]);
        var own := DataValues(Decode(verdict.frame).value);
        assert ([verdict.frame] + later)[1..] == later;
        assert ValuesOf([verdict.frame] + later) == own + ValuesOf(later);
        forall value <- own + ValuesOf(later) ensures Harmless(codec, value) {
          assert value in own || value in ValuesOf(later);
        }
      } else {
        assert Forwarded(codec, frames) == Forwarded(codec, frames[1..]);
      }
    }
  }

  lemma GatewayFrameIsText(codec: Codec, fields: seq<Field>)
    requires codec.Faithful()
    ensures TextFrame(GatewayFrame(codec, Obj(fields)))
    ensures ValuesOf([GatewayFrame(codec, Obj(fields))]) == [codec.print_(Obj(fields))]
  {
    hide Decode, DataValues;
    GatewayFrameReadsBack(codec, fields);
    var frame := GatewayFrame(codec, Obj(fields));
    assert [frame][1..] == [];
  }

  lemma DoneFrameIsText()
    ensures TextFrame(DoneFrame()) && ValuesOf([DoneFrame()]) == [DONE]
  {
    hide Decode, DataValues;
    DecodeEncode(DataFrame(DONE));
    DataFrameReadsBack(DONE);
    assert [DoneFrame()][1..] == [];
  }

  function ClosingValues(codec: Codec, events: seq<seq<Field>>, done: bool): seq<string>
  {
    if events == [] then if done then [DONE] else []
    else [codec.print_(Obj(events[0]))] + ClosingValues(codec, events[1..], done)
  }

  lemma {:induction false} ClosingReadsBack(codec: Codec, events: seq<seq<Field>>, done: bool)
    requires codec.Faithful()
    ensures forall frame <- Closing(codec, events, done) :: TextFrame(frame)
    ensures ValuesOf(Closing(codec, events, done)) == ClosingValues(codec, events, done)
  {
    hide TextFrame, GatewayFrame, DoneFrame, Decode, DataValues;
    if events == [] {
      DoneFrameIsText();
    } else {
      GatewayFrameIsText(codec, events[0]);
      ClosingReadsBack(codec, events[1..], done);
      ValuesOfAppend([GatewayFrame(codec, Obj(events[0]))], Closing(codec, events[1..], done));
    }
  }

  /** What a client reads: the agent's values that were let through, the gateway's error, its evidence, the end mark. */
  function ClientValues(codec: Codec, read: Bytes, late: bool, transport: string, evidence: Json): seq<string>
  {
    var scan := ScanAll(read, MAX_SSE_FRAME_BYTES);
    ValuesOf(Forwarded(codec, scan.frames))
    + ClosingValues(codec, ClosingEvents(late && !scan.oversized, scan.oversized, evidence),
                    DoneIsDue(codec, scan, transport))
  }

  lemma ScannedFramesAreText(read: Bytes)
    requires Decode(read).Some?
    ensures forall frame <- ScanAll(read, MAX_SSE_FRAME_BYTES).frames :: TextFrame(frame)
  {
    hide Decode, TextFrame, ScanAll;
    var scan := ScanAll(read, MAX_SSE_FRAME_BYTES);
    var unread := ScanPartitions(read, MAX_SSE_FRAME_BYTES);
    ScannedFramesAreWhole(read, MAX_SSE_FRAME_BYTES);
    assert read == Flatten(scan.frames) + (scan.rest + unread);
    FramesAreText(scan.frames, scan.rest + unread);
  }

  /**
   * For any text stream that ends on a frame boundary, breaks the frame limit or misses the deadline: the emitted bytes
   * are text, a client reads exactly the forwarded values, the error if there was one, one evidence value and then the
   * end mark if it is due; and no forwarded value is an end mark or poses as gateway evidence.
   */
  lemma EmissionReadsBack(codec: Codec, read: Bytes, late: bool, transport: string, evidence: Json)
    requires codec.Faithful() && Decode(read).Some?
    requires late || ScanAll(read, MAX_SSE_FRAME_BYTES).rest == []
    ensures var out := Decode(Flatten(Emission(codec, read, late, transport, evidence)));
            out.Some? && DataValues(out.value) == ClientValues(codec, read, late, transport, evidence)
    ensures forall value <- ValuesOf(Forwarded(codec, ScanAll(read, MAX_SSE_FRAME_BYTES).frames)) ::
            Harmless(codec, value)
  {
    hide Decode, DataValues, Harmless, Forwarded, TextFrame, ScanAll, Closing, ClosingValues, ClosingEvents;
    var scan := ScanAll(read, MAX_SSE_FRAME_BYTES);
    ScannedFramesAreText(read);
    ForwardedFrames(codec, scan.frames);
    var body := Forwarded(codec, scan.frames);
    var events, done :=
        ClosingEvents(late && !scan.oversized, scan.oversized, evidence), DoneIsDue(codec, scan, transport);
    ClosingReadsBack(codec, events, done);
    ValuesOfAppend(body, Closing(codec, events, done));
    FramesReadBack(body + Closing(codec, events, done));
    assert body + [] == body;
  }

  // The same from the upstream's frames to the client's values, without the verdicts in between.

  /** The values of one upstream frame that reach the client. */
  ghost predicate PassedOn(codec: Codec, values: seq<string>, passed: seq<string>)
  {
    if DONE in values || exists i: nat :: DecidedAt(codec, values, i) && Forged(codec, values[i]) then passed == []
    else if exists i: nat :: DecidedAt(codec, values, i) then
      && |passed| == 1 && codec.parse(passed[0]).Some?
      && forall i: nat :: DecidedAt(codec, values, i) ==>
           codec.parse(values[i]).Some? && Cleaned(codec.parse(values[i]).value, codec.parse(passed[0]).value)
    else passed == values
  }

  /** What the gateway adds: its error if there is one, then its evidence, then the end mark if it is due. */
  ghost predicate ClosesWith(codec: Codec, closing: seq<string>, timedOut: bool, oversized: bool, evidence: Json,
                             done: bool)
  {
    var failed := if timedOut || oversized then 1 else 0;
    && |closing| == failed + 1 + (if done then 1 else 0)
    && (timedOut ==> codec.parse(closing[0])
                     == Some(Obj([Field("type", Str("error")), Field("status", Int(504)),
                                  Field("detail", Str("agent SSE response timed out"))])))
    && (oversized && !timedOut ==> codec.parse(closing[0])
                                   == Some(Obj([Field("type", Str("error")), Field("status", Int(502)),
                                                Field("detail", Str("agent SSE frame exceeds 1 MiB"))])))
    && codec.parse(closing[failed]) == Some(Obj([Field("type", Str("a2a.evidence")), Field("evidence", evidence)]))
    && (done ==> closing[failed + 1] == "[DONE]")
  }

  /** The end mark is due when a frame of the agent held one, and always for two of the transports. */
  ghost predicate EndIsDue(frames: seq<Bytes>, transport: string)
  {
    || (exists frame <- frames :: Decode(frame).Some? && "[DONE]" in DataValues(Decode(frame).value))
    || transport == "invoke" || transport == "mcp"
  }

  lemma JudgedIsPassedOn(codec: Codec, frame: Bytes)
    requires codec.Faithful() && TextFrame(frame)
    ensures PassedOn(codec, ValuesOfOne(frame), ValuesOf(ForwardedOne(codec, frame)))
  {
    var values, verdict := DataValues(Decode(frame).value), Sanitize(codec, frame);
    SanitizeExactly(codec, frame);
    hide Sanitize, Decode, DataValues, Forged, Cleaned, DecidedAt, EndsWithBlankLine;
    assert ValuesOf([]) == [];
    if verdict.Forward? {
      assert [verdict.frame][1..] == [];
      NothingAdded(ValuesOfOne(verdict.frame));
      assert ValuesOf([verdict.frame]) == ValuesOfOne(verdict.frame);
    }
  }

  /** The forwarded values, upstream frame by upstream frame. */
  function PassedPer(codec: Codec, frames: seq<Bytes>): (passed: seq<seq<string>>)
    ensures |passed| == |frames|
    ensures forall i :: 0 <= i < |frames| ==> passed[i] == ValuesOf(ForwardedOne(codec, frames[i]))
  {
    seq(|frames|, i requires 0 <= i < |frames| => ValuesOf(ForwardedOne(codec, frames[i])))
  }

  lemma {:induction false} PassedInOrder(codec: Codec, frames: seq<Bytes>)
    ensures ValuesOf(Forwarded(codec, frames)) == Flatten(PassedPer(codec, frames))
  {
    hide ForwardedOne, ValuesOfOne;
    if frames == [] {
      assert PassedPer(codec, frames) == [];
    } else {
      ForwardedStep(codec, frames);
      ValuesOfAppend(ForwardedOne(codec, frames[0]), Forwarded(codec, frames[1..]));
      PassedInOrder(codec, frames[1..]);
      assert PassedPer(codec, frames)[1..] == PassedPer(codec, frames[1..]);
    }
  }

  lemma ClosingIsThat(codec: Codec, timedOut: bool, oversized: bool, evidence: Json, done: bool)
    requires codec.Faithful() && WellFormed(evidence)
    ensures ClosesWith(codec, ClosingValues(codec, ClosingEvents(timedOut, oversized, evidence), done),
                       timedOut, oversized, evidence, done)
  {
    var events := ClosingEvents(timedOut, oversized, evidence);
    GatewayEventsAreWellFormed(evidence);
    hide WellFormed;
    assert [EvidenceEvent(evidence)][1..] == [];
    if timedOut || oversized {
      assert events[1..] == [EvidenceEvent(evidence)];
    }
    assert ClosingValues(codec, [EvidenceEvent(evidence)], done)
        == [codec.print_(Obj(EvidenceEvent(evidence)))] + ClosingValues(codec, [], done);
  }

  lemma GatewayEventsAreWellFormed(evidence: Json)
    requires WellFormed(evidence)
    ensures WellFormed(Obj(TIMED_OUT)) && WellFormed(Obj(OVERSIZED)) && WellFormed(Obj(EvidenceEvent(evidence)))
  {
    assert "type"[0] != "status"[0] && "type"[0] != "detail"[0] && "status"[0] != "detail"[0]
           && "type"[0] != "evidence"[0];
  }

  lemma EndIsDueExactlyWhen(codec: Codec, frames: seq<Bytes>, transport: string)
    requires codec.Faithful()
    ensures SawDone(codec, frames) || transport in DONE_TRANSPORTS <==> EndIsDue(frames, transport)
  {
    forall frame <- frames
      ensures Sanitize(codec, frame).Done? <==> Decode(frame).Some? && "[DONE]" in DataValues(Decode(frame).value)
    {
      SanitizeExactly(codec, frame);
      hide Sanitize, Decode, DataValues, Forged, DecidedAt, RewrittenFrom;
    }
    hide Sanitize, Decode, DataValues;
  }

  /**
   * For any text stream that ends on a frame boundary, breaks the frame limit or misses the deadline: a client reads,
   * per upstream frame, its values as they are, or the one that had to be cleaned, or nothing if the frame held an end
   * mark or a forged value first; and after them the gateway's own values.
   */
  lemma ClientReadsExactly(codec: Codec, read: Bytes, late: bool, transport: string, evidence: Json)
    returns (passed: seq<seq<string>>, closing: seq<string>)
    requires codec.Faithful() && WellFormed(evidence) && Decode(read).Some?
    requires late || ScanAll(read, MAX_SSE_FRAME_BYTES).rest == []
    ensures var frames, oversized :=
            ScanAll(read, MAX_SSE_FRAME_BYTES).frames, ScanAll(read, MAX_SSE_FRAME_BYTES).oversized;
            && |passed| == |frames|
            && (forall i :: 0 <= i < |frames| ==> PassedOn(codec, ValuesOfOne(frames[i]), passed[i]))
            && ClosesWith(codec, closing, late && !oversized, oversized, evidence, EndIsDue(frames, transport))
    ensures var out := Decode(Flatten(Emission(codec, read, late, transport, evidence)));
            out.Some? && DataValues(out.value) == Flatten(passed) + closing
  {
    hide *;
    var scan := ScanAll(read, MAX_SSE_FRAME_BYTES);
    var done := DoneIsDue(codec, scan, transport);
    passed := PassedPer(codec, scan.frames);
    closing := ClosingValues(codec, ClosingEvents(late && !scan.oversized, scan.oversized, evidence), done);
    ScannedFramesAreText(read);
    forall i | 0 <= i < |scan.frames| ensures PassedOn(codec, ValuesOfOne(scan.frames[i]), passed[i]) {
      assert scan.frames[i] in scan.frames;
      JudgedIsPassedOn(codec, scan.frames[i]);
    }
    PassedInOrder(codec, scan.frames);
    DoneIsDueExactlyWhen(codec, scan, transport);
    ClosingIsThat(codec, late && !scan.oversized, scan.oversized, evidence, done);
    EmissionReadsBack(codec, read, late, transport, evidence);
    ClientValuesAre(codec, read, late, transport, evidence);
  }

  lemma DoneIsDueExactlyWhen(codec: Codec, scan: Scan, transport: string)
    requires codec.Faithful()
    ensures DoneIsDue(codec, scan, transport) <==> EndIsDue(scan.frames, transport)
  {
    EndIsDueExactlyWhen(codec, scan.frames, transport);
    hide SawDone, EndIsDue;
  }

  lemma ClientValuesAre(codec: Codec, read: Bytes, late: bool, transport: string, evidence: Json)
    ensures var scan := ScanAll(read, MAX_SSE_FRAME_BYTES);
            ClientValues(codec, read, late, transport, evidence) ==
            ValuesOf(Forwarded(codec, scan.frames))
            + ClosingValues(codec, ClosingEvents(late && !scan.oversized, scan.oversized, evidence),
                            DoneIsDue(codec, scan, transport))
  {
    hide ValuesOf, Forwarded, ClosingValues, ClosingEvents, DoneIsDue, ScanAll;
  }
}
