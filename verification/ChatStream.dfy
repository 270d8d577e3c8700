/**
 * The run-scoped chat stream (`ChatRunStream` in chat_stream.py, without Redis): live queue, persister and client text.
 */
module ChatStream {
  import opened Common
  import opened Json
  import opened Splitting
  import opened SseValues
  import opened ThreadEvents

  const PING := ": ping\n\n"
  const DONE := "[DONE]"

  function SetDefault(event: Event, key: string, value: Json): Event
  {
    if Get(event, key).Some? then event else Put(event, key, value)
  }

  function WireEvent(event: Event, threadId: string, jobId: string, number: nat): Event
  {
    var tagged := SetDefault(event, "thread_id", Str(threadId));
    var owned := if jobId != "" then SetDefault(tagged, "job_id", Str(jobId)) else tagged;
    SetDefault(owned, "stream_seq", Int(number))
  }

  lemma GetAfterDefault(event: Event, key: string, value: Json, other: string)
    ensures Get(SetDefault(event, key, value), other) ==
            if other == key && Get(event, key).None? then Some(value) else Get(event, other)
  {
    GetAfterPut(event, key, value, other);
    hide Get, Put;
  }

  /**
   * Key by key: what the event had stays; the thread, the job if there is one, and the number are added only if
   * missing.
   */
  lemma WireEventExactly(event: Event, threadId: string, jobId: string, number: nat, key: string)
    ensures Get(WireEvent(event, threadId, jobId, number), key) ==
            if Get(event, key).Some? then Get(event, key)
            else if key == "thread_id" then Some(Str(threadId))
            else if key == "job_id" && jobId != "" then Some(Str(jobId))
            else if key == "stream_seq" then Some(Int(number))
            else None
  {
    hide Get, SetDefault;
    assert "thread_id"[0] != "job_id"[0] && "thread_id"[0] != "stream_seq"[0] && "job_id"[0] != "stream_seq"[0];
    var tagged := SetDefault(event, "thread_id", Str(threadId));
    var owned := if jobId != "" then SetDefault(tagged, "job_id", Str(jobId)) else tagged;
    GetAfterDefault(event, "thread_id", Str(threadId), key);
    GetAfterDefault(event, "thread_id", Str(threadId), "job_id");
    GetAfterDefault(event, "thread_id", Str(threadId), "stream_seq");
    GetAfterDefault(tagged, "job_id", Str(jobId), key);
    GetAfterDefault(tagged, "job_id", Str(jobId), "stream_seq");
    GetAfterDefault(owned, "stream_seq", Int(number), key);
  }

  /** The wire events of one publish, numbered on from `sent`. */
  function Wired(events: seq<Event>, threadId: string, jobId: string, sent: nat): seq<Option<Event>>
  {
    seq(|events|, i requires 0 <= i < |events| => Some(WireEvent(events[i], threadId, jobId, sent + i + 1)))
  }

  lemma WiredSnoc(events: seq<Event>, i: nat, threadId: string, jobId: string, sent: nat)
    requires i < |events|
    ensures Wired(events[..i + 1], threadId, jobId, sent)
         == Wired(events[..i], threadId, jobId, sent) + [Some(WireEvent(events[i], threadId, jobId, sent + i + 1))]
  {
    hide WireEvent;
  }

  lemma WiredStep(before: seq<Option<Event>>, events: seq<Event>, i: nat, threadId: string, jobId: string, sent: nat)
    requires i < |events|
    ensures before + Wired(events[..i], threadId, jobId, sent)
            + [Some(WireEvent(events[i], threadId, jobId, sent + i + 1))]
         == before + Wired(events[..i + 1], threadId, jobId, sent)
  {
    hide *;
    WiredSnoc(events, i, threadId, jobId, sent);
    Assoc(before, Wired(events[..i], threadId, jobId, sent),
          [Some(WireEvent(events[i], threadId, jobId, sent + i + 1))]);
  }

  lemma WiredNone(before: seq<Option<Event>>, events: seq<Event>, threadId: string, jobId: string, sent: nat)
    ensures before + Wired(events[..0], threadId, jobId, sent) == before && events[..|events|] == events
    ensures events == [] ==> before + Wired(events, threadId, jobId, sent) == before
  {}

  /** What the queue holds before the close mark, and what is left behind it. */
  function Before<T>(inbox: seq<Option<T>>): seq<T>
  {
    if inbox == [] || inbox[0].None? then [] else [inbox[0].value] + Before(inbox[1..])
  }

  function After<T>(inbox: seq<Option<T>>): seq<Option<T>>
  {
    if inbox == [] then [] else if inbox[0].None? then inbox[1..] else After(inbox[1..])
  }

  datatype Call = Publish(events: seq<Event>, persist: bool) | Close

  /** What a run of calls puts on the persister's queue. */
  function Queued(calls: seq<Call>, closed: bool): seq<Option<seq<Event>>>
  {
    if calls == [] then []
    else
      match calls[0]
      case Publish(events, persist) => (if persist && events != [] then [Some(events)] else [])
          + Queued(calls[1..], closed)
      case Close => (if closed then [] else [None]) + Queued(calls[1..], true)
  }

  lemma QueuedOne(before: seq<Option<seq<Event>>>, events: seq<Event>, persist: bool, closed: bool)
    ensures before + Queued([Publish(events, persist)], closed) ==
            if persist && events != [] then before + [Some(events)] else before
  {
    assert [Publish(events, persist)][1..] == [];
  }

  /** The events a run of calls asks to keep: those published for keeping before the first close. */
  function Due(calls: seq<Call>): seq<Event>
  {
    if calls == [] || calls[0].Close? then []
    else (if calls[0].persist then calls[0].events else []) + Due(calls[1..])
  }

  /**
   * The persister's queue carries exactly the events to keep, and the close mark exactly when the stream was closed.
   */
  lemma {:induction false} QueueCarriesWhatIsDue(calls: seq<Call>)
    ensures Flatten(Before(Queued(calls, false))) == Due(calls)
    ensures None in Queued(calls, false) <==> Close in calls
  {
    if calls != [] {
      if calls[0].Publish? {
        QueueCarriesWhatIsDue(calls[1..]);
        var own := if calls[0].persist && calls[0].events != [] then [Some(calls[0].events)] else [];
        var rest := Queued(calls[1..], false);
        assert Queued(calls, false) == own + rest;
        if own == [] {
          assert own + rest == rest && [] + Due(calls[1..]) == Due(calls[1..]);
        } else {
          assert (own + rest)[1..] == rest;
          assert Before(own + rest) == [calls[0].events] + Before(rest);
        }
      } else {
        assert Queued(calls, false)[0] == None && Close == calls[0];
      }
    }
  }

  datatype Ending = Done | Waiting | Crashed

  /** What the client is told: the payloads, in order, whether a delta was sent, and how the iteration ends. */
  datatype Told = Told(payloads: seq<Event>, sentDelta: bool, ending: Ending)

  predicate IsType(event: Event, kind: string)
  {
    Get(event, "type") == Some(Str(kind))
  }

  function Prefixed(first: seq<Event>, told: Told): Told
  {
    told.(payloads := first + told.payloads)
  }

  /** The choice chunk that stands in for deltas nobody sent. */
  function Chunk(content: Json): Event
  {
    [Field("choices", List([Obj([Field("delta", Obj([Field("content", content)]))])]))]
  }

  function Tell(inbox: seq<Option<Event>>, sentDelta: bool): Told
  {
    if inbox == [] then Told([], sentDelta, Waiting)
    else if inbox[0].None? then Told([], sentDelta, Done)
    else
      var event := inbox[0].value;
      if !IsType(event, "final") || sentDelta then
        var later := Tell(inbox[1..], sentDelta || IsType(event, "delta"));
        later.(payloads := [event] + later.payloads)
      else if Get(event, "content").None? then Told([], sentDelta, Crashed)
      else
        var later := Tell(inbox[1..], sentDelta);
        later.(payloads := [Chunk(Get(event, "content").value), event] + later.payloads)
  }

  /** One turn of the telling. */
  lemma TellOne(inbox: seq<Option<Event>>, sentDelta: bool)
    ensures var told := Tell(inbox, sentDelta);
            if inbox == [] then told == Told([], sentDelta, Waiting)
            else if inbox[0].None? then told == Told([], sentDelta, Done)
            else
              var event := inbox[0].value;
              if IsType(event, "delta") then told == Prefixed([event], Tell(inbox[1..], true))
              else if !IsType(event, "final") || sentDelta then told == Prefixed([event], Tell(inbox[1..], sentDelta))
              else if Get(event, "content").None? then told == Told([], sentDelta, Crashed)
              else told
                   == Prefixed([Chunk(Get(event, "content").value)], Prefixed([event], Tell(inbox[1..], sentDelta)))
  {
    hide Get, Chunk;
    assert "delta"[0] != "final"[0];
    if inbox != [] && inbox[0].Some? && Get(inbox[0].value, "content").Some? {
      var event, later := inbox[0].value, Tell(inbox[1..], sentDelta);
      var chunk := Chunk(Get(event, "content").value);
      assert [chunk, event] + later.payloads == [chunk] + ([event] + later.payloads);
    }
  }

  // What is told, event by event.

  /** Whether the stand-in chunk goes in front of an event: a final, and no delta told before it. */
  predicate NeedsChunk(events: seq<Event>, i: nat, sentDelta: bool)
    requires i < |events|
  {
    IsType(events[i], "final") && !sentDelta && forall j :: 0 <= j < i ==> !IsType(events[j], "delta")
  }

  /** The payloads of each event: itself, after the stand-in chunk of its content where it needs one. */
  function PerEvent(events: seq<Event>, sentDelta: bool): (told: seq<seq<Event>>)
    ensures |told| == |events|
    ensures forall i :: 0 <= i < |events| ==>
              told[i] == if NeedsChunk(events, i, sentDelta) && Get(events[i], "content").Some?
                         then [Chunk(Get(events[i], "content").value), events[i]] else [events[i]]
  {
    seq(|events|, i requires 0 <= i < |events| =>
      if NeedsChunk(events, i, sentDelta) && Get(events[i], "content").Some?
      then [Chunk(Get(events[i], "content").value), events[i]] else [events[i]])
  }

  /** An event that stops the iteration: a final that needs its chunk and has no content. */
  predicate Stops(events: seq<Event>, sentDelta: bool)
  {
    exists i: nat :: i < |events| && NeedsChunk(events, i, sentDelta) && Get(events[i], "content").None?
  }

  lemma NeedsChunkLater(events: seq<Event>, sentDelta: bool, i: nat)
    requires i + 1 < |events|
    ensures NeedsChunk(events[1..], i, sentDelta || IsType(events[0], "delta")) <==>
            NeedsChunk(events, i + 1, sentDelta)
  {
    hide IsType;
    assert events[1..][i] == events[i + 1];
    if NeedsChunk(events, i + 1, sentDelta) {
      assert forall j :: 0 <= j < i ==> events[1..][j] == events[j + 1];
    }
    if NeedsChunk(events[1..], i, sentDelta || IsType(events[0], "delta")) {
      assert forall j :: 0 < j < i + 1 ==> events[j] == events[1..][j - 1];
    }
  }

  lemma StopsLater(events: seq<Event>, sentDelta: bool)
    requires events != []
    ensures Stops(events, sentDelta) <==>
              || (IsType(events[0], "final") && !sentDelta && Get(events[0], "content").None?)
              || Stops(events[1..], sentDelta || IsType(events[0], "delta"))
  {
    assert NeedsChunk(events, 0, sentDelta) <==> IsType(events[0], "final") && !sentDelta;
    hide IsType, NeedsChunk, Get;
    if i: nat :| i < |events| && NeedsChunk(events, i, sentDelta) && Get(events[i], "content").None? {
      if i > 0 {
        NeedsChunkLater(events, sentDelta, i - 1);
        assert events[1..][i - 1] == events[i];
      }
    }
    if i: nat :| i < |events[1..]| && NeedsChunk(events[1..], i, sentDelta || IsType(events[0], "delta"))
                 && Get(events[1..][i], "content").None? {
      NeedsChunkLater(events, sentDelta, i);
      assert events[1..][i] == events[i + 1];
    }
  }

  lemma PerEventLater(events: seq<Event>, sentDelta: bool)
    requires events != []
    ensures PerEvent(events, sentDelta)[1..] == PerEvent(events[1..], sentDelta || IsType(events[0], "delta"))
    ensures PerEvent(events, sentDelta)[0] == if IsType(events[0], "final") && !sentDelta
            && Get(events[0], "content").Some?
                                              then [Chunk(Get(events[0], "content").value), events[0]] else [events[0]]
  {
    assert NeedsChunk(events, 0, sentDelta) <==> IsType(events[0], "final") && !sentDelta;
    hide IsType, NeedsChunk, Get, Chunk;
    var told, later := PerEvent(events, sentDelta)[1..], PerEvent(events[1..], sentDelta || IsType(events[0], "delta"));
    forall i | 0 <= i < |later| ensures told[i] == later[i] {
      NeedsChunkLater(events, sentDelta, i);
      assert events[1..][i] == events[i + 1] && told[i] == PerEvent(events, sentDelta)[i + 1];
    }
  }

  /**
   * The telling crashes exactly when an event stops it. Otherwise the client is told each event before the end mark, in
   * order, with the stand-in chunks where they are needed.
   */
  lemma {:induction false} TellExactly(inbox: seq<Option<Event>>, sentDelta: bool)
    ensures Tell(inbox, sentDelta).ending == Crashed <==> Stops(Before(inbox), sentDelta)
    ensures !Stops(Before(inbox), sentDelta) ==>
              && Tell(inbox, sentDelta).payloads == Flatten(PerEvent(Before(inbox), sentDelta))
              && Tell(inbox, sentDelta).ending == if None in inbox then Done else Waiting
  {
    BeforeOne(inbox);
    TellOne(inbox, sentDelta);
    if inbox == [] || inbox[0].None? {
      hide Tell, IsType, Get;
      assert PerEvent([], sentDelta) == [];
    } else {
      var events, event := Before(inbox), inbox[0].value;
      hide *;
      EventsAre(events, event, inbox);
      StopsLater(events, sentDelta);
      PerEventLater(events, sentDelta);
      TypesDiffer(event);
      TellExactly(inbox[1..], sentDelta || IsType(event, "delta"));
      var per := PerEvent(events, sentDelta);
      PerEventFlat(per);
      if IsType(event, "final") && !sentDelta && Get(event, "content").Some? {
        TwoPayloads(Chunk(Get(event, "content").value), event, Tell(inbox[1..], sentDelta));
      } else {
        OnePayload(event, Tell(inbox[1..], sentDelta || IsType(event, "delta")));
      }
    }
  }

  lemma EventsAre(events: seq<Event>, event: Event, inbox: seq<Option<Event>>)
    requires inbox != [] && events == [event] + Before(inbox[1..])
    ensures events != [] && events[0] == event && events[1..] == Before(inbox[1..])
  {}

  lemma TypesDiffer(event: Event)
    ensures IsType(event, "delta") ==> !IsType(event, "final")
  {
    assert "delta"[0] != "final"[0];
    hide Get;
  }

  lemma PerEventFlat(per: seq<seq<Event>>)
    ensures per != [] ==> Flatten(per) == per[0] + Flatten(per[1..])
  {}

  lemma OnePayload(event: Event, told: Told)
    ensures Prefixed([event], told) == Told([event] + told.payloads, told.sentDelta, told.ending)
  {}

  lemma TwoPayloads(chunk: Event, event: Event, told: Told)
    ensures Prefixed([chunk], Prefixed([event], told))
            == Told([chunk, event] + told.payloads, told.sentDelta, told.ending)
  {
    assert [chunk] + ([event] + told.payloads) == [chunk, event] + told.payloads;
  }

  /** A stand-in chunk carries the content where clients of the completions protocol look for it, and nothing else. */
  lemma ChunkCarries(content: Json)
    ensures |Chunk(content)| == 1
    ensures Lookup(Obj(Chunk(content)), [Key("choices"), Index(0), Key("delta"), Key("content")]) == Some(content)
  {
    var path := [Key("choices"), Index(0), Key("delta"), Key("content")];
    assert path[1..] == [Index(0), Key("delta"), Key("content")] && path[1..][1..] == [Key("delta"), Key("content")];
    assert [Key("delta"), Key("content")][1..] == [Key("content")] && [Key("content")][1..] == [];
  }

  predicate Numbered(event: Event)
  {
    Get(event, "stream_seq").Some?
  }

  function OnlyNumbered(payloads: seq<Event>): seq<Event>
  {
    if payloads == [] then []
    else (if Numbered(payloads[0]) then [payloads[0]] else []) + OnlyNumbered(payloads[1..])
  }

  /**
   * Dropping the stand-in chunks, a client that hears the end has heard every event queued before it, once and in
   * order.
   */
  lemma {:induction false} EveryWireEventIsTold(inbox: seq<Option<Event>>, sentDelta: bool)
    requires forall e <- Before(inbox) :: Numbered(e)
    requires !Tell(inbox, sentDelta).ending.Crashed?
    ensures OnlyNumbered(Tell(inbox, sentDelta).payloads) == Before(inbox)
    ensures Tell(inbox, sentDelta).ending == if None in inbox then Done else Waiting
  {
    BeforeOne(inbox);
    if inbox == [] || inbox[0].None? {
    } else {
      TellOne(inbox, sentDelta);
      NumberedBefore(inbox);
      hide *;
      var event, rest := inbox[0].value, inbox[1..];
      if IsType(event, "delta") {
        EveryWireEventIsTold(rest, true);
        OneMorePayload(event, Tell(rest, true));
      } else {
        EveryWireEventIsTold(rest, sentDelta);
        OneMorePayload(event, Tell(rest, sentDelta));
        if IsType(event, "final") && !sentDelta {
          ChunkHasNoNumber(Get(event, "content").value);
          OneMorePayload(Chunk(Get(event, "content").value), Prefixed([event], Tell(rest, sentDelta)));
        }
      }
    }
  }

  lemma BeforeOne(inbox: seq<Option<Event>>)
    ensures inbox == [] || inbox[0].None? ==> Before(inbox) == []
    ensures inbox != [] && inbox[0].Some? ==> Before(inbox) == [inbox[0].value] + Before(inbox[1..])
    ensures inbox != [] && inbox[0].Some? ==> (None in inbox <==> None in inbox[1..])
    ensures inbox != [] && inbox[0].None? ==> None in inbox
  {
    if inbox != [] { assert inbox == [inbox[0]] + inbox[1..]; }
  }

  lemma NumberedBefore(inbox: seq<Option<Event>>)
    requires inbox != [] && inbox[0].Some? && forall e <- Before(inbox) :: Numbered(e)
    ensures Numbered(inbox[0].value) && forall e <- Before(inbox[1..]) :: Numbered(e)
  {
    hide Numbered;
    assert Before(inbox)[0] == inbox[0].value;
    assert forall e <- Before(inbox[1..]) :: e in Before(inbox);
  }

  lemma OneMorePayload(event: Event, told: Told)
    ensures OnlyNumbered(Prefixed([event], told).payloads) ==
            if Numbered(event) then [event] + OnlyNumbered(told.payloads) else OnlyNumbered(told.payloads)
    ensures Prefixed([event], told).ending == told.ending
  {
    hide Numbered;
    assert ([event] + told.payloads)[1..] == told.payloads;
  }

  lemma ChunkHasNoNumber(content: Json)
    ensures !Numbered(Chunk(content))
  {
    assert "choices"[0] != "stream_seq"[0];
  }

  lemma WiredAreNumbered(event: Event, threadId: string, jobId: string, number: nat)
    ensures Numbered(WireEvent(event, threadId, jobId, number))
  {}

  /** What is queued in front of a close mark, given that everything there is an event. */
  lemma {:induction false} BeforeClose(inbox: seq<Option<Event>>)
    requires forall e <- inbox :: e.Some?
    ensures |Before(inbox + [None])| == |inbox|
    ensures forall i :: 0 <= i < |inbox| ==> Before(inbox + [None])[i] == inbox[i].value
  {
    if inbox != [] {
      DropFirst(inbox, [None]);
      BeforeClose(inbox[1..]);
      BeforeOne(inbox + [None]);
    } else {
      assert (inbox + [None])[0] == None;
    }
  }

  /** Events published and then closed reach a client that hears the end: the i-th with the i-th number after `sent`. */
  lemma PublishedIsTold(events: seq<Event>, threadId: string, jobId: string, sent: nat, sentDelta: bool)
    requires !Tell(Wired(events, threadId, jobId, sent) + [None], sentDelta).ending.Crashed?
    ensures var told := Tell(Wired(events, threadId, jobId, sent) + [None], sentDelta);
            && told.ending == Done && |OnlyNumbered(told.payloads)| == |events|
            && forall i :: 0 <= i < |events| ==>
                 OnlyNumbered(told.payloads)[i] == WireEvent(events[i], threadId, jobId, sent + i + 1)
  {
    var wired := Wired(events, threadId, jobId, sent);
    hide Tell, OnlyNumbered, Numbered, WireEvent, Before;
    BeforeClose(wired);
    forall e <- Before(wired + [None]) ensures Numbered(e) {
      var i :| 0 <= i < |wired| && Before(wired + [None])[i] == e;
      WiredAreNumbered(events[i], threadId, jobId, sent + i + 1);
    }
    EveryWireEventIsTold(wired + [None], sentDelta);
    assert (wired + [None])[|wired|] == None;
  }

  function Texts(codec: Codec, payloads: seq<Event>): seq<string>
  {
    seq(|payloads|, i requires 0 <= i < |payloads| => codec.print_(Obj(payloads[i])))
  }

  predicate Frame(text: string)
  {
    EndsWithBlankLine(text)
  }

  /** The data values of a list of frames sent one after the other. */
  function Heard(frames: seq<string>): seq<string>
  {
    DataValues(Flatten(frames))
  }

  lemma NothingHeard()
    ensures Heard([]) == [] && DataValues(PING) == []
  {
    assert Normalize("") == "" && Flatten<char>([]) == "";
    SplitNothing('\n');
    NoLineLeft();
    NormalizePlain(PING);
    PingLines();
    PingDispatches();
    hide *;
    ValuesOfLines(PING);
    ValuesOfLines("");
    HeardNothing();
  }

  lemma HeardNothing()
    ensures Heard([]) == DataValues("")
  {
    hide DataValues;
  }

  lemma PingLines()
    ensures SplitOn(PING, '\n') == [": ping", "", ""]
  {
    SplitPlain(": ping", '\n');
    hide SplitOn;
    SplitTerminated(": ping", "");
    SplitNothing('\n');
    assert PING == ": ping" + "\n" + "\n" + "";
    assert [": ping"] + [""] + [""] == [": ping", "", ""];
  }

  lemma PingDispatches()
    ensures Collect([": ping", "", ""], []) == []
  {
    assert [": ping", "", ""][1..] == ["", ""] && ["", ""][1..] == [""] && [""][1..] == [];
    assert !IsData(": ping") by { assert ": ping"[0] != "data:"[0]; }
    hide IsData;
    assert Collect([""], []) == [] && Collect(["", ""], []) == [] + Collect([""], []);
  }

  lemma FramesEndWithBlankLine(frames: seq<string>)
    requires frames != [] && forall f <- frames :: Frame(f)
    ensures EndsWithBlankLine(Flatten(frames))
  {
    var front, last := frames[..|frames| - 1], frames[|frames| - 1];
    assert Frame(last) && frames == front + [last];
    FlattenSnoc(front, last);
    var text := Flatten(front) + last;
    assert |last| >= 2 ==> text[|text| - 2..] == last[|last| - 2..];
    assert |last| >= 4 ==> text[|text| - 4..] == last[|last| - 4..];
  }

  lemma HeardSnoc(frames: seq<string>, frame: string)
    requires forall f <- frames :: Frame(f)
    ensures Heard(frames + [frame]) == Heard(frames) + DataValues(frame)
  {
    NothingHeard();
    hide DataValues;
    FlattenSnoc(frames, frame);
    if frames == [] {
      assert Flatten(frames) + frame == frame && [] + DataValues(frame) == DataValues(frame);
    } else {
      FramesEndWithBlankLine(frames);
      ValuesAppend(Flatten(frames), frame);
    }
  }

  lemma JsonFrameHeard(codec: Codec, event: Event)
    requires codec.Faithful()
    ensures DataValues(DataFrame(codec.print_(Obj(event)))) == [codec.print_(Obj(event))]
  {
    assert PrintsOnOneLine(codec.print_(Obj(event)));
    DataFrameReadsBack(codec.print_(Obj(event)));
  }

  /** A group of publishes written together: it only grew while it was below the limit. */
  predicate FairGroup(group: seq<seq<Event>>, limit: nat)
  {
    group != [] && (|group| == 1 || |Flatten(group[..|group| - 1])| < limit)
  }

  /**
   * A group starting with `first` and taken from `inbox` leaves `rest`, and the close mark only if it was not taken.
   */
  ghost predicate Taken(first: seq<Event>, inbox: seq<Option<seq<Event>>>, group: seq<seq<Event>>, sentinel: bool,
                        rest: seq<Option<seq<Event>>>)
  {
    && |rest| <= |inbox|
    && (sentinel ==> [first] + Before(inbox) == group && After(inbox) == rest && None in inbox)
    && (!sentinel ==> [first] + Before(inbox) == group + Before(rest) && After(inbox) == After(rest))
    && (!sentinel ==> (None in rest <==> None in inbox))
  }

  predicate AllFair(groups: seq<seq<seq<Event>>>, limit: nat)
  {
    forall g <- groups :: FairGroup(g, limit)
  }

  lemma NoGroups(limit: nat)
    ensures AllFair([], limit)
  {}

  lemma OneMoreGroup(groups: seq<seq<seq<Event>>>, group: seq<seq<Event>>, limit: nat)
    requires AllFair(groups, limit) && FairGroup(group, limit)
    ensures AllFair(groups + [group], limit)
  {
    hide FairGroup;
  }

  /** The groups written so far and what is still queued make up the inbox; `written` is their events. */
  ghost predicate Progress(groups: seq<seq<seq<Event>>>, written: seq<Event>, rest: seq<Option<seq<Event>>>,
                           inbox: seq<Option<seq<Event>>>)
  {
    && Flatten(groups) + Before(rest) == Before(inbox) && After(rest) == After(inbox)
    && (None in rest <==> None in inbox)
    && written == Flatten(Flatten(groups))
  }

  ghost predicate Finished(groups: seq<seq<seq<Event>>>, written: seq<Event>, rest: seq<Option<seq<Event>>>,
                           inbox: seq<Option<seq<Event>>>)
  {
    Flatten(groups) == Before(inbox) && written == Flatten(Before(inbox)) && rest == After(inbox)
  }

  class ChatRunStream {
    const threadId: string
    const jobId: string
    const persistBatchEvents: nat
    const thread: Thread
    var queue: seq<Option<Event>>
    var persistQueue: seq<Option<seq<Event>>>
    var lastEventSeq: Option<int>
    var wireSeq: nat
    var sentDelta: bool
    var closed: bool
    /** How many appends were attempted so far. */
    var attempts: nat

    ghost predicate Valid()
      reads this`lastEventSeq, thread
    {
      && persistBatchEvents >= 1
      && thread.Valid()
      && (lastEventSeq.Some? ==> 0 <= lastEventSeq.value <= |thread.log|)
    }

    ghost function View(): Writer
      requires Valid()
      reads this`lastEventSeq, thread
    {
      Writer(thread.Rows(), lastEventSeq)
    }

    constructor (threadId: string, jobId: string, persistBatchEvents: int, thread: Thread)
      requires thread.Valid()
      ensures Valid() && this.thread == thread && View() == Writer(thread.Rows(), None)
      ensures queue == [] && persistQueue == [] && !closed && !sentDelta && wireSeq == 0 && attempts == 0
    {
      this.threadId, this.jobId, this.thread := threadId, jobId, thread;
      this.persistBatchEvents := if persistBatchEvents > 1 then persistBatchEvents else 1;
      queue, persistQueue, lastEventSeq := [], [], None;
      wireSeq, sentDelta, closed, attempts := 0, false, false, 0;
    }

    /** `publish_many` */
    method PublishMany(events: seq<Event>, persist: bool)
      modifies this`queue, this`persistQueue, this`wireSeq
      ensures queue == old(queue) + Wired(events, threadId, jobId, old(wireSeq))
      ensures wireSeq == old(wireSeq) + |events|
      ensures persistQueue == old(persistQueue) + Queued([Publish(events, persist)], closed)
    {
      hide *;
      QueuedOne(persistQueue, events, persist, closed);
      WiredNone(queue, events, threadId, jobId, wireSeq);
      if events == [] {
        return;
      }
      for i := 0 to |events|
        invariant queue == old(queue) + Wired(events[..i], threadId, jobId, old(wireSeq))
        invariant wireSeq == old(wireSeq) + i && persistQueue == old(persistQueue)
      {
        wireSeq := wireSeq + 1;
        queue := queue + [Some(WireEvent(events[i], threadId, jobId, wireSeq))];
        WiredStep(old(queue), events, i, threadId, jobId, old(wireSeq));
      }
      if persist {
        persistQueue := persistQueue + [Some(events)];
      }
    }

    /** `close`, up to waiting for the persister */
    method CloseStream()
      modifies this`queue, this`persistQueue, this`closed
      ensures closed
      ensures queue == old(queue) + if old(closed) then [] else [None]
      ensures persistQueue == old(persistQueue) + Queued([Close], old(closed))
    {
      assert [Close][1..] == [];
      if closed {
        return;
      }
      closed := true;
      queue := queue + [None];
      persistQueue := persistQueue + [None];
    }

    /** One turn of the loop in `_persist_batch`: after a failure the number is looked up again. */
    method PersistOne(event: Event, world: World)
      requires Valid()
      modifies this`lastEventSeq, this`attempts, thread
      ensures Valid()
      ensures View() == AppendOne(old(View()), event, world, old(attempts))
      ensures attempts == old(attempts) + 1
    {
      hide Appended, WithType;
      var number := thread.Append(event, lastEventSeq, world, attempts);
      lastEventSeq := number;
      attempts := attempts + 1;
    }

    /** `_persist_batch` */
    method PersistBatch(events: seq<Event>, world: World)
      requires Valid()
      modifies this`lastEventSeq, this`attempts, thread
      ensures Valid()
      ensures View() == AppendAll(old(View()), events, world, old(attempts))
      ensures attempts == old(attempts) + |events|
    {
      hide AppendOne;
      for i := 0 to |events|
        invariant Valid()
        invariant View() == AppendAll(old(View()), events[..i], world, old(attempts))
        invariant attempts == old(attempts) + i
      {
        PersistOne(events[i], world);
        AppendAllSnoc(old(View()), events[..i], events[i], world, old(attempts));
        assert events[..i + 1] == events[..i] + [events[i]];
      }
      assert events[..|events|] == events;
    }

    /**
     * `_persist_events`, until it stops at the close mark or waits on an empty queue. `expired(k)` says whether the
     * batch window runs out while waiting for the next item after `k` were taken. Whatever the window does, the same
     * appends are attempted in the same order; it only decides how they are grouped.
     */
    method PersistEvents(expired: nat -> bool, world: World) returns (groups: seq<seq<seq<Event>>>, stopped: bool)
      requires Valid()
      modifies this`persistQueue, this`lastEventSeq, this`attempts, thread
      ensures Valid()
      ensures View() == AppendAll(old(View()), Flatten(Before(old(persistQueue))), world, old(attempts))
      ensures attempts == old(attempts) + |Flatten(Before(old(persistQueue)))|
      ensures Finished(groups, Flatten(Before(old(persistQueue))), persistQueue, old(persistQueue))
      ensures stopped == (None in old(persistQueue))
      ensures AllFair(groups, persistBatchEvents)
    {
      hide *;
      StartProgress(persistQueue);
      AppendNothing(View(), world, attempts);
      NoGroups(persistBatchEvents);
      groups := [];
      var taken: nat := 0;
      ghost var inbox := persistQueue;
      ghost var written: seq<Event> := [];
      while persistQueue != []
        invariant Valid()
        invariant Progress(groups, written, persistQueue, inbox)
        invariant View() == AppendAll(old(View()), written, world, old(attempts))
        invariant attempts == old(attempts) + |written|
        invariant AllFair(groups, persistBatchEvents)
        decreases |persistQueue|
      {
        EndProgress(groups, written, persistQueue, inbox);
        ghost var before := persistQueue;
        var batch := persistQueue[0];
        persistQueue := persistQueue[1..];
        taken := taken + 1;
        if batch.None? {
          return groups, true;
        }
        var group, sentinel := PersistGroup(batch.value, expired, taken, world);
        taken := taken + |group|;
        GroupAdded(groups, written, before, group, sentinel, persistQueue, inbox);
        AppendAllSplit(old(View()), written, Flatten(group), world, old(attempts));
        OneMoreGroup(groups, group, persistBatchEvents);
        groups := groups + [group];
        written := written + Flatten(group);
        if sentinel {
          return groups, true;
        }
      }
      EndProgress(groups, written, persistQueue, inbox);
      return groups, false;
    }

    /** Filling one group and writing it. */
    method PersistGroup(first: seq<Event>, expired: nat -> bool, taken: nat, world: World)
      returns (group: seq<seq<Event>>, sentinel: bool)
      requires Valid()
      modifies this`persistQueue, this`lastEventSeq, this`attempts, thread
      ensures Valid()
      ensures FairGroup(group, persistBatchEvents) && Taken(first, old(persistQueue), group, sentinel, persistQueue)
      ensures View() == AppendAll(old(View()), Flatten(group), world, old(attempts))
      ensures attempts == old(attempts) + |Flatten(group)|
    {
      hide AppendAll, Flatten, FairGroup, Taken;
      group, sentinel := TakeGroup(first, expired, taken);
      PersistBatch(Flatten(group), world);
    }

    /** Until the group is large enough, the window runs out, or the close mark is taken. */
    method TakeGroup(first: seq<Event>, expired: nat -> bool, taken: nat)
        returns (group: seq<seq<Event>>, sentinel: bool)
      modifies this`persistQueue
      ensures FairGroup(group, persistBatchEvents) && Taken(first, old(persistQueue), group, sentinel, persistQueue)
    {
      group, sentinel := [first], false;
      var count := |first|;
      assert ([Some(first)] + persistQueue)[1..] == persistQueue;
      assert Flatten([first]) == first + Flatten([]) == first;
      while count < persistBatchEvents && persistQueue != [] && !expired(taken + |group|)
        invariant FairGroup(group, persistBatchEvents) && count == |Flatten(group)|
        invariant Taken(first, old(persistQueue), group, false, persistQueue)
        decreases |persistQueue|
      {
        var next := persistQueue[0];
        persistQueue := persistQueue[1..];
        if next.None? {
          assert group + [] == group;
          return group, true;
        }
        FlattenSnoc(group, next.value);
        assert (group + [next.value])[..|group|] == group;
        assert group + ([next.value] + Before(persistQueue)) == group + [next.value] + Before(persistQueue);
        group := group + [next.value];
        count := count + |next.value|;
      }
    }

    /**
     * `iter_sse`, until it ends or waits on an empty queue; `pauses(k)` heartbeats go out before the event after `k`
     * others. The client hears the told payloads and the end mark, and no heartbeat.
     */
    method IterSse(codec: Codec, pauses: nat -> nat) returns (frames: seq<string>, ending: Ending)
      requires codec.Faithful()
      modifies this`queue, this`sentDelta
      ensures ending == Tell(old(queue), old(sentDelta)).ending
              && sentDelta == Tell(old(queue), old(sentDelta)).sentDelta
      ensures Heard(frames) == Texts(codec, Tell(old(queue), old(sentDelta)).payloads)
                               + if ending.Done? then [DONE] else []
      ensures ending.Done? ==> queue == After(old(queue))
    {
      NothingHeard();
      hide Heard, DataValues, EndsWithBlankLine, IsType, Get, Tell, Chunk;
      frames := [];
      ghost var told: seq<Event> := [];
      var taken: nat := 0;
      while true
        invariant forall f <- frames :: Frame(f)
        invariant Heard(frames) == Texts(codec, told)
        invariant Tell(old(queue), old(sentDelta)) == Prefixed(told, Tell(queue, sentDelta))
        invariant After(queue) == After(old(queue))
        decreases |queue|
      {
        frames := SendPings(frames, pauses(taken));
        TellOne(queue, sentDelta);
        if queue == [] {
          return frames, Waiting;
        }
        var ev := queue[0];
        queue := queue[1..];
        taken := taken + 1;
        if ev.None? {
          frames := SendDone(frames);
          return frames, Done;
        }
        var event := ev.value;
        if IsType(event, "delta") {
          sentDelta := true;
          frames, told := Send(codec, frames, told, event, Tell(queue, sentDelta));
          continue;
        }
        if IsType(event, "final") {
          if !sentDelta {
            if Get(event, "content").None? {
              return frames, Crashed;
            }
            var chunk := Chunk(Get(event, "content").value);
            frames, told := Send(codec, frames, told, chunk, Prefixed([event], Tell(queue, sentDelta)));
          }
          frames, told := Send(codec, frames, told, event, Tell(queue, sentDelta));
          continue;
        }
        frames, told := Send(codec, frames, told, event, Tell(queue, sentDelta));
      }
    }

    static method SendPings(sent: seq<string>, n: nat) returns (frames: seq<string>)
      requires forall f <- sent :: Frame(f)
      ensures (forall f <- frames :: Frame(f)) && Heard(frames) == Heard(sent)
    {
      frames := sent;
      for i := 0 to n
        invariant (forall f <- frames :: Frame(f)) && Heard(frames) == Heard(sent)
      {
        NothingHeard();
        HeardSnoc(frames, PING);
        frames := frames + [PING];
      }
    }

    static method SendDone(sent: seq<string>) returns (frames: seq<string>)
      requires forall f <- sent :: Frame(f)
      ensures Heard(frames) == Heard(sent) + [DONE]
    {
      DoneFrameHeard();
      HeardSnoc(sent, DataFrame(DONE));
      frames := sent + [DataFrame(DONE)];
    }

    static method Send(codec: Codec, sent: seq<string>, ghost told: seq<Event>, event: Event, ghost later: Told)
      returns (frames: seq<string>, ghost after: seq<Event>)
      requires codec.Faithful() && (forall f <- sent :: Frame(f)) && Heard(sent) == Texts(codec, told)
      ensures (forall f <- frames :: Frame(f)) && Heard(frames) == Texts(codec, after)
      ensures Prefixed(after, later) == Prefixed(told, Prefixed([event], later))
    {
      var frame := DataFrame(codec.print_(Obj(event)));
      JsonFrameHeard(codec, event);
      HeardSnoc(sent, frame);
      frames, after := sent + [frame], told + [event];
      assert Texts(codec, after) == Texts(codec, told) + [codec.print_(Obj(event))];
      assert told + ([event] + later.payloads) == (told + [event]) + later.payloads;
    }
  }

  lemma StartProgress(inbox: seq<Option<seq<Event>>>)
    ensures Progress([], [], inbox, inbox)
  {
    assert [] + Before(inbox) == Before(inbox);
  }

  lemma EndProgress(groups: seq<seq<seq<Event>>>, written: seq<Event>, rest: seq<Option<seq<Event>>>,
                    inbox: seq<Option<seq<Event>>>)
    requires Progress(groups, written, rest, inbox)
    ensures rest == [] ==> Finished(groups, written, rest, inbox) && None !in inbox
    ensures rest != [] && rest[0].None? ==> Finished(groups, written, rest[1..], inbox) && None in inbox
    ensures rest == [] || rest[0].None? ==> written == Flatten(Before(inbox))
  {
    assert Flatten(groups) + [] == Flatten(groups);
  }

  lemma PopSome(inbox: seq<Option<seq<Event>>>)
    requires inbox != [] && inbox[0].Some?
    ensures Before(inbox) == [inbox[0].value] + Before(inbox[1..]) && After(inbox) == After(inbox[1..])
    ensures None in inbox <==> None in inbox[1..]
  {
    assert inbox == [inbox[0]] + inbox[1..];
  }

  lemma GroupAdded(groups: seq<seq<seq<Event>>>, written: seq<Event>, before: seq<Option<seq<Event>>>,
                   group: seq<seq<Event>>, sentinel: bool, rest: seq<Option<seq<Event>>>,
                       inbox: seq<Option<seq<Event>>>)
    requires Progress(groups, written, before, inbox) && before != [] && before[0].Some?
    requires Taken(before[0].value, before[1..], group, sentinel, rest)
    ensures sentinel ==> Finished(groups + [group], written + Flatten(group), rest, inbox) && None in inbox
    ensures sentinel ==> written + Flatten(group) == Flatten(Before(inbox))
    ensures !sentinel ==> Progress(groups + [group], written + Flatten(group), rest, inbox)
    ensures |rest| < |before|
  {
    hide Flatten, Before, After;
    PopSome(before);
    FlattenSnoc(groups, group);
    FlattenAppend(Flatten(groups), group);
    if !sentinel {
      assert Flatten(groups) + (group + Before(rest)) == Flatten(groups) + group + Before(rest);
    }
  }

  lemma AppendNothing(w: Writer, world: World, attempt: nat)
    ensures AppendAll(w, [], world, attempt) == w
  {}

  lemma AppendAllSnoc(w: Writer, events: seq<Event>, last: Event, world: World, attempt: nat)
    ensures AppendAll(w, events + [last], world, attempt)
         == AppendOne(AppendAll(w, events, world, attempt), last, world, attempt + |events|)
  {
    hide AppendOne;
    AppendAllSplit(w, events, [last], world, attempt);
    assert [last][1..] == [];
  }

  /**
   * In a calm world the writer's part of the transcript grows by exactly the events to keep, whatever was published.
   */
  lemma WhatIsDueIsStored(calls: seq<Call>, w: Writer, world: World)
    requires OthersOnly(world) && Calm(world)
    ensures Mine(AppendAll(w, Flatten(Before(Queued(calls, false))), world, 0).rows) == Mine(w.rows)
            + AllTyped(Due(calls))
  {
    QueueCarriesWhatIsDue(calls);
    OrderIsKept(w, Due(calls), world, 0);
    CalmLosesNothing(w, Due(calls), world, 0);
  }

  lemma DoneFrameHeard()
    ensures DataValues(DataFrame(DONE)) == [DONE]
  {
    DataFrameReadsBack(DONE);
  }
}
