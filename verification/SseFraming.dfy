/**
 * Cutting an event stream into frames (`_pop_sse_frame` and the buffer part of `evidence_sse`
 * in agent_ingress.py). The main results: the terminator that starts first is also the first to
 * complete, and cutting the same bytes into different chunks never changes what is scanned.
 */
module SseFraming {
  import opened Common

  const LF: byte := 10
  const CR: byte := 13
  const LF_LF: Bytes := [LF, LF]
  const CRLF_CRLF: Bytes := [CR, LF, CR, LF]
  const MAX_SSE_FRAME_BYTES: nat := 1024 * 1024

  predicate MarkerAt(raw: Bytes, marker: Bytes, i: nat)
  {
    i + |marker| <= |raw| && raw[i..i + |marker|] == marker
  }

  /** `raw.find(marker)`, searching from `i`. */
  function FindFrom(raw: Bytes, marker: Bytes, i: nat): (r: Option<nat>)
    requires i <= |raw|
    ensures r.None? ==> forall k: nat :: i <= k ==> !MarkerAt(raw, marker, k)
    ensures r.Some? ==> i <= r.value <= |raw| && MarkerAt(raw, marker, r.value)
    ensures r.Some? ==> forall k: nat :: i <= k < r.value ==> !MarkerAt(raw, marker, k)
    decreases |raw| - i
  {
    if MarkerAt(raw, marker, i) then Some(i)
    else if i == |raw| then None
    else FindFrom(raw, marker, i + 1)
  }

  /** The cut `_pop_sse_frame` makes: past the terminator that starts first. */
  function CutPoint(raw: Bytes): (cut: Option<nat>)
    ensures cut.Some? ==> 2 <= cut.value <= |raw|
  {
    var lf := FindFrom(raw, LF_LF, 0);
    var crlf := FindFrom(raw, CRLF_CRLF, 0);
    if lf.None? && crlf.None? then None
    else
      var position :=
        if lf.None? then crlf.value
        else if crlf.None? then lf.value
        else if lf.value <= crlf.value then lf.value else crlf.value;
      Some(position + if MarkerAt(raw, CRLF_CRLF, position) then 4 else 2)
  }

  /** A terminator is complete once `e` bytes have arrived. */
  predicate Completes(raw: Bytes, e: nat)
  {
    || (2 <= e <= |raw| && raw[e - 2] == LF && raw[e - 1] == LF)
    || (4 <= e <= |raw| && raw[e - 4] == CR && raw[e - 3] == LF && raw[e - 2] == CR && raw[e - 1] == LF)
  }

  /** The least number of bytes after which some terminator is complete: no search for markers, only arrival order. */
  function FirstCompletion(raw: Bytes, e: nat := 0): (r: Option<nat>)
    requires e <= |raw|
    ensures r.None? ==> forall k: nat :: e <= k ==> !Completes(raw, k)
    ensures r.Some? ==> e <= r.value <= |raw| && 2 <= r.value && Completes(raw, r.value)
    ensures r.Some? ==> forall k: nat :: e <= k < r.value ==> !Completes(raw, k)
    decreases |raw| - e
  {
    if Completes(raw, e) then Some(e)
    else if e == |raw| then None
    else FirstCompletion(raw, e + 1)
  }

  lemma MarkerBytes(raw: Bytes, i: nat)
    ensures MarkerAt(raw, LF_LF, i) <==> i + 2 <= |raw| && raw[i] == LF && raw[i + 1] == LF
    ensures MarkerAt(raw, CRLF_CRLF, i) <==>
              i + 4 <= |raw| && raw[i] == CR && raw[i + 1] == LF && raw[i + 2] == CR && raw[i + 3] == LF
  {
    if i + 2 <= |raw| {
      var s := raw[i..i + 2];
      assert s == [s[0], s[1]];
    }
    if i + 4 <= |raw| {
      var s := raw[i..i + 4];
      assert s == [s[0], s[1], s[2], s[3]];
    }
  }

  lemma CompletesIsMarker(raw: Bytes, e: nat)
    ensures Completes(raw, e) <==>
              || (2 <= e && MarkerAt(raw, LF_LF, e - 2))
              || (4 <= e && MarkerAt(raw, CRLF_CRLF, e - 4))
  {
    if 2 <= e { MarkerBytes(raw, e - 2); }
    if 4 <= e { MarkerBytes(raw, e - 4); }
  }

  /** Wherever a terminator completes, the cut is already made: a LF LF cannot overlap a CRLF CRLF that starts first. */
  lemma CutByCompletion(raw: Bytes, e: nat)
    requires Completes(raw, e)
    ensures CutPoint(raw).Some? && CutPoint(raw).value <= e
  {
    CompletesIsMarker(raw, e);
    if 2 <= e && MarkerAt(raw, LF_LF, e - 2) {
      var p := FindFrom(raw, LF_LF, 0).value;
      var crlf := FindFrom(raw, CRLF_CRLF, 0);
      MarkerBytes(raw, p);
      if crlf.Some? {
        MarkerBytes(raw, crlf.value);
      }
    }
  }

  /** The terminator that starts first is the first one to complete, so the cut does not wait for more bytes. */
  lemma CutIsFirstCompletion(raw: Bytes)
    ensures CutPoint(raw) == FirstCompletion(raw)
  {
    var cut, first := CutPoint(raw), FirstCompletion(raw);
    if first.Some? {
      CutByCompletion(raw, first.value);
    }
    if cut.Some? {
      CompletesIsMarker(raw, cut.value);
      assert Completes(raw, cut.value);
    }
  }

  /** More bytes never move a cut that is already there, and a cut they add lies past what had arrived. */
  lemma CutOfExtension(raw: Bytes, more: Bytes)
    ensures CutPoint(raw).Some? ==> CutPoint(raw + more) == CutPoint(raw)
    ensures CutPoint(raw).None? && CutPoint(raw + more).Some? ==> CutPoint(raw + more).value > |raw|
  {
    CutIsFirstCompletion(raw);
    CutIsFirstCompletion(raw + more);
    forall e: nat | e <= |raw|
      ensures Completes(raw, e) <==> Completes(raw + more, e)
    {}
  }

  /** What a buffer yields: whole frames, the bytes left over, and whether a frame or the leftover broke the limit. */
  datatype Scan = Scan(frames: seq<Bytes>, rest: Bytes, oversized: bool)

  /** One pass over all the bytes at once. */
  function ScanAll(raw: Bytes, limit: nat): (scan: Scan)
    ensures scan.oversized ==> scan.rest == []
    ensures !scan.oversized ==> |scan.rest| <= limit
    decreases |raw|
  {
    match CutPoint(raw)
    case None => if |raw| > limit then Scan([], [], true) else Scan([], raw, false)
    case Some(cut) =>
      if cut > limit then Scan([], [], true)
      else
        var later := ScanAll(raw[cut..], limit);
        Scan([raw[..cut]] + later.frames, later.rest, later.oversized)
  }

  /** One more chunk on top of an earlier scan; nothing is read once a frame was oversized. */
  function Feed(scan: Scan, chunk: Bytes, limit: nat): Scan
  {
    if scan.oversized then scan
    else
      var next := ScanAll(scan.rest + chunk, limit);
      Scan(scan.frames + next.frames, next.rest, next.oversized)
  }

  function FeedAll(scan: Scan, chunks: seq<Bytes>, limit: nat): Scan
    decreases |chunks|
  {
    if chunks == [] then scan else FeedAll(Feed(scan, chunks[0], limit), chunks[1..], limit)
  }

  /** Stopping after `raw` and going on with `more` is the same as scanning both together. */
  lemma {:induction false} ScanSplit(raw: Bytes, more: Bytes, limit: nat)
    ensures Feed(ScanAll(raw, limit), more, limit) == ScanAll(raw + more, limit)
    decreases |raw|
  {
    hide CutPoint;
    CutOfExtension(raw, more);
    if CutPoint(raw).Some? {
      var cut := CutPoint(raw).value;
      assert (raw + more)[..cut] == raw[..cut];
      if cut <= limit {
        assert (raw + more)[cut..] == raw[cut..] + more;
        ScanSplit(raw[cut..], more, limit);
      }
    } else if |raw| <= limit {
      assert Feed(ScanAll(raw, limit), more, limit).frames == ScanAll(raw + more, limit).frames;
    }
  }

  lemma {:induction false} FeedAllStep(scan: Scan, chunks: seq<Bytes>, limit: nat)
    requires chunks != []
    ensures FeedAll(scan, chunks, limit) == FeedAll(Feed(scan, chunks[0], limit), chunks[1..], limit)
  {}

  lemma {:induction false} FlattenStep(prior: Bytes, chunks: seq<Bytes>)
    requires chunks != []
    ensures prior + chunks[0] + Flatten(chunks[1..]) == prior + Flatten(chunks)
  {}

  /** Chunking never matters: however the bytes are cut, frames, remainder and verdict are those of a single chunk. */
  lemma {:induction false} ChunkingNeverMatters(prior: Bytes, chunks: seq<Bytes>, limit: nat)
    ensures FeedAll(ScanAll(prior, limit), chunks, limit) == ScanAll(prior + Flatten(chunks), limit)
    decreases |chunks|
  {
    if chunks == [] {
      assert prior + Flatten(chunks) == prior;
    } else {
      FeedAllStep(ScanAll(prior, limit), chunks, limit);
      ScanSplit(prior, chunks[0], limit);
      FlattenStep(prior, chunks);
      ChunkingNeverMatters(prior + chunks[0], chunks[1..], limit);
    }
  }

  /** A frame as it is popped: its only terminator is the one it ends with. */
  predicate WholeFrame(frame: Bytes)
  {
    CutPoint(frame) == Some(|frame|)
  }

  lemma PoppedFrameIsWhole(raw: Bytes)
    requires CutPoint(raw).Some?
    ensures WholeFrame(raw[..CutPoint(raw).value])
  {
    var cut := CutPoint(raw).value;
    var frame := raw[..cut];
    assert raw == frame + raw[cut..];
    CutOfExtension(frame, raw[cut..]);
    CutIsFirstCompletion(raw);
    CutByCompletion(frame, cut);
  }

  /** One frame off the front. */
  lemma ScanStep(raw: Bytes, limit: nat)
    ensures match CutPoint(raw)
            case None => ScanAll(raw, limit) == if |raw| > limit then Scan([], [], true) else Scan([], raw, false)
            case Some(cut) =>
              var later := ScanAll(raw[cut..], limit);
              ScanAll(raw, limit) == if cut > limit then Scan([], [], true)
                                     else Scan([raw[..cut]] + later.frames, later.rest, later.oversized)
  {
    hide CutPoint;
  }

  /**
   * Frames and remainder are exactly the bytes read, in order. Reading stops exactly in front of a frame that is too
   * long, whole or not yet; otherwise the remainder holds no whole frame.
   */
  lemma {:induction false} ScanPartitions(raw: Bytes, limit: nat) returns (unread: Bytes)
    ensures raw == Flatten(ScanAll(raw, limit).frames) + ScanAll(raw, limit).rest + unread
    ensures !ScanAll(raw, limit).oversized ==> unread == [] && FirstCompletion(ScanAll(raw, limit).rest).None?
    ensures ScanAll(raw, limit).oversized ==>
              (match FirstCompletion(unread) case None => |unread| > limit case Some(end) => end > limit)
    decreases |raw|
  {
    ScanStep(raw, limit);
    CutIsFirstCompletion(raw);
    hide *;
    match CutPoint(raw)
    case None =>
      unread := if |raw| > limit then raw else [];
      NoFrames(raw);
    case Some(cut) =>
      if cut > limit {
        unread := raw;
        NoFrames(raw);
      } else {
        unread := ScanPartitions(raw[cut..], limit);
        var later := ScanAll(raw[cut..], limit);
        FlattenCons(raw[..cut], later.frames);
        OneFrame(raw, cut, Flatten(later.frames), later.rest, unread);
      }
  }

  lemma NoFrames(raw: Bytes)
    ensures raw == Flatten<byte>([]) + raw + [] && raw == Flatten<byte>([]) + [] + raw
  {}

  lemma OneFrame(raw: Bytes, cut: nat, frames: Bytes, rest: Bytes, unread: Bytes)
    requires cut <= |raw| && raw[cut..] == frames + rest + unread
    ensures raw == (raw[..cut] + frames) + rest + unread
  {
    assert raw == raw[..cut] + raw[cut..];
    assert raw[..cut] + (frames + rest + unread) == (raw[..cut] + frames) + rest + unread;
  }

  lemma FlattenCons(frame: Bytes, frames: seq<Bytes>)
    ensures Flatten([frame] + frames) == frame + Flatten(frames)
  {}

  /** Every frame handed on is within the limit and holds exactly one terminator, at its end. */
  lemma {:induction false} ScannedFramesAreWhole(raw: Bytes, limit: nat)
    ensures forall i :: 0 <= i < |ScanAll(raw, limit).frames| ==>
              |ScanAll(raw, limit).frames[i]| <= limit && WholeFrame(ScanAll(raw, limit).frames[i])
    decreases |raw|
  {
    if CutPoint(raw).Some? && CutPoint(raw).value <= limit {
      PoppedFrameIsWhole(raw);
      ScannedFramesAreWhole(raw[CutPoint(raw).value..], limit);
    }
  }

  /** The generator's `bytearray`, cut in place. */
  class FrameBuffer {
    var data: Bytes

    constructor ()
      ensures data == []
    {
      data := [];
    }

    method Extend(chunk: Bytes)
      modifies this
      ensures data == old(data) + chunk
    {
      data := data + chunk;
    }

    method Clear()
      modifies this
      ensures data == []
    {
      data := [];
    }

    /**
     * `_pop_sse_frame`: the popped frame and what stays behind are the buffer, split at the first completed terminator.
     */
    method PopFrame() returns (frame: Option<Bytes>)
      modifies this
      ensures FirstCompletion(old(data)).None? ==> frame.None? && data == old(data)
      ensures FirstCompletion(old(data)).Some? ==>
                var cut := FirstCompletion(old(data)).value;
                frame == Some(old(data)[..cut]) && data == old(data)[cut..]
    {
      CutIsFirstCompletion(data);
      var cut := CutPoint(data);
      if cut.None? {
        return None;
      }
      frame := Some(data[..cut.value]);
      data := data[cut.value..];
    }
  }
}
