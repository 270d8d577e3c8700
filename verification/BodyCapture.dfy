/** The bounded observer of bodies (`BodyCapture` in agent_ingress.py). */
module BodyCapture {
  import opened Common

  /** The bytes of a body an observer may keep. */
  function Kept(limit: nat, keepTail: bool, body: Bytes): Bytes
  {
    if |body| <= limit then body
    else if keepTail then body[|body| - limit..]
    else body[..limit]
  }

  class BodyCapture {
    const limit: nat
    const keepTail: bool
    var data: Bytes
    var totalBytes: nat
    var truncated: bool
    /** Everything passed to `Add`, in order. */
    ghost var observed: Bytes

    ghost predicate Valid()
      reads this
    {
      && data == Kept(limit, keepTail, observed)
      && totalBytes == |observed|
      && (truncated <==> |observed| > limit)
    }

    constructor (limit: nat, keepTail: bool := false)
      ensures Valid() && observed == [] && this.limit == limit && this.keepTail == keepTail
    {
      this.limit, this.keepTail := limit, keepTail;
      data, totalBytes, truncated, observed := [], 0, false, [];
    }

    method Add(chunk: Bytes)
      requires Valid()
      modifies this
      ensures Valid() && observed == old(observed) + chunk
    {
      totalBytes := totalBytes + |chunk|;
      observed := observed + chunk;
      if keepTail {
        data := data + chunk;
        if |data| > limit {
          data := data[|data| - limit..];
          truncated := true;
        }
        return;
      }
      var remaining := limit - |data|;
      if remaining > 0 {
        data := data + if remaining < |chunk| then chunk[..remaining] else chunk;
      }
      if |chunk| > if remaining > 0 then remaining else 0 {
        truncated := true;
      }
    }
  }

  /** Captures depend on the bytes of a body alone, not on how they were cut into chunks. */
  method Capture(limit: nat, keepTail: bool, chunks: seq<Bytes>) returns (data: Bytes, total: nat, truncated: bool)
    ensures var body := Flatten(chunks);
            && |data| == (if |body| <= limit then |body| else limit) && total == |body|
            && (truncated <==> |body| > limit)
            && data == if keepTail then body[|body| - |data|..] else body[..|data|]
  {
    var capture := new BodyCapture(limit, keepTail);
    assert chunks[..0] == [];
    for i := 0 to |chunks|
      invariant capture.Valid() && capture.limit == limit && capture.keepTail == keepTail
      invariant capture.observed == Flatten(chunks[..i])
    {
      capture.Add(chunks[i]);
      assert chunks[..i + 1] == chunks[..i] + [chunks[i]];
      FlattenSnoc(chunks[..i], chunks[i]);
    }
    assert chunks[..|chunks|] == chunks;
    data, total, truncated := capture.data, capture.totalBytes, capture.truncated;
  }
}
