/** Strict UTF-8, as `bytes.decode("utf-8")` and `str.encode("utf-8")` use it (section 3 of RFC 3629). */
module Utf8 {
  import opened Common

  predicate Continuation(raw: Bytes, i: nat)
  {
    i < |raw| && 0x80 <= raw[i] < 0xC0
  }

  function Payload(raw: Bytes, i: nat): int
    requires Continuation(raw, i)
    ensures 0 <= Payload(raw, i) < 0x40
  {
    raw[i] as int - 0x80
  }

  /** The character at the front and how many bytes it takes; overlong forms and surrogates do not decode. */
  function DecodeFirst(raw: Bytes): (r: Option<(char, nat)>)
    requires raw != []
    ensures r.Some? ==> 1 <= r.value.1 <= |raw|
    ensures r.Some? ==> forall i: nat :: 1 <= i < r.value.1 ==> raw[i] >= 0x80
    ensures r.Some? && r.value.1 > 1 ==> raw[0] >= 0x80
  {
    var lead := raw[0] as int;
    if lead < 0x80 then Some((lead as char, 1))
    else if 0xC2 <= lead < 0xE0 && Continuation(raw, 1) then
      Some((((lead - 0xC0) * 0x40 + Payload(raw, 1)) as char, 2))
    else if 0xE0 <= lead < 0xF0 && Continuation(raw, 1) && Continuation(raw, 2) then
      var point := (lead - 0xE0) * 0x1000 + Payload(raw, 1) * 0x40 + Payload(raw, 2);
      if 0x800 <= point && !(0xD800 <= point < 0xE000) then Some((point as char, 3)) else None
    else if 0xF0 <= lead < 0xF5 && Continuation(raw, 1) && Continuation(raw, 2) && Continuation(raw, 3) then
      var point := (lead - 0xF0) * 0x40000 + Payload(raw, 1) * 0x1000 + Payload(raw, 2) * 0x40 + Payload(raw, 3);
      if 0x10000 <= point < 0x110000 then Some((point as char, 4)) else None
    else None
  }

  function Decode(raw: Bytes): Option<string>
  {
    if raw == [] then Some("")
    else
      match DecodeFirst(raw)
      case None => None
      case Some((c, size)) =>
        match Decode(raw[size..])
        case None => None
        case Some(text) => Some([c] + text)
  }

  function EncodeChar(c: char): (raw: Bytes)
    ensures raw != []
  {
    var point := c as int;
    if point < 0x80 then [point as byte]
    else if point < 0x800 then [(0xC0 + point / 0x40) as byte, (0x80 + point % 0x40) as byte]
    else if point < 0x10000 then
      [(0xE0 + point / 0x1000) as byte, (0x80 + point / 0x40 % 0x40) as byte, (0x80 + point % 0x40) as byte]
    else
      [(0xF0 + point / 0x40000) as byte, (0x80 + point / 0x1000 % 0x40) as byte,
       (0x80 + point / 0x40 % 0x40) as byte, (0x80 + point % 0x40) as byte]
  }

  function Encode(text: string): Bytes
  {
    if text == "" then [] else EncodeChar(text[0]) + Encode(text[1..])
  }

  /** The bits spread over the encoded bytes add up to the code point again. */
  lemma CodePointDigits(point: nat)
    requires point < 0x110000
    ensures point == point / 0x40 * 0x40 + point % 0x40
    ensures point / 0x40 == point / 0x1000 * 0x40 + point / 0x40 % 0x40
    ensures point / 0x1000 == point / 0x40000 * 0x40 + point / 0x1000 % 0x40
  {}

  lemma EncodedCharDecodes(c: char, more: Bytes)
    ensures DecodeFirst(EncodeChar(c) + more) == Some((c, |EncodeChar(c)|))
  {
    var first := EncodeChar(c);
    var raw := first + more;
    CodePointDigits(c as int);
    assert forall i :: 0 <= i < |first| ==> raw[i] == first[i];
    assert forall i: nat :: 1 <= i < |first| ==> Continuation(raw, i);
  }

  /** One decoding step, as an equation. */
  lemma DecodeStep(raw: Bytes, c: char, size: nat)
    requires raw != [] && DecodeFirst(raw) == Some((c, size))
    ensures Decode(raw[size..]).None? ==> Decode(raw).None?
    ensures Decode(raw[size..]).Some? ==> Decode(raw) == Some([c] + Decode(raw[size..]).value)
  {}

  /** Encoding then decoding returns the text. */
  lemma {:induction false} DecodeEncode(text: string)
    ensures Decode(Encode(text)) == Some(text)
  {
    if text != "" {
      var first, rest := EncodeChar(text[0]), Encode(text[1..]);
      DecodeEncode(text[1..]);
      EncodedCharDecodes(text[0], rest);
      assert (first + rest)[|first|..] == rest;
      DecodeStep(first + rest, text[0], |first|);
      assert [text[0]] + text[1..] == text;
    }
  }

  lemma DecodeFirstOfExtension(raw: Bytes, more: Bytes)
    requires raw != []
    ensures DecodeFirst(raw).Some? ==> DecodeFirst(raw + more) == DecodeFirst(raw)
    ensures DecodeFirst(raw + more).Some? && DecodeFirst(raw + more).value.1 <= |raw| ==>
              DecodeFirst(raw) == DecodeFirst(raw + more)
  {
    forall i: nat | i < |raw| ensures (raw + more)[i] == raw[i] {}
  }

  /** Decoding is a homomorphism wherever both parts decode by themselves. */
  lemma {:induction false} DecodeAppend(raw: Bytes, more: Bytes)
    requires Decode(raw).Some? && Decode(more).Some?
    ensures Decode(raw + more) == Some(Decode(raw).value + Decode(more).value)
    decreases |raw|
  {
    if raw == [] {
      NothingAdded(more);
      NothingAdded(Decode(more).value);
    } else {
      hide *;
      var size := FirstDecodes(raw);
      var c := DecodeFirst(raw).value.0;
      DecodeFirstOfExtension(raw, more);
      SkipFirst(raw, more, size);
      DecodeStep(raw, c, size);
      DecodeStep(raw + more, c, size);
      DecodeAppend(raw[size..], more);
      Assoc([c], Decode(raw[size..]).value, Decode(more).value);
    }
  }

  lemma FirstDecodes(raw: Bytes) returns (size: nat)
    requires raw != [] && Decode(raw).Some?
    ensures DecodeFirst(raw).Some? && size == DecodeFirst(raw).value.1 && 1 <= size <= |raw|
            && Decode(raw[size..]).Some?
  {
    hide DecodeFirst;
    size := DecodeFirst(raw).value.1;
  }

  lemma SkipFirst(raw: Bytes, more: Bytes, size: nat)
    requires 1 <= size <= |raw|
    ensures (raw + more)[size..] == raw[size..] + more && raw + more != []
  {}

  /** No character straddles the place just before an ASCII byte. */
  lemma {:induction false} SplitBeforeAscii(raw: Bytes, more: Bytes)
    requires Decode(raw + more).Some?
    requires more != [] ==> more[0] < 0x80
    ensures Decode(raw).Some? && Decode(more).Some?
    decreases |raw|
  {
    hide DecodeFirst;
    if raw == [] {
      assert raw + more == more;
    } else {
      var (c, size) := DecodeFirst(raw + more).value;
      if more != [] {
        assert (raw + more)[|raw|] == more[0];
      }
      assert size <= |raw|;
      DecodeFirstOfExtension(raw, more);
      assert (raw + more)[size..] == raw[size..] + more;
      DecodeStep(raw + more, c, size);
      SplitBeforeAscii(raw[size..], more);
      DecodeStep(raw, c, size);
    }
  }

  lemma DecodeAscii(c: byte, more: Bytes)
    requires c < 0x80
    ensures Decode(more).Some? ==> Decode([c] + more) == Some([c as int as char] + Decode(more).value)
    ensures Decode([c] + more).Some? ==> Decode(more).Some?
  {
    assert ([c] + more)[1..] == more;
    DecodeStep([c] + more, c as int as char, 1);
  }

  /** Text splits after an ASCII byte too, and the decoded front ends in that very character. */
  lemma SplitAfterAscii(raw: Bytes, c: byte, more: Bytes)
    requires Decode(raw + [c] + more).Some? && c < 0x80
    ensures Decode(raw).Some? && Decode(more).Some?
    ensures Decode(raw + [c]) == Some(Decode(raw).value + [c as int as char])
  {
    assert raw + [c] + more == raw + ([c] + more);
    SplitBeforeAscii(raw, [c] + more);
    DecodeAscii(c, more);
    DecodeAscii(c, []);
    assert [c] + [] == [c] && [c as int as char] + "" == [c as int as char];
    DecodeAppend(raw, [c]);
  }

  /** The bits of a code point, by the four forms of section 3 of RFC 3629. */
  lemma Forms(c: char)
    ensures var point, raw := c as int, EncodeChar(c);
            && (point < 0x80 ==> raw == [point as byte])
            && (0x80 <= point < 0x800 ==> |raw| == 2 && raw[0] as int / 0x20 == 6)
            && (0x800 <= point < 0x10000 ==> |raw| == 3 && raw[0] as int / 0x10 == 14)
            && (0x10000 <= point ==> |raw| == 4 && raw[0] as int / 8 == 30)
            && forall i :: 1 <= i < |raw| ==> raw[i] as int / 0x40 == 2
  {}

  /** A dollar sign, a cent sign, a euro sign and a Gothic letter. */
  lemma Examples()
    ensures EncodeChar('$') == [0x24] && EncodeChar('\U{00A2}') == [0xC2, 0xA2]
    ensures EncodeChar('\U{20AC}') == [0xE2, 0x82, 0xAC] && EncodeChar('\U{10348}') == [0xF0, 0x90, 0x8D, 0x88]
  {}
}
