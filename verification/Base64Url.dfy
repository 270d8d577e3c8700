/**
 * Unpadded base64url (`_b64` and `_b64d` in grants.py; section 5 of RFC 4648, padding dropped as section 3.2 allows).
 */
module Base64Url {
  import opened Common

  /** The URL-safe alphabet. */
  function ToChar(v: int): (c: char)
    requires 0 <= v < 64
  {
    if v < 26 then ('A' as int + v) as char
    else if v < 52 then ('a' as int + v - 26) as char
    else if v < 62 then ('0' as int + v - 52) as char
    else if v == 62 then '-' else '_'
  }

  /** The decoder also takes the standard alphabet's `+` and `/`. */
  function FromChar(c: char): (v: Option<int>)
    ensures v.Some? ==> 0 <= v.value < 64
  {
    if 'A' <= c <= 'Z' then Some(c as int - 'A' as int)
    else if 'a' <= c <= 'z' then Some(c as int - 'a' as int + 26)
    else if '0' <= c <= '9' then Some(c as int - '0' as int + 52)
    else if c == '-' || c == '+' then Some(62)
    else if c == '_' || c == '/' then Some(63)
    else None
  }

  lemma CharRoundTrip(v: int)
    requires 0 <= v < 64
    ensures FromChar(ToChar(v)) == Some(v) && ToChar(v) != '=' && ToChar(v) != '.' && ToChar(v) < '\U{0080}'
  {}

  /** The four sextets of three bytes. */
  function First(a: byte): (v: int)
    ensures 0 <= v < 64
  {
    a as int / 4
  }

  function Second(a: byte, b: byte): (v: int)
    ensures 0 <= v < 64
  {
    a as int % 4 * 16 + b as int / 16
  }

  function Third(b: byte, c: byte): (v: int)
    ensures 0 <= v < 64
  {
    b as int % 16 * 4 + c as int / 64
  }

  function Fourth(c: byte): (v: int)
    ensures 0 <= v < 64
  {
    c as int % 64
  }

  /** `base64.urlsafe_b64encode` */
  function EncodePadded(raw: Bytes): string
  {
    if raw == [] then ""
    else if |raw| == 1 then
      [ToChar(First(raw[0])), ToChar(Second(raw[0], 0)), '=', '=']
    else if |raw| == 2 then
      [ToChar(First(raw[0])), ToChar(Second(raw[0], raw[1])), ToChar(Third(raw[1], 0)), '=']
    else
      FullGroup(raw[0], raw[1], raw[2]) + EncodePadded(raw[3..])
  }

  function FullGroup(a: byte, b: byte, c: byte): string
  {
    [ToChar(First(a)), ToChar(Second(a, b)), ToChar(Third(b, c)), ToChar(Fourth(c))]
  }

  /** `rstrip("=")` */
  function StripPadding(s: string): string
  {
    if s != "" && s[|s| - 1] == '=' then StripPadding(s[..|s| - 1]) else s
  }

  /** `_b64` */
  function B64(raw: Bytes): string
  {
    StripPadding(EncodePadded(raw))
  }

  /** How many `=` `_b64d` puts back: `-len(s) % 4`. */
  function Missing(n: nat): nat
  {
    -(n as int) % 4
  }

  function Padding(n: nat): string
  {
    if n == 0 then "" else Padding(n - 1) + "="
  }

  /**
   * `binascii.a2b_base64` outside strict mode: foreign characters are skipped, padding that completes a group ends the
   * input, and a group left open is an error. `pos` characters of the group were read and `left` holds their unused
   * bits.
   */
  function Scan(s: string, pos: nat, left: int, pads: nat): Option<Bytes>
    requires pos < 4 && 0 <= left < 64
    decreases |s|
  {
    if s == "" then if pos == 0 then Some([]) else None
    else if s[0] == '=' then
      if pos >= 2 then
        if pos + pads + 1 >= 4 then Some([]) else Scan(s[1..], pos, left, pads + 1)
      else Scan(s[1..], pos, left, pads)
    else
      match FromChar(s[0])
      case None => Scan(s[1..], pos, left, pads)
      case Some(v) =>
        if pos == 0 then Scan(s[1..], 1, v, 0)
        else if pos == 1 then Emit((left * 4 + v / 16) % 256, Scan(s[1..], 2, v % 16, 0))
        else if pos == 2 then Emit((left * 16 + v / 4) % 256, Scan(s[1..], 3, v % 4, 0))
        else Emit((left * 64 + v) % 256, Scan(s[1..], 0, 0, 0))
  }

  function Emit(value: int, later: Option<Bytes>): Option<Bytes>
    requires 0 <= value < 256
  {
    if later.None? then None else Some([value as byte] + later.value)
  }

  predicate IsAscii(s: string)
  {
    forall c <- s :: c < '\U{0080}'
  }

  /** `_b64d`; text that is not ASCII is a `ValueError`. */
  function B64D(s: string): Option<Bytes>
  {
    if IsAscii(s) then Scan(s + Padding(Missing(|s|)), 0, 0, 0) else None
  }

  lemma {:induction false} StripPaddingAppend(front: string, back: string)
    requires StripPadding(back) != ""
    ensures StripPadding(front + back) == front + StripPadding(back)
    decreases |back|
  {
    assert (front + back)[|front + back| - 1] == back[|back| - 1];
    if back[|back| - 1] == '=' {
      assert (front + back)[..|front + back| - 1] == front + back[..|back| - 1];
      StripPaddingAppend(front, back[..|back| - 1]);
    }
  }

  /** One or two bytes without their padding. */
  function LastGroup(raw: Bytes): string
    requires 1 <= |raw| <= 2
  {
    if |raw| == 1 then [ToChar(First(raw[0])), ToChar(Second(raw[0], 0))]
    else [ToChar(First(raw[0])), ToChar(Second(raw[0], raw[1])), ToChar(Third(raw[1], 0))]
  }

  lemma B64OfLastGroup(raw: Bytes)
    requires 1 <= |raw| <= 2
    ensures B64(raw) == LastGroup(raw)
  {
    hide First, Second, Third, Fourth, ToChar;
    var s := EncodePadded(raw);
    CharRoundTrip(Second(raw[0], 0));
    if |raw| == 1 {
      assert s[..3][..2] == s[..2] == LastGroup(raw);
      assert StripPadding(s) == StripPadding(s[..3]) == StripPadding(s[..2]);
    } else {
      CharRoundTrip(Third(raw[1], 0));
      assert s[..3] == LastGroup(raw);
      assert StripPadding(s) == StripPadding(s[..3]);
    }
  }

  lemma FullGroupStays(a: byte, b: byte, c: byte, later: string)
    requires later == "" || StripPadding(later) != ""
    ensures StripPadding(FullGroup(a, b, c) + later) == FullGroup(a, b, c) + StripPadding(later)
  {
    hide First, Second, Third, Fourth, ToChar;
    CharRoundTrip(Fourth(c));
    var group := FullGroup(a, b, c);
    if later == "" {
      assert group + later == group;
      assert group[3] != '=';
    } else {
      hide FullGroup;
      StripPaddingAppend(group, later);
    }
  }

  lemma {:induction false} B64OfGroup(raw: Bytes)
    requires |raw| >= 3
    ensures B64(raw) == FullGroup(raw[0], raw[1], raw[2]) + B64(raw[3..])
    decreases |raw|, 0
  {
    hide First, Second, Third, Fourth, ToChar;
    if |raw| > 3 {
      B64NotEmpty(raw[3..]);
    }
    FullGroupStays(raw[0], raw[1], raw[2], EncodePadded(raw[3..]));
  }

  lemma {:induction false} B64NotEmpty(raw: Bytes)
    requires raw != []
    ensures B64(raw) != ""
    decreases |raw|, 1
  {
    hide StripPadding, B64;
    if |raw| <= 2 {
      B64OfLastGroup(raw);
    } else {
      B64OfGroup(raw);
    }
  }

  predicate Plain(s: string)
  {
    forall c <- s :: c < '\U{0080}' && c != '.' && c != '='
  }

  lemma PlainChar(v: int, more: string)
    requires 0 <= v < 64 && Plain(more)
    ensures Plain([ToChar(v)] + more)
  {
    CharRoundTrip(v);
  }

  lemma GroupsArePlain(a: byte, b: byte, c: byte)
    ensures Plain(FullGroup(a, b, c)) && Plain(LastGroup([a])) && Plain(LastGroup([a, b]))
  {
    hide First, Second, Third, Fourth, ToChar;
    PlainChar(Fourth(c), "");
    PlainChar(Third(b, c), [ToChar(Fourth(c))] + "");
    PlainChar(Second(a, b), [ToChar(Third(b, c))] + ([ToChar(Fourth(c))] + ""));
    PlainChar(First(a), [ToChar(Second(a, b))] + ([ToChar(Third(b, c))] + ([ToChar(Fourth(c))] + "")));
    assert FullGroup(a, b, c) == [ToChar(First(a))]
           + ([ToChar(Second(a, b))] + ([ToChar(Third(b, c))] + ([ToChar(Fourth(c))] + "")));
    PlainChar(Third(b, 0), "");
    PlainChar(Second(a, b), [ToChar(Third(b, 0))] + "");
    PlainChar(First(a), [ToChar(Second(a, b))] + ([ToChar(Third(b, 0))] + ""));
    assert LastGroup([a, b]) == [ToChar(First(a))] + ([ToChar(Second(a, b))] + ([ToChar(Third(b, 0))] + ""));
    PlainChar(Second(a, 0), "");
    PlainChar(First(a), [ToChar(Second(a, 0))] + "");
    assert LastGroup([a]) == [ToChar(First(a))] + ([ToChar(Second(a, 0))] + "");
  }

  /** Encoded text is ASCII without a dot and without padding. */
  lemma {:induction false} B64IsPlain(raw: Bytes)
    ensures Plain(B64(raw))
    decreases |raw|
  {
    hide LastGroup, FullGroup;
    if |raw| == 0 {
    } else if |raw| <= 2 {
      B64OfLastGroup(raw);
      GroupsArePlain(raw[0], raw[|raw| - 1], 0);
      assert raw == if |raw| == 1 then [raw[0]] else [raw[0], raw[|raw| - 1]];
    } else {
      B64OfGroup(raw);
      GroupsArePlain(raw[0], raw[1], raw[2]);
      B64IsPlain(raw[3..]);
    }
  }

  /** Cutting three bytes into sextets and putting them together again. */
  lemma SextetsJoin(a: byte, b: byte, c: byte)
    ensures (First(a) * 4 + Second(a, b) / 16) % 256 == a as int
    ensures (Second(a, b) % 16 * 16 + Third(b, c) / 4) % 256 == b as int
    ensures (Third(b, c) % 4 * 64 + Fourth(c)) % 256 == c as int
  {
    assert Second(a, b) / 16 == a as int % 4 && Second(a, b) % 16 == b as int / 16;
    assert Third(b, c) / 4 == b as int % 16 && Third(b, c) % 4 == c as int / 64;
  }

  lemma ScanChar(v: int, more: string, pos: nat, left: int)
    requires 0 <= v < 64 && pos < 4 && 0 <= left < 64
    ensures Scan([ToChar(v)] + more, pos, left, 0) ==
            if pos == 0 then Scan(more, 1, v, 0)
            else if pos == 1 then Emit((left * 4 + v / 16) % 256, Scan(more, 2, v % 16, 0))
            else if pos == 2 then Emit((left * 16 + v / 4) % 256, Scan(more, 3, v % 4, 0))
            else Emit((left * 64 + v) % 256, Scan(more, 0, 0, 0))
  {
    CharRoundTrip(v);
    assert ([ToChar(v)] + more)[1..] == more;
  }

  /** The first sextet only waits, the second completes the first byte. */
  lemma ScanFirstByte(a: byte, b: byte, more: string)
    ensures Scan([ToChar(First(a))] + ([ToChar(Second(a, b))] + more), 0, 0, 0)
         == Emit(a as int, Scan(more, 2, Second(a, b) % 16, 0))
  {
    hide *;
    SextetsJoin(a, b, 0);
    ScanChar(First(a), [ToChar(Second(a, b))] + more, 0, 0);
    ScanChar(Second(a, b), more, 1, First(a));
  }

  lemma ScanSecondByte(a: byte, b: byte, c: byte, more: string)
    ensures Scan([ToChar(Third(b, c))] + more, 2, Second(a, b) % 16, 0)
            == Emit(b as int, Scan(more, 3, Third(b, c) % 4, 0))
  {
    hide *;
    SextetsJoin(a, b, c);
    ScanChar(Third(b, c), more, 2, Second(a, b) % 16);
  }

  lemma ScanThirdByte(b: byte, c: byte, more: string)
    ensures Scan([ToChar(Fourth(c))] + more, 3, Third(b, c) % 4, 0) == Emit(c as int, Scan(more, 0, 0, 0))
  {
    hide *;
    SextetsJoin(0, b, c);
    ScanChar(Fourth(c), more, 3, Third(b, c) % 4);
  }

  lemma ScanGroup(a: byte, b: byte, c: byte, more: string)
    requires Scan(more, 0, 0, 0).Some?
    ensures Scan(FullGroup(a, b, c) + more, 0, 0, 0) == Some([a, b, c] + Scan(more, 0, 0, 0).value)
  {
    hide Scan, ToChar, FromChar, First, Second, Third, Fourth;
    var s1 := [ToChar(Fourth(c))] + more;
    var s2 := [ToChar(Third(b, c))] + s1;
    ScanFirstByte(a, b, s2);
    ScanSecondByte(a, b, c, s1);
    ScanThirdByte(b, c, more);
    assert FullGroup(a, b, c) + more == [ToChar(First(a))] + ([ToChar(Second(a, b))] + s2);
    var later := Scan(more, 0, 0, 0).value;
    assert [a, b, c] + later == [a] + ([b] + ([c] + later));
  }

  lemma PaddingEnds(left: int)
    requires 0 <= left < 64
    ensures Padding(1) == "=" && Padding(2) == "=="
    ensures Scan("==", 2, left, 0) == Some([]) && Scan("=", 3, left, 0) == Some([])
  {
    assert "=="[1..] == "=";
    assert Scan("==", 2, left, 0) == Scan("=", 2, left, 1);
  }

  lemma ScanLastGroup(a: byte, b: byte)
    ensures Scan(LastGroup([a]) + Padding(2), 0, 0, 0) == Some([a])
    ensures Scan(LastGroup([a, b]) + Padding(1), 0, 0, 0) == Some([a, b])
  {
    PaddingEnds(Second(a, 0) % 16);
    PaddingEnds(Third(b, 0) % 4);
    hide Scan, ToChar, FromChar, Padding, First, Second, Third, Fourth;
    ScanFirstByte(a, 0, "==");
    assert LastGroup([a]) + "==" == [ToChar(First(a))] + ([ToChar(Second(a, 0))] + "==");
    assert [a] == [a] + [];
    var s1 := [ToChar(Third(b, 0))] + "=";
    ScanFirstByte(a, b, s1);
    ScanSecondByte(a, b, 0, "=");
    assert LastGroup([a, b]) + "=" == [ToChar(First(a))] + ([ToChar(Second(a, b))] + s1);
    assert [a, b] == [a] + ([b] + []);
  }

  lemma {:induction false} ScanB64(raw: Bytes)
    ensures Scan(B64(raw) + Padding(Missing(|B64(raw)|)), 0, 0, 0) == Some(raw)
    decreases |raw|
  {
    hide ToChar, FromChar, First, Second, Third, Fourth, Scan;
    if |raw| == 0 {
      assert Scan("", 0, 0, 0) == Some([]) by { ScanNothing(); }
      assert B64(raw) + Padding(0) == "";
    } else if |raw| <= 2 {
      B64OfLastGroup(raw);
      ScanLastGroup(raw[0], raw[|raw| - 1]);
      assert raw == if |raw| == 1 then [raw[0]] else [raw[0], raw[|raw| - 1]];
    } else {
      hide B64;
      B64OfGroup(raw);
      ScanB64(raw[3..]);
      var later := B64(raw[3..]);
      var pad := Padding(Missing(|later|));
      assert Missing(|B64(raw)|) == Missing(|later|);
      ScanGroup(raw[0], raw[1], raw[2], later + pad);
      assert B64(raw) + pad == FullGroup(raw[0], raw[1], raw[2]) + (later + pad);
      assert [raw[0], raw[1], raw[2]] + raw[3..] == raw;
    }
  }

  lemma ScanNothing()
    ensures Scan("", 0, 0, 0) == Some([])
  {}

  /** Every byte string decodes back from its unpadded encoding, which holds neither a dot nor padding. */
  lemma B64RoundTrip(raw: Bytes)
    ensures B64D(B64(raw)) == Some(raw)
    ensures '.' !in B64(raw) && '=' !in B64(raw)
  {
    ScanB64(raw);
    B64IsPlain(raw);
  }

  /** The alphabet of section 5 of RFC 4648, written out. */
  lemma Alphabet(v: int)
    requires 0 <= v < 64
    ensures var upper, lower := "ABCDEFGHIJKLMNOPQRSTUVWXYZ", "abcdefghijklmnopqrstuvwxyz";
            ToChar(v) == if v < 26 then upper[v] else if v < 52 then lower[v - 26] else "0123456789-_"[v - 52]
  {}

  /** Three bytes are four sextets, most significant bits first. */
  lemma SameBits(a: byte, b: byte, c: byte)
    ensures ((First(a) * 64 + Second(a, b)) * 64 + Third(b, c)) * 64 + Fourth(c)
         == (a as int * 256 + b as int) * 256 + c as int
  {}

  /** The examples of section 10 of RFC 4648, without their padding, and one that needs the two last characters. */
  lemma Examples()
    ensures B64([]) == "" && B64([0x66]) == "Zg" && B64([0x66, 0x6F]) == "Zm8" && B64([0x66, 0x6F, 0x6F]) == "Zm9v"
    ensures B64([0xFB, 0xFF]) == "-_8"
  {
    assert ToChar(25) == 'Z' && ToChar(32) == 'g' && ToChar(38) == 'm' && ToChar(60) == '8' && ToChar(61) == '9';
    assert ToChar(47) == 'v' && ToChar(62) == '-' && ToChar(63) == '_';
    var foo: Bytes := [0x66, 0x6F, 0x6F];
    assert foo[3..] == [];
    assert EncodePadded([0x66]) == "Zg==" && EncodePadded([0x66, 0x6F]) == "Zm8=" && EncodePadded(foo) == "Zm9v";
    assert EncodePadded([0xFB, 0xFF]) == "-_8=";
    assert "Zg=="[..3] == "Zg=" && "Zg="[..2] == "Zg" && "Zm8="[..3] == "Zm8" && "-_8="[..3] == "-_8";
  }
}
