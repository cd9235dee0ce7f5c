/**
 The URL-safe base64 of verify_audit.py: encoding strips the padding that section 5 of RFC 4648
 prescribes, decoding puts (-length mod 4) padding characters back.
 */
module Base64Url {
  import opened Options

  type Byte = b: int | 0 <= b < 256
  type Sextet = v: int | 0 <= v < 64

  const PAD: char := '='

  /** Table 2 of RFC 4648. */
  function Encoded(v: Sextet): (c: char)
    ensures c != PAD && Decoded(c) == Some(v)
  {
    if v < 26 then ('A' as int + v) as char
    else if v < 52 then ('a' as int + (v - 26)) as char
    else if v < 62 then ('0' as int + (v - 52)) as char
    else if v == 62 then '-' else '_'
  }

  function Decoded(c: char): Option<Sextet> {
    if 'A' <= c <= 'Z' then Some(c as int - 'A' as int)
    else if 'a' <= c <= 'z' then Some(c as int - 'a' as int + 26)
    else if '0' <= c <= '9' then Some(c as int - '0' as int + 52)
    else if c == '-' then Some(62) else if c == '_' then Some(63) else None
  }

  // ---------------------------------------------------------------- the padded form of the standard

  /** The sextets that hold the end of one byte and the start of the next. */
  function Sextet2(a: Byte, b: Byte): Sextet { a % 4 * 16 + b / 16 }

  function Sextet3(b: Byte, c: Byte): Sextet { b % 16 * 4 + c / 64 }

  function Group3(a: Byte, b: Byte, c: Byte): string {
    [Encoded(a / 4), Encoded(Sextet2(a, b)), Encoded(Sextet3(b, c)), Encoded(c % 64)]
  }

  /** base64.urlsafe_b64encode */
  function EncodePadded(bytes: seq<Byte>): (s: string)
    ensures |s| % 4 == 0
  {
    if bytes == [] then ""
    else if |bytes| == 1 then [Encoded(bytes[0] / 4), Encoded(Sextet2(bytes[0], 0)), PAD, PAD]
    else if |bytes| == 2 then
      [Encoded(bytes[0] / 4), Encoded(Sextet2(bytes[0], bytes[1])), Encoded(Sextet3(bytes[1], 0)), PAD]
    else Group3(bytes[0], bytes[1], bytes[2]) + EncodePadded(bytes[3..])
  }

  function Byte1(w: Sextet, x: Sextet): Byte { w * 4 + x / 16 }

  function Byte2(x: Sextet, y: Sextet): Byte { x % 16 * 16 + y / 4 }

  function Byte3(y: Sextet, z: Sextet): Byte { y % 4 * 64 + z }

  /** The bytes of one group of four characters, of which the last two may be padding. */
  function DecodeGroup(g: string, last: bool): Option<seq<Byte>>
    requires |g| == 4
  {
    var w, x, y, z := Decoded(g[0]), Decoded(g[1]), Decoded(g[2]), Decoded(g[3]);
    if w.None? || x.None? then None
    else
      var a := Byte1(w.value, x.value);
      if last && g[2] == PAD && g[3] == PAD then Some([a])
      else if y.None? then None
      else
        var b := Byte2(x.value, y.value);
        if last && g[3] == PAD then Some([a, b])
        else if z.None? then None
        else Some([a, b, Byte3(y.value, z.value)])
  }

  /** base64.urlsafe_b64decode on well-formed text; None for text of another length or alphabet. */
  function DecodePadded(s: string): Option<seq<Byte>> {
    if s == "" then Some([])
    else if |s| < 4 then None
    else
      var first := DecodeGroup(s[..4], |s| == 4);
      var rest := DecodePadded(s[4..]);
      if first.None? || rest.None? then None else Some(first.value + rest.value)
  }

  // ---------------------------------------------------------------- the program's codec

  /** `.rstrip("=")` */
  function Strip(s: string): string {
    if s != "" && s[|s| - 1] == PAD then Strip(s[..|s| - 1]) else s
  }

  /** `-length % 4` with the floor remainder of the source language. */
  function PadLength(length: nat): (n: nat)
    ensures n < 4 && (length + n) % 4 == 0
  {
    (4 - length % 4) % 4
  }

  function Pads(n: nat): (s: string)
    ensures |s| == n && forall i :: 0 <= i < n ==> s[i] == PAD
  {
    seq(n, _ => PAD)
  }

  function Encode(bytes: seq<Byte>): string { Strip(EncodePadded(bytes)) }

  function Decode(s: string): Option<seq<Byte>> { DecodePadded(s + Pads(PadLength(|s|))) }

  lemma {:induction false} StripTakesPads(s: string, n: nat)
    requires s == "" || s[|s| - 1] != PAD
    ensures Strip(s + Pads(n)) == s
  {
    if n == 0 {
      assert s + Pads(0) == s;
    } else {
      var t := s + Pads(n);
      assert t[|t| - 1] == PAD && t[..|t| - 1] == s + Pads(n - 1);
      StripTakesPads(s, n - 1);
    }
  }

  /** The standard's encoding is some characters of the alphabet followed by fewer than three padding characters. */
  lemma {:induction false} PaddedShape(bytes: seq<Byte>) returns (body: string, n: nat)
    ensures EncodePadded(bytes) == body + Pads(n) && n < 3 && (body == "" || body[|body| - 1] != PAD)
    ensures (|body| + n) % 4 == 0 && (bytes != [] ==> body != "")
  {
    var s := EncodePadded(bytes);
    if |bytes| == 1 {
      body, n := s[..2], 2;
    } else if |bytes| == 2 {
      body, n := s[..3], 1;
    } else if bytes == [] {
      body, n := "", 0;
    } else {
      body, n := PaddedShape(bytes[3..]);
      var g := Group3(bytes[0], bytes[1], bytes[2]);
      assert g + (body + Pads(n)) == (g + body) + Pads(n);
      if body == "" {
        assert bytes[3..] == [];
        assert (g + body)[3] == g[3];
        assert EncodePadded(bytes[3..]) == "";
      }
      body := g + body;
    }
  }

  /** Stripping and padding again restores exactly the standard's encoding, for all byte strings. */
  lemma {:induction false} RepaddingRestores(bytes: seq<Byte>)
    ensures Encode(bytes) + Pads(PadLength(|Encode(bytes)|)) == EncodePadded(bytes)
    ensures bytes != [] ==> Encode(bytes) != ""
  {
    var body, n := PaddedShape(bytes);
    StripTakesPads(body, n);
    PadLengthIs(|body|, n);
  }

  lemma {:induction false} PadLengthIs(length: nat, n: nat)
    requires n < 4 && (length + n) % 4 == 0
    ensures PadLength(length) == n
  {
  }

  lemma {:induction false} Byte1RoundTrip(a: Byte, b: Byte)
    ensures Byte1(a / 4, Sextet2(a, b)) == a
  {
    assert Sextet2(a, b) / 16 == a % 4;
  }

  lemma {:induction false} Byte2RoundTrip(a: Byte, b: Byte, c: Byte)
    ensures Byte2(Sextet2(a, b), Sextet3(b, c)) == b
  {
    assert Sextet2(a, b) % 16 == b / 16;
    assert Sextet3(b, c) / 4 == b % 16;
  }

  lemma {:induction false} Byte3RoundTrip(b: Byte, c: Byte)
    ensures Byte3(Sextet3(b, c), c % 64) == c
  {
    assert Sextet3(b, c) % 4 == c / 64;
  }

  lemma {:induction false} DecodedSextets(w: Sextet, x: Sextet, y: Sextet, z: Sextet, last: bool)
    ensures DecodeGroup([Encoded(w), Encoded(x), Encoded(y), Encoded(z)], last)
         == Some([Byte1(w, x), Byte2(x, y), Byte3(y, z)])
  {
  }

  lemma {:induction false} Group3RoundTrip(a: Byte, b: Byte, c: Byte, last: bool)
    ensures DecodeGroup(Group3(a, b, c), last) == Some([a, b, c])
  {
    Byte1RoundTrip(a, b);
    Byte2RoundTrip(a, b, c);
    Byte3RoundTrip(b, c);
    DecodedSextets(a / 4, Sextet2(a, b), Sextet3(b, c), c % 64, last);
  }

  lemma {:induction false} DecodeGroups(g: string, rest: string)
    requires |g| == 4
    ensures var first, others := DecodeGroup(g, rest == ""), DecodePadded(rest);
            first.Some? && others.Some? ==> DecodePadded(g + rest) == Some(first.value + others.value)
  {
    assert (g + rest)[..4] == g && (g + rest)[4..] == rest;
  }

  lemma {:induction false} OneByteRoundTrip(a: Byte)
    ensures DecodePadded(EncodePadded([a])) == Some([a])
  {
    Byte1RoundTrip(a, 0);
    LastGroup(EncodePadded([a]), [a]);
  }

  lemma {:induction false} TwoByteRoundTrip(a: Byte, b: Byte)
    ensures DecodePadded(EncodePadded([a, b])) == Some([a, b])
  {
    Byte1RoundTrip(a, b);
    Byte2RoundTrip(a, b, 0);
    LastGroup(EncodePadded([a, b]), [a, b]);
  }

  lemma {:induction false} LastGroup(g: string, bytes: seq<Byte>)
    requires |g| == 4 && DecodeGroup(g, true) == Some(bytes)
    ensures DecodePadded(g) == Some(bytes)
  {
    DecodeGroups(g, "");
    assert g + "" == g && bytes + [] == bytes;
  }

  lemma {:induction false} ThreeBytesRoundTrip(a: Byte, b: Byte, c: Byte, rest: string, others: seq<Byte>)
    requires DecodePadded(rest) == Some(others)
    ensures DecodePadded(Group3(a, b, c) + rest) == Some([a, b, c] + others)
  {
    Group3RoundTrip(a, b, c, rest == "");
    DecodeGroups(Group3(a, b, c), rest);
  }

  lemma {:induction false} PaddedRoundTrip(bytes: seq<Byte>)
    ensures DecodePadded(EncodePadded(bytes)) == Some(bytes)
  {
    if |bytes| == 1 {
      assert bytes == [bytes[0]];
      OneByteRoundTrip(bytes[0]);
    } else if |bytes| == 2 {
      assert bytes == [bytes[0], bytes[1]];
      TwoByteRoundTrip(bytes[0], bytes[1]);
    } else if bytes != [] {
      PaddedRoundTrip(bytes[3..]);
      ThreeBytesRoundTrip(bytes[0], bytes[1], bytes[2], EncodePadded(bytes[3..]), bytes[3..]);
      assert [bytes[0], bytes[1], bytes[2]] + bytes[3..] == bytes;
    }
  }

  /** Decoding inverts encoding, for all byte strings. */
  lemma {:induction false} RoundTrip(bytes: seq<Byte>)
    ensures Decode(Encode(bytes)) == Some(bytes)
  {
    RepaddingRestores(bytes);
    PaddedRoundTrip(bytes);
  }

  // ---------------------------------------------------------------- the standard's table and vectors

  /** The characters of Table 2 of RFC 4648: three runs and two signs. */
  lemma {:induction false} EncodedIsStandard(v: Sextet)
    ensures Encoded(0) == 'A' && Encoded(25) == 'Z' && Encoded(26) == 'a' && Encoded(51) == 'z'
    ensures Encoded(52) == '0' && Encoded(61) == '9' && Encoded(62) == '-' && Encoded(63) == '_'
    ensures v < 61 && v != 25 && v != 51 ==> Encoded(v + 1) as int == Encoded(v) as int + 1
  {
  }

  lemma {:induction false} SextetsAreBytes(a: Byte, b: Byte, c: Byte)
    ensures (a / 4) * 262144 + Sextet2(a, b) * 4096 + Sextet3(b, c) * 64 + c % 64 == a * 65536 + b * 256 + c
  {
  }

  function ValueOf(c: char): int { if Decoded(c).Some? then Decoded(c).value else -1 }

  /** Three bytes, read as one number of 24 bits, are encoded as four characters that stand for the same number. */
  lemma {:induction false} GroupIsNumber(a: Byte, b: Byte, c: Byte)
    ensures var g := EncodePadded([a, b, c]);
            |g| == 4 && ValueOf(g[0]) * 262144 + ValueOf(g[1]) * 4096 + ValueOf(g[2]) * 64 + ValueOf(g[3])
                        == a * 65536 + b * 256 + c
  {
    assert [a, b, c][3..] == [];
    SextetsAreBytes(a, b, c);
  }

  /** Vectors of section 10 of RFC 4648, for the bytes of "f", "fo" and "foo", and two bytes that need '-' and '_'. */
  lemma {:induction false} StandardVectors()
    ensures Encode([]) == "" && Encode([102]) == "Zg" && Encode([102, 111]) == "Zm8"
    ensures Encode([102, 111, 111]) == "Zm9v" && Encode([251, 255]) == "-_8"
  {
    assert EncodePadded([102]) == "Zg==" && EncodePadded([102, 111]) == "Zm8=";
    assert [102, 111, 111][3..] == [];
    assert EncodePadded([102, 111, 111]) == "Zm9v" + "";
    assert EncodePadded([251, 255]) == "-_8=";
    StripTwo("Zg", "Zg==");
    StripOne("Zm8", "Zm8=");
    StripOne("-_8", "-_8=");
  }

  lemma {:induction false} StripOne(s: string, padded: string)
    requires s != "" && s[|s| - 1] != PAD && padded == s + [PAD]
    ensures Strip(padded) == s
  {
    assert padded[..|padded| - 1] == s;
  }

  lemma {:induction false} StripTwo(s: string, padded: string)
    requires s != "" && s[|s| - 1] != PAD && padded == s + [PAD, PAD]
    ensures Strip(padded) == s
  {
    StripOne(s, s + [PAD]);
    assert padded[..|padded| - 1] == s + [PAD];
  }
}
