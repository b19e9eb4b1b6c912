/** The audio helpers of the AI service and the tool list of grounded search:
    byte arrays to and from base64 text through binary strings, with the
    browser's `btoa` (the base64 encoding of section 4 of RFC 4648) and
    `atob` (the forgiving-base64 decode of the WHATWG Infra Standard). */
module GeminiService {
  import opened Types

  newtype byte = x: int | 0 <= x < 256

  // ---------------------------------------------------------------------
  // Binary strings: one character per byte

  /** `String.fromCharCode(b)` */
  function ByteChar(b: byte): char
  {
    (b as int) as char
  }

  /** Storing a character code into a `Uint8Array` keeps it modulo 256. */
  function CharByte(c: char): byte
  {
    ((c as int) % 256) as byte
  }

  /** Every character code fits in a byte. */
  predicate IsBinary(s: string)
  {
    forall i :: 0 <= i < |s| ==> (s[i] as int) < 256
  }

  /** The binary string the encode loop builds, one character per byte. */
  function BytesToBinary(bs: seq<byte>): (r: string)
    ensures |r| == |bs|
    ensures forall i :: 0 <= i < |bs| ==> r[i] as int == bs[i] as int
    ensures IsBinary(r)
  {
    if bs == [] then "" else BytesToBinary(bs[..|bs| - 1]) + [ByteChar(bs[|bs| - 1])]
  }

  /** The bytes the decode loop stores, one per character. */
  function BinaryToBytes(s: string): (r: seq<byte>)
    ensures |r| == |s|
    ensures forall i :: 0 <= i < |s| ==> r[i] as int == (s[i] as int) % 256
  {
    if s == [] then [] else BinaryToBytes(s[..|s| - 1]) + [CharByte(s[|s| - 1])]
  }

  /** A byte array goes through its binary string unchanged. */
  lemma BinaryRoundTrip(bs: seq<byte>)
    ensures BinaryToBytes(BytesToBinary(bs)) == bs
  {
    var r := BinaryToBytes(BytesToBinary(bs));
    assert forall i :: 0 <= i < |bs| ==> r[i] == bs[i];
  }

  // ---------------------------------------------------------------------
  // The base64 alphabet (Table 1 of RFC 4648)

  predicate IsAlphabet(c: char)
  {
    ('A' <= c <= 'Z') || ('a' <= c <= 'z') || ('0' <= c <= '9') || c == '+' || c == '/'
  }

  /** The character that encodes the 6-bit value `v`. */
  function AlphabetChar(v: int): (c: char)
    requires 0 <= v < 64
    ensures IsAlphabet(c)
  {
    if v < 26 then (('A' as int) + v) as char
    else if v < 52 then (('a' as int) + (v - 26)) as char
    else if v < 62 then (('0' as int) + (v - 52)) as char
    else if v == 62 then '+'
    else '/'
  }

  /** The 6-bit value a character encodes, if it is in the alphabet. */
  function AlphabetValue(c: char): (r: Option<int>)
    ensures r.Some? <==> IsAlphabet(c)
    ensures r.Some? ==> 0 <= r.value < 64 && AlphabetChar(r.value) == c
  {
    if 'A' <= c <= 'Z' then Some(c as int - 'A' as int)
    else if 'a' <= c <= 'z' then Some(c as int - 'a' as int + 26)
    else if '0' <= c <= '9' then Some(c as int - '0' as int + 52)
    else if c == '+' then Some(62)
    else if c == '/' then Some(63)
    else None
  }

  /** Distinct values have distinct characters, and each character reads back as its value. */
  lemma AlphabetRoundTrip(v: int)
    requires 0 <= v < 64
    ensures AlphabetValue(AlphabetChar(v)) == Some(v)
  {
  }

  // ---------------------------------------------------------------------
  // Encoding (`btoa`)

  predicate IsSextets(vals: seq<int>)
  {
    forall i :: 0 <= i < |vals| ==> 0 <= vals[i] < 64
  }

  /** The four 6-bit values of 24 bits of input. */
  function EncodeGroup(b0: int, b1: int, b2: int): (r: seq<int>)
    requires 0 <= b0 < 256 && 0 <= b1 < 256 && 0 <= b2 < 256
    ensures |r| == 4 && IsSextets(r)
  {
    [b0 / 4, (b0 % 4) * 16 + b1 / 16, (b1 % 16) * 4 + b2 / 64, b2 % 64]
  }

  /** The 6-bit groups of the input, 24 bits at a time; a final group of one
      or two bytes is filled with zero bits and gives two or three values. */
  function Sextets(bs: seq<byte>): (r: seq<int>)
    ensures |r| == 4 * (|bs| / 3) + (if |bs| % 3 == 0 then 0 else |bs| % 3 + 1)
    ensures IsSextets(r)
    decreases |bs|
  {
    if |bs| == 0 then []
    else if |bs| == 1 then EncodeGroup(bs[0] as int, 0, 0)[..2]
    else if |bs| == 2 then EncodeGroup(bs[0] as int, bs[1] as int, 0)[..3]
    else EncodeGroup(bs[0] as int, bs[1] as int, bs[2] as int) + Sextets(bs[3..])
  }

  /** The alphabet characters of a run of 6-bit values. */
  function Chars(vals: seq<int>): (r: string)
    requires IsSextets(vals)
    ensures |r| == |vals|
    ensures forall i :: 0 <= i < |vals| ==> r[i] == AlphabetChar(vals[i])
    ensures forall i :: 0 <= i < |r| ==> AlphabetValue(r[i]) == Some(vals[i])
  {
    seq(|vals|, i requires 0 <= i < |vals| => AlphabetChar(vals[i]))
  }

  /** The '=' characters that fill the last quantum to four characters. */
  function Padding(n: nat): (r: string)
    ensures |r| == (3 - n % 3) % 3
  {
    if n % 3 == 1 then "==" else if n % 3 == 2 then "=" else ""
  }

  /** The base64 text of a byte sequence. */
  function Base64Encode(bs: seq<byte>): (r: string)
    ensures |r| == 4 * ((|bs| + 2) / 3)
    ensures forall i :: 0 <= i < |r| ==> IsAlphabet(r[i]) || r[i] == '='
    ensures forall i :: 0 <= i < |r| && r[i] == '=' ==> i >= |r| - 2
  {
    Chars(Sextets(bs)) + Padding(|bs|)
  }

  lemma SmallRemainder(c: int)
    requires 0 <= c < 256
    ensures c % 256 == c
  {
  }

  /** A binary string goes through its bytes unchanged. */
  lemma BinaryStringRoundTrip(s: string)
    requires IsBinary(s)
    ensures BytesToBinary(BinaryToBytes(s)) == s
  {
    var bs := BinaryToBytes(s);
    var r := BytesToBinary(bs);
    forall i | 0 <= i < |s| ensures r[i] == s[i] {
      var c := s[i] as int;
      assert 0 <= c < 256;
      SmallRemainder(c);
      assert bs[i] as int == c;
      assert r[i] as int == c;
    }
    assert |r| == |s|;
  }

  /** `btoa(s)`: a character above 255 makes it throw; otherwise the text
      has a whole number of quanta and `atob` reads `s` back from it. */
  function Btoa(s: string): (r: Option<string>)
    ensures r.Some? <==> IsBinary(s)
    ensures r.Some? ==> r.value == Base64Encode(BinaryToBytes(s))
    ensures r.Some? ==> |r.value| == 4 * ((|s| + 2) / 3) && Atob(r.value) == Some(s)
  {
    if IsBinary(s) then
      BinaryStringRoundTrip(s);
      AtobBase64Encode(BinaryToBytes(s));
      Some(Base64Encode(BinaryToBytes(s)))
    else None
  }

  // ---------------------------------------------------------------------
  // Decoding (`atob`)

  /** The white space forgiving base64 skips: TAB, LF, FF, CR and SPACE. */
  predicate IsAsciiWhitespace(c: char)
  {
    c == '\t' || c == '\n' || c == '\U{000C}' || c == '\r' || c == ' '
  }

  function StripWhitespace(s: string): (r: string)
    ensures |r| <= |s|
    ensures forall i :: 0 <= i < |r| ==> !IsAsciiWhitespace(r[i])
  {
    if s == [] then ""
    else StripWhitespace(s[..|s| - 1]) + (if IsAsciiWhitespace(s[|s| - 1]) then "" else [s[|s| - 1]])
  }

  /** Stripping white space works character by character: it distributes over concatenation. */
  lemma {:induction false} StripWhitespaceAppend(a: string, b: string)
    ensures StripWhitespace(a + b) == StripWhitespace(a) + StripWhitespace(b)
    decreases |b|
  {
    if b == [] {
      assert a + b == a;
    } else {
      var init := b[..|b| - 1];
      assert (a + b)[..|a + b| - 1] == a + init;
      assert (a + b)[|a + b| - 1] == b[|b| - 1];
      StripWhitespaceAppend(a, init);
    }
  }

  /** A single character is dropped exactly when it is white space. */
  lemma StripWhitespaceChar(c: char)
    ensures StripWhitespace([c]) == (if IsAsciiWhitespace(c) then "" else [c])
  {
    assert [c][..0] == [];
  }

  /** A length that is a multiple of four may end in one or two '=' that are dropped. */
  function StripPadding(t: string): (r: string)
    ensures r <= t && |t| - 2 <= |r|
  {
    if |t| % 4 == 0 && |t| >= 1 && t[|t| - 1] == '=' then
      if |t| >= 2 && t[|t| - 2] == '=' then t[..|t| - 2] else t[..|t| - 1]
    else t
  }

  /** The 6-bit values of the characters, when every one is in the alphabet. */
  function Values(u: string): (r: Option<seq<int>>)
    ensures r.Some? <==> forall i :: 0 <= i < |u| ==> IsAlphabet(u[i])
    ensures r.Some? ==> |r.value| == |u| && IsSextets(r.value) && Chars(r.value) == u
  {
    if u == [] then Some([])
    else
      match Values(u[..|u| - 1])
      case None => None
      case Some(init) =>
        match AlphabetValue(u[|u| - 1])
        case None => None
        case Some(v) =>
          assert Chars(init + [v]) == u by {
            assert u == u[..|u| - 1] + [u[|u| - 1]];
          }
          Some(init + [v])
  }

  /** The three bytes of four 6-bit values. */
  function DecodeGroup(v0: int, v1: int, v2: int, v3: int): (r: seq<byte>)
    requires 0 <= v0 < 64 && 0 <= v1 < 64 && 0 <= v2 < 64 && 0 <= v3 < 64
    ensures |r| == 3
  {
    [(v0 * 4 + v1 / 16) as byte, ((v1 % 16) * 16 + v2 / 4) as byte, ((v2 % 4) * 64 + v3) as byte]
  }

  /** The bytes of a run of 6-bit values, 24 bits at a time; a final run of
      two or three values gives one or two bytes and its left-over bits are
      dropped. */
  function DecodeSextets(vals: seq<int>): (r: seq<byte>)
    requires IsSextets(vals) && |vals| % 4 != 1
    ensures |r| == 3 * (|vals| / 4) + (if |vals| % 4 == 0 then 0 else |vals| % 4 - 1)
    decreases |vals|
  {
    if |vals| == 0 then []
    else if |vals| == 2 then DecodeGroup(vals[0], vals[1], 0, 0)[..1]
    else if |vals| == 3 then DecodeGroup(vals[0], vals[1], vals[2], 0)[..2]
    else DecodeGroup(vals[0], vals[1], vals[2], vals[3]) + DecodeSextets(vals[4..])
  }

  /** `atob(s)`: the binary string of the bytes, or None where it throws. */
  function Atob(s: string): (r: Option<string>)
    ensures r.Some? ==> IsBinary(r.value)
  {
    var u := StripPadding(StripWhitespace(s));
    if |u| % 4 == 1 then None
    else
      match Values(u)
      case None => None
      case Some(vals) => Some(BytesToBinary(DecodeSextets(vals)))
  }

  // ---------------------------------------------------------------------
  // The round trip

  /** A group of three bytes comes back from its four values; the first
      byte depends on the first two values only, the second on the first three. */
  lemma GroupRoundTrip(b0: int, b1: int, b2: int)
    requires 0 <= b0 < 256 && 0 <= b1 < 256 && 0 <= b2 < 256
    ensures var g := EncodeGroup(b0, b1, b2);
      DecodeGroup(g[0], g[1], g[2], g[3]) == [b0 as byte, b1 as byte, b2 as byte]
    ensures var g := EncodeGroup(b0, b1, b2);
      DecodeGroup(g[0], g[1], 0, 0)[..1] == [b0 as byte]
    ensures var g := EncodeGroup(b0, b1, b2);
      DecodeGroup(g[0], g[1], g[2], 0)[..2] == [b0 as byte, b1 as byte]
  {
    var v1 := (b0 % 4) * 16 + b1 / 16;
    assert v1 / 16 == b0 % 4 && v1 % 16 == b1 / 16;
    var v2 := (b1 % 16) * 4 + b2 / 64;
    assert v2 / 4 == b1 % 16 && v2 % 4 == b2 / 64;
  }

  lemma {:induction false} DecodeEncodeSextets(bs: seq<byte>)
    ensures |Sextets(bs)| % 4 != 1
    ensures DecodeSextets(Sextets(bs)) == bs
    decreases |bs|
  {
    if |bs| == 1 {
      GroupRoundTrip(bs[0] as int, 0, 0);
    } else if |bs| == 2 {
      GroupRoundTrip(bs[0] as int, bs[1] as int, 0);
    } else if |bs| >= 3 {
      DecodeEncodeSextets(bs[3..]);
      DecodeEncodeGroupStep(bs);
    }
  }

  /** A group of three bytes in front decodes back ahead of the rest. */
  lemma DecodeEncodeGroupStep(bs: seq<byte>)
    requires |bs| >= 3
    requires |Sextets(bs[3..])| % 4 != 1 && DecodeSextets(Sextets(bs[3..])) == bs[3..]
    ensures |Sextets(bs)| % 4 != 1
    ensures DecodeSextets(Sextets(bs)) == bs
  {
    var g := EncodeGroup(bs[0] as int, bs[1] as int, bs[2] as int);
    var rest := Sextets(bs[3..]);
    assert Sextets(bs) == g + rest;
    DecodeFourFirst(g, rest);
    GroupRoundTrip(bs[0] as int, bs[1] as int, bs[2] as int);
    assert bs == [bs[0], bs[1], bs[2]] + bs[3..];
  }

  /** Four values in front decode as one group ahead of the rest. */
  lemma DecodeFourFirst(g: seq<int>, rest: seq<int>)
    requires |g| == 4 && IsSextets(g) && IsSextets(rest) && |rest| % 4 != 1
    ensures IsSextets(g + rest) && |g + rest| % 4 != 1
    ensures DecodeSextets(g + rest) == DecodeGroup(g[0], g[1], g[2], g[3]) + DecodeSextets(rest)
  {
    var vals := g + rest;
    assert vals[..4] == g && vals[4..] == rest;
  }

  lemma {:induction false} StripWhitespaceNone(s: string)
    requires forall i :: 0 <= i < |s| ==> !IsAsciiWhitespace(s[i])
    ensures StripWhitespace(s) == s
  {
    if s != [] {
      StripWhitespaceNone(s[..|s| - 1]);
    }
  }

  /** Stripping the padding of an encoding leaves exactly its value characters. */
  lemma StripPaddingOfEncoding(bs: seq<byte>)
    ensures StripPadding(Base64Encode(bs)) == Chars(Sextets(bs))
  {
    var c := Chars(Sextets(bs));
    var t := Base64Encode(bs);
    assert t == c + Padding(|bs|);
    assert |t| % 4 == 0;
    if |bs| % 3 == 0 {
      NoPaddingKept(c, t);
    } else if |bs| % 3 == 1 {
      assert Padding(|bs|) == "==";
      TwoPaddingDropped(c, t);
    } else {
      assert Padding(|bs|) == "=";
      OnePaddingDropped(c, t);
    }
  }

  lemma NoPaddingKept(c: string, t: string)
    requires t == c + "" && |t| % 4 == 0
    requires forall i :: 0 <= i < |c| ==> IsAlphabet(c[i])
    ensures StripPadding(t) == c
  {
    assert t == c;
    if |c| >= 1 {
      assert IsAlphabet(c[|c| - 1]);
    }
  }

  lemma TwoPaddingDropped(c: string, t: string)
    requires t == c + "==" && |t| % 4 == 0
    ensures StripPadding(t) == c
  {
    assert t[|t| - 1] == '=' && t[|t| - 2] == '=';
    assert t[..|t| - 2] == c;
  }

  lemma OnePaddingDropped(c: string, t: string)
    requires t == c + "=" && |t| % 4 == 0 && |c| >= 1 && IsAlphabet(c[|c| - 1])
    ensures StripPadding(t) == c
  {
    assert t[|t| - 1] == '=' && t[|t| - 2] == c[|c| - 1];
    assert t[..|t| - 1] == c;
  }

  /** `atob` undoes `btoa`: the binary string comes back unchanged. */
  lemma AtobBase64Encode(bs: seq<byte>)
    ensures Atob(Base64Encode(bs)) == Some(BytesToBinary(bs))
  {
    var t := Base64Encode(bs);
    StripWhitespaceNone(t);
    StripPaddingOfEncoding(bs);
    var vals := Sextets(bs);
    DecodeEncodeSextets(bs);
    var v := Values(Chars(vals));
    assert v.Some?;
    assert v.value == vals by {
      forall i | 0 <= i < |vals| ensures v.value[i] == vals[i] {
        AlphabetRoundTrip(vals[i]);
        AlphabetRoundTrip(v.value[i]);
      }
    }
  }

  /** `decode(encode(bytes))` gives the bytes back. */
  lemma DecodeEncode(bs: seq<byte>)
    ensures Btoa(BytesToBinary(bs)) == Some(Base64Encode(bs))
    ensures Atob(Btoa(BytesToBinary(bs)).value).Some?
    ensures BinaryToBytes(Atob(Btoa(BytesToBinary(bs)).value).value) == bs
  {
    BinaryRoundTrip(bs);
    AtobBase64Encode(bs);
  }

  /** The test vectors of section 10 of RFC 4648 for "" and "f". */
  lemma RfcTestVectorsShort()
    ensures Base64Encode([]) == ""
    ensures Base64Encode([102]) == "Zg=="
  {
    assert EncodeGroup(102, 0, 0)[..2] == [25, 32];
  }

  /** The test vector of section 10 of RFC 4648 for "fo". */
  lemma RfcTestVectorFo()
    ensures Base64Encode([102, 111]) == "Zm8="
  {
    assert EncodeGroup(102, 111, 0)[..3] == [25, 38, 60];
  }

  /** The test vector of section 10 of RFC 4648 for "foo". */
  lemma RfcTestVectorFoo()
    ensures Base64Encode([102, 111, 111]) == "Zm9v"
  {
    assert EncodeGroup(102, 111, 111) == [25, 38, 61, 47];
  }

  /** The test vector of section 10 of RFC 4648 for "foob". */
  lemma RfcTestVectorFoob()
    ensures Base64Encode([102, 111, 111, 98]) == "Zm9vYg=="
  {
    assert EncodeGroup(102, 111, 111) == [25, 38, 61, 47];
    assert EncodeGroup(98, 0, 0)[..2] == [24, 32];
    assert Sextets([102, 111, 111, 98]) == [25, 38, 61, 47] + Sextets([98]) by {
      assert [102, 111, 111, 98][3..] == [98 as byte];
    }
  }

  lemma ValuesZg()
    ensures Values("Zg") == Some([25, 32])
  {
    assert "Zg"[..1] == "Z" && "Zg"[1] == 'g';
    assert AlphabetValue('g') == Some(32);
    assert Values("Z") == Some([25]) by {
      assert "Z"[..0] == "" && "Z"[0] == 'Z';
      assert Values("") == Some([]);
      assert AlphabetValue('Z') == Some(25);
      assert [] + [25] == [25];
    }
    assert [25] + [32] == [25, 32];
  }

  /** The two values of "Zg" decode to the one byte of "f". */
  lemma DecodeZg()
    ensures DecodeSextets([25, 32]) == [102]
    ensures BytesToBinary([102]) == "f"
  {
    assert [102 as byte][..0] == [];
  }

  /** The forgiving decode: padding may be left out. */
  lemma AtobPadding()
    ensures Atob("Zg==") == Some("f")
    ensures Atob("Zg") == Some("f")
  {
    StripWhitespaceNone("Zg==");
    StripWhitespaceNone("Zg");
    assert StripPadding("Zg==") == "Zg";
    ValuesZg();
    DecodeZg();
  }

  lemma StripWhitespaceExample()
    ensures StripWhitespace(" Zg\n==") == "Zg=="
  {
    var s := " Zg\n==";
    assert s[..6] == s;
    assert s[..6][..5] == s[..5] && s[..5][..4] == s[..4] && s[..4][..3] == s[..3];
    assert s[..3][..2] == s[..2] && s[..2][..1] == s[..1] && s[..1][..0] == "";
    assert StripWhitespace(s[..1]) == "";
    assert StripWhitespace(s[..2]) == "Z";
    assert StripWhitespace(s[..3]) == "Zg";
    assert StripWhitespace(s[..4]) == "Zg";
    assert StripWhitespace(s[..5]) == "Zg=";
  }

  /** `atob` reads its input only through the input with white space removed. */
  lemma AtobSkipsWhitespace(s: string, t: string)
    requires StripWhitespace(s) == StripWhitespace(t)
    ensures Atob(s) == Atob(t)
  {
  }

  /** The forgiving decode: ASCII white space anywhere is skipped. */
  lemma AtobWhitespace()
    ensures Atob(" Zg\n==") == Some("f")
  {
    StripWhitespaceExample();
    StripWhitespaceNone("Zg==");
    AtobSkipsWhitespace(" Zg\n==", "Zg==");
    AtobPadding();
  }

  /** The forgiving decode fails on a '=' that is not final padding and on a
      length of one modulo four. */
  lemma AtobFailures()
    ensures Atob("Zg=") == None
    ensures Atob("Zm9vY") == None
  {
    StripWhitespaceNone("Zg=");
    assert Values("Zg=").None? by { assert !IsAlphabet("Zg="[2]); }
    StripWhitespaceNone("Zm9vY");
  }

  // ---------------------------------------------------------------------
  // The two loops

  /** `encode`: the bytes as a binary string, then `btoa`. */
  method Encode(bytes: array<byte>) returns (r: string)
    ensures r == Base64Encode(bytes[..])
  {
    var binary := "";
    for i := 0 to bytes.Length
      invariant binary == BytesToBinary(bytes[..i])
    {
      assert bytes[..i + 1][..i] == bytes[..i];
      binary := binary + [ByteChar(bytes[i])];
    }
    assert bytes[..bytes.Length] == bytes[..];
    BinaryRoundTrip(bytes[..]);
    var encoded := Btoa(binary);
    r := encoded.value;
  }

  /** `decode`: `atob`, then one byte per character into a fresh array;
      None where `atob` throws. */
  method Decode(base64: string) returns (r: Option<array<byte>>)
    ensures r.None? <==> Atob(base64).None?
    ensures r.Some? ==> fresh(r.value) && r.value[..] == BinaryToBytes(Atob(base64).value)
  {
    var binary := Atob(base64);
    if binary.None? {
      return None;
    }
    var s := binary.value;
    var len := |s|;
    var bytes := new byte[len];
    for i := 0 to len
      invariant bytes[..i] == BinaryToBytes(s[..i])
    {
      assert s[..i + 1][..i] == s[..i];
      bytes[i] := CharByte(s[i]);
      assert bytes[..i + 1] == bytes[..i] + [bytes[i]];
    }
    assert bytes[..len] == bytes[..] && s[..len] == s;
    r := Some(bytes);
  }

  // ---------------------------------------------------------------------
  // Grounded search tools

  datatype Tool = GoogleSearch | GoogleMaps

  datatype LatLng = LatLng(latitude: real, longitude: real)

  /** `toolConfig`: empty, or a retrieval config carrying a position. */
  datatype ToolConfig = ToolConfig(retrievalConfig: Option<LatLng>)

  /** The tools and tool config `groundedSearch` sends: search always, maps
      only when asked for, and the position only with maps. */
  method GroundedSearchTools(useMaps: bool, location: Option<LatLng>)
    returns (tools: seq<Tool>, toolConfig: ToolConfig)
    ensures |tools| >= 1 && tools[0] == GoogleSearch
    ensures GoogleMaps in tools <==> useMaps
    ensures forall i, j :: 0 <= i < j < |tools| ==> tools[i] != tools[j]
    ensures toolConfig.retrievalConfig.Some? <==> useMaps && location.Some?
    ensures toolConfig.retrievalConfig.Some? ==> toolConfig.retrievalConfig == location
  {
    tools := [GoogleSearch];
    toolConfig := ToolConfig(None);
    if useMaps {
      tools := tools + [GoogleMaps];
      if location.Some? {
        toolConfig := toolConfig.(retrievalConfig := Some(location.value));
      }
    }
  }
}
