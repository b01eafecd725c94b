/**
 * `urlBase64ToUint8Array`, which turns a VAPID public key written in the
 * URL-safe base64 alphabet (section 5 of RFC 4648, padding omitted) into the
 * bytes the Push API expects: it pads the text to a multiple of four with
 * `=`, swaps `-` and `_` for `+` and `/` (the alphabet of section 4 of
 * RFC 4648), decodes it with the browser's `atob`, and copies the char codes
 * of the decoded text into a `Uint8Array`.  `atob` is given here as the
 * forgiving-base64 decode of the WHATWG Infra standard, which it runs.
 */
module PushNotifications {
  import opened Wrappers

  /** An element of a `Uint8Array`. */
  newtype byte = x: int | 0 <= x < 256

  /** `(4 - (length % 4)) % 4`: how many `=` make the length a multiple of four. */
  function Padding(length: nat): (p: nat)
    ensures 0 <= p <= 3
    ensures (length + p) % 4 == 0
    ensures length % 4 == 0 <==> p == 0
  {
    (4 - length % 4) % 4
  }

  /** `c.repeat(n)`. */
  function Repeat(c: char, n: nat): (r: string)
    ensures |r| == n && forall i :: 0 <= i < n ==> r[i] == c
  {
    if n == 0 then [] else Repeat(c, n - 1) + [c]
  }

  /** `.replace(/-/g, '+').replace(/_/g, '/')`. */
  function ToStandardAlphabet(s: string): (r: string)
    ensures |r| == |s|
    ensures '-' !in r && '_' !in r
    ensures forall i :: 0 <= i < |s| && s[i] != '-' && s[i] != '_' ==> r[i] == s[i]
    ensures forall i :: 0 <= i < |s| && s[i] == '-' ==> r[i] == '+'
    ensures forall i :: 0 <= i < |s| && s[i] == '_' ==> r[i] == '/'
  {
    seq(|s|, i requires 0 <= i < |s| => if s[i] == '-' then '+' else if s[i] == '_' then '/' else s[i])
  }

  /** The text handed to `atob`: padded, then moved to the standard alphabet. */
  function Normalize(base64String: string): (r: string)
    ensures |r| % 4 == 0 && |r| - |base64String| <= 3
  {
    ToStandardAlphabet(base64String + Repeat('=', Padding(|base64String|)))
  }

  // ---------------------------------------------------------------------
  // atob: forgiving-base64 decode
  // ---------------------------------------------------------------------

  /** ASCII whitespace: TAB, LF, FF, CR and SPACE. */
  predicate IsAsciiWhitespace(c: char)
  {
    c == '\t' || c == '\n' || c == '\U{000C}' || c == '\r' || c == ' '
  }

  /** `data` with all ASCII whitespace removed. */
  function StripWhitespace(data: string): (r: string)
    ensures |r| <= |data|
    ensures forall c :: c in r <==> c in data && !IsAsciiWhitespace(c)
  {
    if data == [] then []
    else
      var rest := StripWhitespace(data[..|data| - 1]);
      assert data == data[..|data| - 1] + [data[|data| - 1]];
      if IsAsciiWhitespace(data[|data| - 1]) then rest else rest + [data[|data| - 1]]
  }

  /** One more character is dropped when it is whitespace and kept at the end otherwise. */
  lemma StripWhitespaceSnoc(a: string, c: char)
    ensures StripWhitespace(a + [c]) == StripWhitespace(a) + (if IsAsciiWhitespace(c) then [] else [c])
  {
    assert (a + [c])[..|a|] == a;
  }

  /**
   * Whitespace removal keeps the other characters in order and with their
   * multiplicity: removing it from a concatenation is concatenating the parts.
   */
  lemma {:induction false} StripWhitespaceAppend(a: string, b: string)
    ensures StripWhitespace(a + b) == StripWhitespace(a) + StripWhitespace(b)
    decreases |b|
  {
    if b == [] {
      assert a + b == a;
    } else {
      var init, c := b[..|b| - 1], b[|b| - 1];
      var tail := if IsAsciiWhitespace(c) then [] else [c];
      assert a + b == (a + init) + [c];
      assert b == init + [c];
      calc {
        StripWhitespace(a + b);
        StripWhitespace((a + init) + [c]);
        { StripWhitespaceSnoc(a + init, c); }
        StripWhitespace(a + init) + tail;
        { StripWhitespaceAppend(a, init); }
        (StripWhitespace(a) + StripWhitespace(init)) + tail;
        StripWhitespace(a) + (StripWhitespace(init) + tail);
        { StripWhitespaceSnoc(init, c); }
        StripWhitespace(a) + StripWhitespace(init + [c]);
        StripWhitespace(a) + StripWhitespace(b);
      }
    }
  }

  /** The value of a character of the standard base64 alphabet. */
  function SextetValue(c: char): (r: Option<nat>)
    ensures r.Some? ==> r.value < 64
  {
    if 'A' <= c <= 'Z' then Some(c as int - 'A' as int)
    else if 'a' <= c <= 'z' then Some(c as int - 'a' as int + 26)
    else if '0' <= c <= '9' then Some(c as int - '0' as int + 52)
    else if c == '+' then Some(62)
    else if c == '/' then Some(63)
    else None
  }

  /** Every character of `s` is in the standard alphabet. */
  predicate AllSextets(s: string)
  {
    forall i :: 0 <= i < |s| ==> SextetValue(s[i]).Some?
  }

  /** The values of the characters of `s`. */
  function Sextets(s: string): (r: seq<nat>)
    requires AllSextets(s)
    ensures |r| == |s| && forall i :: 0 <= i < |r| ==> r[i] < 64 && Some(r[i]) == SextetValue(s[i])
  {
    seq(|s|, i requires 0 <= i < |s| => SextetValue(s[i]).value)
  }

  /** Every element is a sextet. */
  predicate SextetRange(v: seq<nat>)
  {
    forall i :: 0 <= i < |v| ==> v[i] < 64
  }

  /**
   * The bytes held by the sextets `v`, four at a time as 24-bit groups; a
   * final group of two or three sextets yields one or two bytes, the
   * leftover low bits being discarded.
   */
  function DecodeSextets(v: seq<nat>): (r: seq<byte>)
    requires SextetRange(v) && |v| % 4 != 1
    ensures |r| == 3 * (|v| / 4) + (if |v| % 4 == 0 then 0 else |v| % 4 - 1)
    decreases |v|
  {
    if |v| == 0 then []
    else if |v| == 2 then [(v[0] * 4 + v[1] / 16) as byte]
    else if |v| == 3 then [(v[0] * 4 + v[1] / 16) as byte, ((v[1] % 16) * 16 + v[2] / 4) as byte]
    else
      [(v[0] * 4 + v[1] / 16) as byte, ((v[1] % 16) * 16 + v[2] / 4) as byte, ((v[2] % 4) * 64 + v[3]) as byte]
      + DecodeSextets(v[4..])
  }

  /** The text `atob` returns: one character per byte, its code the byte. */
  function BinaryString(bytes: seq<byte>): (r: string)
    ensures |r| == |bytes| && forall i :: 0 <= i < |r| ==> r[i] as int == bytes[i] as int
  {
    seq(|bytes|, i requires 0 <= i < |bytes| => bytes[i] as int as char)
  }

  /** The one or two `=` removed from the end of a length that is a multiple of four. */
  function StripPadding(d: string): (r: string)
    ensures r <= d && |d| - |r| <= 2
  {
    if |d| >= 2 && d[|d| - 2..] == "==" then d[..|d| - 2]
    else if |d| >= 1 && d[|d| - 1] == '=' then d[..|d| - 1]
    else d
  }

  /**
   * `atob(data)`: the forgiving-base64 decode.  Whitespace is removed; a
   * length that is a multiple of four loses one or two final `=`; a length
   * of the form 4k+1 or a character outside the standard alphabet fails with
   * `InvalidCharacterError`; the rest is decoded.
   */
  function Atob(data: string): (r: Result<string, string>)
    ensures r.Success? ==> forall i :: 0 <= i < |r.value| ==> r.value[i] as int < 256
  {
    var d := StripWhitespace(data);
    var d1 := if |d| % 4 == 0 then StripPadding(d) else d;
    if |d1| % 4 == 1 then Failure("InvalidCharacterError")
    else if !AllSextets(d1) then Failure("InvalidCharacterError")
    else Success(BinaryString(DecodeSextets(Sextets(d1))))
  }

  /** `Uint8Array` assignment keeps each char code modulo 256. */
  function CharCodes(s: string): (r: seq<byte>)
    ensures |r| == |s| && forall i :: 0 <= i < |s| ==> r[i] as int == (s[i] as int) % 256
  {
    seq(|s|, i requires 0 <= i < |s| => ((s[i] as int) % 256) as byte)
  }

  /** The char codes of a decoded text are the decoded bytes. */
  lemma CharCodesOfBinary(bytes: seq<byte>)
    ensures CharCodes(BinaryString(bytes)) == bytes
  {
    var s := BinaryString(bytes);
    assert forall i :: 0 <= i < |bytes| ==> CharCodes(s)[i] == bytes[i];
  }

  /**
   * The `for` loop of `urlBase64ToUint8Array`: a new array as long as the
   * decoded text, element `i` set to the char code of character `i`.
   */
  method CopyCharCodes(rawData: string) returns (outputArray: array<byte>)
    ensures fresh(outputArray)
    ensures outputArray[..] == CharCodes(rawData)
  {
    outputArray := new byte[|rawData|];
    var i := 0;
    while i < |rawData|
      invariant 0 <= i <= |rawData|
      invariant forall j :: 0 <= j < i ==> outputArray[j] as int == (rawData[j] as int) % 256
    {
      outputArray[i] := ((rawData[i] as int) % 256) as byte;
      i := i + 1;
    }
    assert outputArray[..] == CharCodes(rawData);
  }

  /**
   * `urlBase64ToUint8Array`: the decoded bytes of the normalised key, one
   * array element per character of the decoded text.  `atob` throws on a
   * malformed key, and so does the conversion.
   */
  method UrlBase64ToUint8Array(base64String: string) returns (outputArray: Result<array<byte>, string>)
    ensures outputArray.Failure? <==> Atob(Normalize(base64String)).Failure?
    ensures outputArray.Success? ==>
      && fresh(outputArray.value)
      && outputArray.value[..] == CharCodes(Atob(Normalize(base64String)).value)
  {
    var decoded := Atob(Normalize(base64String));
    if decoded.Failure? {
      return Failure(decoded.error);
    }
    var output := CopyCharCodes(decoded.value);
    return Success(output);
  }

  // ---------------------------------------------------------------------
  // The URL-safe encoding a VAPID key is published in
  // ---------------------------------------------------------------------

  /** The character of sextet `v` in the URL-safe alphabet. */
  function UrlChar(v: nat): (c: char)
    requires v < 64
    ensures IsUrlSafeChar(c)
  {
    if v < 26 then (('A' as int) + v) as char
    else if v < 52 then (('a' as int) + v - 26) as char
    else if v < 62 then (('0' as int) + v - 52) as char
    else if v == 62 then '-'
    else '_'
  }

  /** A character of the URL-safe alphabet of section 5 of RFC 4648. */
  predicate IsUrlSafeChar(c: char)
  {
    'A' <= c <= 'Z' || 'a' <= c <= 'z' || '0' <= c <= '9' || c == '-' || c == '_'
  }

  /** The sextets of `b`, three bytes to four sextets, with no padding. */
  function EncodeSextets(b: seq<byte>): (r: seq<nat>)
    ensures SextetRange(r)
    ensures |r| % 4 != 1
    ensures |r| == 4 * (|b| / 3) + (if |b| % 3 == 0 then 0 else |b| % 3 + 1)
    decreases |b|
  {
    if |b| == 0 then []
    else if |b| == 1 then [b[0] as int / 4, (b[0] as int % 4) * 16]
    else if |b| == 2 then
      [b[0] as int / 4, (b[0] as int % 4) * 16 + b[1] as int / 16, (b[1] as int % 16) * 4]
    else
      [b[0] as int / 4, (b[0] as int % 4) * 16 + b[1] as int / 16,
       (b[1] as int % 16) * 4 + b[2] as int / 64, b[2] as int % 64]
      + EncodeSextets(b[3..])
  }

  /** The unpadded URL-safe base64 text of `b` (section 5 of RFC 4648). */
  function EncodeUrl(b: seq<byte>): (r: string)
    ensures |r| == |EncodeSextets(b)|
    ensures |r| % 4 != 1
    ensures forall i :: 0 <= i < |r| ==> IsUrlSafeChar(r[i]) && r[i] != '='
  {
    var v := EncodeSextets(b);
    seq(|v|, i requires 0 <= i < |v| => UrlChar(v[i]))
  }

  /** The four sextets of three bytes give those bytes back. */
  lemma GroupRoundTrip(x: byte, y: byte, z: byte)
    ensures var s0, s1, s2, s3 := x as int / 4, (x as int % 4) * 16 + y as int / 16, (y as int % 16) * 4 + z as int / 64, z as int % 64;
      && s0 * 4 + s1 / 16 == x as int
      && (s1 % 16) * 16 + s2 / 4 == y as int
      && (s2 % 4) * 64 + s3 == z as int
  {
  }

  /** Each group of sextets decodes to the bytes it was made from. */
  lemma {:induction false} DecodeEncode(b: seq<byte>)
    ensures DecodeSextets(EncodeSextets(b)) == b
    decreases |b|
  {
    if |b| >= 3 {
      DecodeEncode(b[3..]);
      DecodeEncodeGroup(b);
    } else {
      DecodeEncodeShort(b);
    }
  }

  /** The first full group decodes back, given that the rest does. */
  lemma {:induction false} DecodeEncodeGroup(b: seq<byte>)
    requires |b| >= 3 && DecodeSextets(EncodeSextets(b[3..])) == b[3..]
    ensures DecodeSextets(EncodeSextets(b)) == b
  {
    var v, rest := EncodeSextets(b), EncodeSextets(b[3..]);
    assert |v| == 4 + |rest| && v[4..] == rest;
    DecodeHead(v);
    GroupRoundTrip(b[0], b[1], b[2]);
    assert DecodeSextets(v) == [b[0], b[1], b[2]] + DecodeSextets(rest);
    assert b == [b[0], b[1], b[2]] + b[3..];
  }

  /** Four or more sextets decode as their first group followed by the rest. */
  lemma DecodeHead(v: seq<nat>)
    requires SextetRange(v) && |v| % 4 != 1 && |v| >= 4
    ensures DecodeSextets(v) ==
      [(v[0] * 4 + v[1] / 16) as byte, ((v[1] % 16) * 16 + v[2] / 4) as byte, ((v[2] % 4) * 64 + v[3]) as byte]
      + DecodeSextets(v[4..])
  {
  }

  /** One or two trailing bytes decode back from their two or three sextets. */
  lemma {:induction false} DecodeEncodeShort(b: seq<byte>)
    requires |b| < 3
    ensures DecodeSextets(EncodeSextets(b)) == b
  {
    if |b| == 2 {
      GroupRoundTrip(b[0], b[1], 0);
      assert b == [b[0], b[1]];
    } else if |b| == 1 {
      GroupRoundTrip(b[0], 0, 0);
      assert b == [b[0]];
    }
  }

  /** Moving a URL-safe character to the standard alphabet keeps its value. */
  lemma UrlCharValue(v: nat)
    requires v < 64
    ensures var c := UrlChar(v); SextetValue(if c == '-' then '+' else if c == '_' then '/' else c) == Some(v)
  {
  }

  /** The standard-alphabet form of an encoding reads back as its sextets. */
  lemma StandardSextets(b: seq<byte>)
    ensures AllSextets(ToStandardAlphabet(EncodeUrl(b)))
    ensures Sextets(ToStandardAlphabet(EncodeUrl(b))) == EncodeSextets(b)
  {
    var v := EncodeSextets(b);
    var e := EncodeUrl(b);
    var s := ToStandardAlphabet(e);
    forall i | 0 <= i < |s|
      ensures SextetValue(s[i]) == Some(v[i])
    {
      UrlCharValue(v[i]);
    }
  }

  /** Two final `=` are stripped together. */
  lemma StripTwo(s: string)
    ensures StripPadding(s + "==") == s
  {
    var d := s + "==";
    assert d[|d| - 2..] == "==";
    assert d[..|d| - 2] == s;
  }

  /** A single final `=` after a non-`=` is stripped alone. */
  lemma StripOne(s: string)
    requires |s| == 0 || s[|s| - 1] != '='
    ensures StripPadding(s + "=") == s
  {
    var d := s + "=";
    assert d[|d| - 1] == '=';
    assert |d| >= 2 ==> d[|d| - 2] == s[|s| - 1];
    assert d[..|d| - 1] == s;
  }

  /** Text that does not end in `=` is left as it is. */
  lemma StripNone(s: string)
    requires |s| == 0 || s[|s| - 1] != '='
    ensures StripPadding(s) == s
  {
    if |s| >= 2 {
      assert s[|s| - 2..][1] == s[|s| - 1];
    }
  }

  /** The padding a length calls for: none, `=`, `==`, or `===` for the undecodable 4k+1. */
  lemma PaddingText(n: nat)
    ensures Repeat('=', Padding(n)) ==
      if n % 4 == 0 then "" else if n % 4 == 3 then "=" else if n % 4 == 2 then "==" else "==="
  {
    var p := Padding(n);
    assert Repeat('=', 0) == "";
    assert Repeat('=', 1) == "=";
    assert Repeat('=', 2) == "==";
    assert Repeat('=', 3) == "===";
    assert n % 4 == 3 ==> p == 1;
    assert n % 4 == 2 ==> p == 2;
    assert n % 4 == 1 ==> p == 3;
  }

  /** The padded, normalised form of an encoding is its standard form followed by the padding. */
  lemma NormalizeEncoding(b: seq<byte>)
    ensures Normalize(EncodeUrl(b)) == ToStandardAlphabet(EncodeUrl(b)) + Repeat('=', Padding(|EncodeUrl(b)|))
  {
    var e := EncodeUrl(b);
    var p := Repeat('=', Padding(|e|));
    assert ToStandardAlphabet(e + p) == ToStandardAlphabet(e) + p;
  }

  /** Removing whitespace from text that has none changes nothing. */
  lemma {:induction false} StripWhitespaceNone(s: string)
    requires forall c :: c in s ==> !IsAsciiWhitespace(c)
    ensures StripWhitespace(s) == s
    decreases |s|
  {
    if s != [] {
      StripWhitespaceNone(s[..|s| - 1]);
      assert s == s[..|s| - 1] + [s[|s| - 1]];
    }
  }

  /**
   * Round trip: a key published as unpadded URL-safe base64 converts back to
   * exactly its bytes.
   */
  lemma UrlKeyRoundTrip(b: seq<byte>)
    ensures Atob(Normalize(EncodeUrl(b))).Success?
    ensures CharCodes(Atob(Normalize(EncodeUrl(b))).value) == b
  {
    var e := EncodeUrl(b);
    NormalizeEncoding(b);
    StandardSextets(b);
    AtobPadded(ToStandardAlphabet(e));
    DecodeEncode(b);
    CharCodesOfBinary(b);
  }

  /** Standard-alphabet text of a decodable length, padded, decodes to its sextets' bytes. */
  lemma AtobPadded(s: string)
    requires AllSextets(s) && |s| % 4 != 1
    ensures Atob(s + Repeat('=', Padding(|s|))) == Success(BinaryString(DecodeSextets(Sextets(s))))
  {
    PaddingText(|s|);
    LastNotPadding(s);
    if |s| % 4 == 0 {
      assert s + "" == s;
      AtobNoPadding(s);
    } else if |s| % 4 == 3 {
      AtobOnePadding(s);
    } else {
      AtobTwoPaddings(s);
    }
  }

  /** Text of a length that is a multiple of four decodes without padding. */
  lemma AtobNoPadding(s: string)
    requires AllSextets(s) && |s| % 4 == 0
    requires |s| == 0 || s[|s| - 1] != '='
    ensures Atob(s) == Success(BinaryString(DecodeSextets(Sextets(s))))
  {
    NoWhitespace(s, "");
    assert s + "" == s;
    StripNone(s);
    AtobStripped(s, "");
  }

  /** Text of length 4k+3 decodes with one `=`. */
  lemma AtobOnePadding(s: string)
    requires AllSextets(s) && |s| % 4 == 3
    requires s[|s| - 1] != '='
    ensures Atob(s + "=") == Success(BinaryString(DecodeSextets(Sextets(s))))
  {
    NoWhitespace(s, "=");
    StripOne(s);
    AtobStripped(s, "=");
  }

  /** Text of length 4k+2 decodes with two `=`. */
  lemma AtobTwoPaddings(s: string)
    requires AllSextets(s) && |s| % 4 == 2
    ensures Atob(s + "==") == Success(BinaryString(DecodeSextets(Sextets(s))))
  {
    NoWhitespace(s, "==");
    StripTwo(s);
    AtobStripped(s, "==");
  }

  /** Standard-alphabet text does not end in `=`. */
  lemma LastNotPadding(s: string)
    requires AllSextets(s)
    ensures |s| == 0 || s[|s| - 1] != '='
  {
    if |s| > 0 {
      assert SextetValue(s[|s| - 1]).Some?;
    }
  }

  /** What `atob` does once whitespace and padding are known to come off. */
  lemma AtobStripped(s: string, pad: string)
    requires AllSextets(s) && |s| % 4 != 1 && |s + pad| % 4 == 0
    requires StripWhitespace(s + pad) == s + pad && StripPadding(s + pad) == s
    ensures Atob(s + pad) == Success(BinaryString(DecodeSextets(Sextets(s))))
  {
  }

  /** Standard-alphabet text followed by `=` holds no whitespace to remove. */
  lemma NoWhitespace(s: string, pad: string)
    requires AllSextets(s) && forall i :: 0 <= i < |pad| ==> pad[i] == '='
    ensures StripWhitespace(s + pad) == s + pad
  {
    var d := s + pad;
    forall c | c in d ensures !IsAsciiWhitespace(c) {
      var i :| 0 <= i < |d| && d[i] == c;
      if i < |s| {
        assert SextetValue(s[i]).Some?;
      } else {
        assert d[i] == pad[i - |s|];
      }
    }
    StripWhitespaceNone(d);
  }

  /** A key of length 4k+1 is padded with three `=`. */
  lemma NormalizeBadLength(base64String: string)
    requires |base64String| % 4 == 1
    ensures Normalize(base64String) == ToStandardAlphabet(base64String) + "==="
  {
    assert Repeat('=', 3) == "===";
    assert ToStandardAlphabet(base64String + "===") == ToStandardAlphabet(base64String) + "===";
  }

  /** A key in the URL-safe alphabet is in the standard alphabet once its characters are swapped. */
  lemma SwappedKeySextets(base64String: string)
    requires forall c :: c in base64String ==> SextetValue(c).Some? || c == '-' || c == '_'
    ensures AllSextets(ToStandardAlphabet(base64String))
  {
    var s := ToStandardAlphabet(base64String);
    forall i | 0 <= i < |s| ensures SextetValue(s[i]).Some? {
      assert base64String[i] in base64String;
    }
  }

  /** Text whose padding leaves a final `=` behind is rejected. */
  lemma AtobLeftoverEquals(d: string, t: string)
    requires StripWhitespace(d) == d && |d| % 4 == 0 && StripPadding(d) == t
    requires |t| > 0 && t[|t| - 1] == '='
    ensures Atob(d).Failure?
  {
    var d1 := if |d| % 4 == 0 then StripPadding(d) else d;
    assert d1 == t;
    if |t| % 4 != 1 {
      assert !SextetValue(t[|t| - 1]).Some?;
      assert !AllSextets(t);
    }
  }

  /** A key of length 4k+1 cannot be decoded: the conversion throws. */
  lemma BadLengthFails(base64String: string)
    requires |base64String| % 4 == 1
    requires forall c :: c in base64String ==> SextetValue(c).Some? || c == '-' || c == '_'
    ensures Atob(Normalize(base64String)).Failure?
  {
    var s := ToStandardAlphabet(base64String);
    NormalizeBadLength(base64String);
    SwappedKeySextets(base64String);
    NoWhitespace(s, "===");
    assert s + "===" == (s + "=") + "==";
    StripTwo(s + "=");
    AtobLeftoverEquals(s + "===", s + "=");
  }
}
