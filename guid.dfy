/**
 * Places GUIDs as utils/guid.py makes and checks them: 9 random bytes in the
 * URL- and filename-safe base64 alphabet of section 5 of RFC 4648, padding
 * stripped, which gives 12 characters.  The random bytes are a parameter.
 */
module Guid {
  import opened Results

  const GUID_LENGTH := 12

  /** `required_bytes`: the number of bytes whose base64 text has `GUID_LENGTH` characters. */
  const REQUIRED_BYTES := (GUID_LENGTH * 3) / 4

  /** What `secrets.token_bytes(required_bytes)` returns. */
  type RandomBytes = b: seq<byte> | |b| == REQUIRED_BYTES witness [0, 0, 0, 0, 0, 0, 0, 0, 0]

  /** The message of the `ValueError` that `generate_guid` raises (its two numbers are not formatted here). */
  const LENGTH_ERROR := "Generated GUID length is not the expected length"

  /** The characters `is_valid_guid` accepts: `[a-zA-Z0-9-_]`, compared by code point. */
  predicate IsGuidChar(c: char)
  {
    ('a' <= c <= 'z') || ('A' <= c <= 'Z') || ('0' <= c <= '9') || c == '-' || c == '_'
  }

  /** The loop of `is_valid_guid`: it returns false at the first character outside the alphabet. */
  function AllGuidChars(s: string): (b: bool)
    ensures b <==> forall i :: 0 <= i < |s| ==> IsGuidChar(s[i])
  {
    if |s| == 0 then true
    else if IsGuidChar(s[0]) then
      var rest := AllGuidChars(s[1..]);
      assert forall i :: 1 <= i < |s| ==> s[i] == s[1..][i - 1];
      rest
    else false
  }

  /** `is_valid_guid`: exactly `GUID_LENGTH` characters, all from the alphabet. */
  function IsValidGuid(guid: string): (b: bool)
    ensures b <==> |guid| == GUID_LENGTH && forall i :: 0 <= i < |guid| ==> IsGuidChar(guid[i])
  {
    if |guid| != GUID_LENGTH then false else AllGuidChars(guid)
  }

  /** The base64url digit of a 6-bit value (section 5 of RFC 4648, table 2). */
  function Digit(v: nat): (c: char)
    requires v < 64
    ensures IsGuidChar(c) && c != '='
  {
    if v < 26 then ('A' as int + v) as char
    else if v < 52 then ('a' as int + (v - 26)) as char
    else if v < 62 then ('0' as int + (v - 52)) as char
    else if v == 62 then '-'
    else '_'
  }

  /** The 6-bit value of a base64url digit, the inverse of `Digit`; 0 for any other character. */
  function DigitValue(c: char): (v: nat)
    ensures v < 64
    ensures IsGuidChar(c) ==> Digit(v) == c
  {
    if 'A' <= c <= 'Z' then c as int - 'A' as int
    else if 'a' <= c <= 'z' then c as int - 'a' as int + 26
    else if '0' <= c <= '9' then c as int - '0' as int + 52
    else if c == '-' then 62
    else if c == '_' then 63
    else 0
  }

  /** `Digit` is one-to-one, so `DigitValue` undoes it. */
  lemma DigitValueOfDigit(v: nat)
    requires v < 64
    ensures DigitValue(Digit(v)) == v
  {
  }

  /** The alphabet of `is_valid_guid` is exactly the set of base64url digits. */
  lemma GuidCharIsDigit(c: char)
    ensures IsGuidChar(c) <==> exists v :: 0 <= v < 64 && Digit(v) == c
  {
    if IsGuidChar(c) {
      assert Digit(DigitValue(c)) == c;
    }
  }

  /** Three bytes as four digits. */
  function EncodeGroup(b0: byte, b1: byte, b2: byte): (r: string)
    ensures |r| == 4
  {
    [Digit(b0 / 4), Digit((b0 % 4) * 16 + b1 / 16), Digit((b1 % 16) * 4 + b2 / 64), Digit(b2 % 64)]
  }

  /** `base64.urlsafe_b64encode`: groups of three bytes, and a final short group padded with '='. */
  function Encode(bs: seq<byte>): (r: string)
    ensures |r| % 4 == 0
    ensures |bs| > 0 <==> |r| > 0
    decreases |bs|
  {
    if |bs| == 0 then ""
    else if |bs| == 1 then [Digit(bs[0] / 4), Digit((bs[0] % 4) * 16), '=', '=']
    else if |bs| == 2 then [Digit(bs[0] / 4), Digit((bs[0] % 4) * 16 + bs[1] / 16), Digit((bs[1] % 16) * 4), '=']
    else EncodeGroup(bs[0], bs[1], bs[2]) + Encode(bs[3..])
  }

  /** Whole groups encode without padding, in the GUID alphabet, four digits for three bytes. */
  lemma {:induction false} EncodeWholeGroups(bs: seq<byte>)
    requires |bs| % 3 == 0
    ensures 3 * |Encode(bs)| == 4 * |bs|
    ensures forall i :: 0 <= i < |Encode(bs)| ==> IsGuidChar(Encode(bs)[i]) && Encode(bs)[i] != '='
    decreases |bs|
  {
    if |bs| > 0 {
      EncodeWholeGroups(bs[3..]);
      var g := EncodeGroup(bs[0], bs[1], bs[2]);
      var rest := Encode(bs[3..]);
      assert Encode(bs) == g + rest;
      forall i | 0 <= i < |Encode(bs)|
        ensures IsGuidChar(Encode(bs)[i]) && Encode(bs)[i] != '='
      {
        if i >= 4 {
          assert Encode(bs)[i] == rest[i - 4];
        }
      }
    }
  }

  /** Four digits as three bytes: the inverse of `EncodeGroup`. */
  function DecodeGroup(s: string): (r: seq<byte>)
    requires |s| == 4
    ensures |r| == 3
  {
    var v0, v1, v2, v3 := DigitValue(s[0]), DigitValue(s[1]), DigitValue(s[2]), DigitValue(s[3]);
    [v0 * 4 + v1 / 16, (v1 % 16) * 16 + v2 / 4, (v2 % 4) * 64 + v3]
  }

  /** Base64url text without padding back to bytes, four digits at a time. */
  function Decode(s: string): (r: seq<byte>)
    requires |s| % 4 == 0
    ensures 4 * |r| == 3 * |s|
    decreases |s|
  {
    if |s| == 0 then []
    else DecodeGroup(s[..4]) + Decode(s[4..])
  }


  /** The digits of a group give back its three bytes. */
  lemma DecodeEncodeGroup(b0: byte, b1: byte, b2: byte)
    ensures DecodeGroup(EncodeGroup(b0, b1, b2)) == [b0, b1, b2]
  {
    var v0, v1, v2, v3 := b0 / 4, (b0 % 4) * 16 + b1 / 16, (b1 % 16) * 4 + b2 / 64, b2 % 64;
    DigitValueOfDigit(v0);
    DigitValueOfDigit(v1);
    DigitValueOfDigit(v2);
    DigitValueOfDigit(v3);
    assert v1 / 16 == b0 % 4 && v1 % 16 == b1 / 16;
    assert v2 / 4 == b1 % 16 && v2 % 4 == b2 / 64;
    assert v0 * 4 + v1 / 16 == b0;
    assert (v1 % 16) * 16 + v2 / 4 == b1;
    assert (v2 % 4) * 64 + v3 == b2;
  }

  /** The encoding of three or more bytes: the first group's four digits, then the rest's encoding. */
  lemma EncodeCons(bs: seq<byte>)
    requires |bs| >= 3
    ensures |Encode(bs)| >= 4
    ensures Encode(bs)[..4] == EncodeGroup(bs[0], bs[1], bs[2])
    ensures Encode(bs)[4..] == Encode(bs[3..])
  {
    assert Encode(bs) == EncodeGroup(bs[0], bs[1], bs[2]) + Encode(bs[3..]);
  }

  /** The first four digits of an encoding decode to the first three bytes; the rest is the encoding of the rest. */
  lemma FirstGroupDecodes(bs: seq<byte>)
    requires |bs| >= 3
    ensures |Encode(bs)| >= 4
    ensures DecodeGroup(Encode(bs)[..4]) == [bs[0], bs[1], bs[2]]
    ensures Encode(bs)[4..] == Encode(bs[3..])
  {
    EncodeCons(bs);
    DecodeEncodeGroup(bs[0], bs[1], bs[2]);
  }

  /** Decoding undoes encoding on whole groups: the encoding loses nothing. */
  lemma {:induction false} DecodeEncode(bs: seq<byte>)
    requires |bs| % 3 == 0
    ensures Decode(Encode(bs)) == bs
    decreases |bs|
  {
    if |bs| > 0 {
      DecodeEncode(bs[3..]);
      DecodeEncodeStep(bs);
    }
  }

  /** One more group: if the rest decodes back, so does the whole. */
  lemma DecodeEncodeStep(bs: seq<byte>)
    requires |bs| >= 3 && Decode(Encode(bs[3..])) == bs[3..]
    ensures Decode(Encode(bs)) == bs
  {
    FirstGroupDecodes(bs);
    DecodeFirstGroup(Encode(bs), bs);
  }

  /** The step of `DecodeEncode`: the first group and the rest decode to the two parts of `bs`. */
  lemma DecodeFirstGroup(e: string, bs: seq<byte>)
    requires |e| >= 4 && |e| % 4 == 0 && |bs| >= 3
    requires DecodeGroup(e[..4]) == [bs[0], bs[1], bs[2]] && Decode(e[4..]) == bs[3..]
    ensures Decode(e) == bs
  {
    assert bs == [bs[0], bs[1], bs[2]] + bs[3..];
  }

  /** `rstrip('=')`: drop every trailing '='. */
  function StripPadding(s: string): (r: string)
    ensures |r| <= |s| && r == s[..|r|]
    ensures |r| == 0 || r[|r| - 1] != '='
    ensures forall i :: |r| <= i < |s| ==> s[i] == '='
  {
    if |s| == 0 || s[|s| - 1] != '=' then s
    else StripPadding(s[..|s| - 1])
  }

  /** `rstrip` leaves text that does not end in '=' as it is. */
  lemma StripNothing(s: string)
    requires '=' !in s
    ensures StripPadding(s) == s
  {
  }

  /**
   * `generate_guid`, given the `REQUIRED_BYTES` bytes that `secrets.token_bytes`
   * returns: encode, strip the padding, and raise when the length is not
   * `GUID_LENGTH` (which cannot happen: the result is always `Ok`).
   */
  function GenerateGuid(randomBytes: seq<byte>): (r: Result<string>)
    requires |randomBytes| == REQUIRED_BYTES
    ensures r.Ok? && IsValidGuid(r.value)
    ensures r.value == Encode(randomBytes)
  {
    var encoded := Encode(randomBytes);
    EncodeWholeGroups(randomBytes);
    StripNothing(encoded);
    var guid := StripPadding(encoded);
    if |guid| != GUID_LENGTH then Err(LENGTH_ERROR) else Ok(guid)
  }

  /** Different random bytes give different GUIDs: `generate_guid` is one-to-one. */
  lemma GenerateGuidInjective(a: seq<byte>, b: seq<byte>)
    requires |a| == REQUIRED_BYTES && |b| == REQUIRED_BYTES
    requires GenerateGuid(a) == GenerateGuid(b)
    ensures a == b
  {
    DecodeEncode(a);
    DecodeEncode(b);
  }
}
