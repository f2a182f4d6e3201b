/** Base64 with the URL- and filename-safe alphabet and no padding
    (section 5 of RFC 4648), the `base64::URL_SAFE_NO_PAD` configuration that
    `generate_csrf_token` encodes with. */
module Base64Url {
  import opened Wrappers

  type byte = bv8

  /** The alphabet: A-Z, a-z, 0-9, '-' and '_'. */
  predicate IsUrlSafeChar(c: char) {
    ('A' <= c <= 'Z') || ('a' <= c <= 'z') || ('0' <= c <= '9') || c == '-' || c == '_'
  }

  function EncodeSextet(v: bv8): (c: char)
    requires v < 64
    ensures IsUrlSafeChar(c)
  {
    if v < 26 then ('A' as int + v as int) as char
    else if v < 52 then ('a' as int + v as int - 26) as char
    else if v < 62 then ('0' as int + v as int - 52) as char
    else if v == 62 then '-'
    else '_'
  }

  function DecodeSextet(c: char): (r: Option<bv8>)
    ensures r.Some? ==> r.value < 64
  {
    if 'A' <= c <= 'Z' then Some((c as int - 'A' as int) as bv8)
    else if 'a' <= c <= 'z' then Some((c as int - 'a' as int + 26) as bv8)
    else if '0' <= c <= '9' then Some((c as int - '0' as int + 52) as bv8)
    else if c == '-' then Some(62)
    else if c == '_' then Some(63)
    else None
  }

  lemma DecodeEncodeSextet(v: bv8)
    requires v < 64
    ensures DecodeSextet(EncodeSextet(v)) == Some(v)
  {
  }

  /** Number of characters for n bytes: four per full group of three, then
      two or three for a trailing one or two bytes. */
  function EncodedLength(n: nat): nat {
    (n / 3) * 4 + (if n % 3 == 0 then 0 else n % 3 + 1)
  }

  function EncodeGroup(b0: byte, b1: byte, b2: byte): (s: string)
    ensures |s| == 4
  {
    [EncodeSextet(b0 >> 2),
     EncodeSextet(((b0 & 3) << 4) | (b1 >> 4)),
     EncodeSextet(((b1 & 15) << 2) | (b2 >> 6)),
     EncodeSextet(b2 & 63)]
  }

  function Encode(bytes: seq<byte>): (s: string)
    ensures |s| == EncodedLength(|bytes|)
    ensures forall i :: 0 <= i < |s| ==> IsUrlSafeChar(s[i])
    decreases |bytes|
  {
    if |bytes| == 0 then ""
    else if |bytes| == 1 then
      [EncodeSextet(bytes[0] >> 2), EncodeSextet((bytes[0] & 3) << 4)]
    else if |bytes| == 2 then
      [EncodeSextet(bytes[0] >> 2),
       EncodeSextet(((bytes[0] & 3) << 4) | (bytes[1] >> 4)),
       EncodeSextet((bytes[1] & 15) << 2)]
    else
      EncodeGroup(bytes[0], bytes[1], bytes[2]) + Encode(bytes[3..])
  }

  /** The inverse: four characters give three bytes, a trailing pair one
      byte, a trailing triple two bytes; a lone trailing character or a
      character outside the alphabet is an error. */
  function Decode(s: string): (r: Option<seq<byte>>)
    decreases |s|
  {
    if |s| == 0 then Some([])
    else if |s| == 1 then None
    else
      var c0 :- DecodeSextet(s[0]);
      var c1 :- DecodeSextet(s[1]);
      if |s| == 2 then Some([(c0 << 2) | (c1 >> 4)])
      else
        var c2 :- DecodeSextet(s[2]);
        if |s| == 3 then Some([(c0 << 2) | (c1 >> 4), ((c1 & 15) << 4) | (c2 >> 2)])
        else
          var c3 :- DecodeSextet(s[3]);
          var rest :- Decode(s[4..]);
          Some([(c0 << 2) | (c1 >> 4), ((c1 & 15) << 4) | (c2 >> 2), ((c2 & 3) << 6) | c3] + rest)
  }

  lemma DecodeGroupBits(b0: byte, b1: byte, b2: byte)
    ensures var c0, c1, c2, c3 := b0 >> 2, ((b0 & 3) << 4) | (b1 >> 4), ((b1 & 15) << 2) | (b2 >> 6), b2 & 63;
      c0 < 64 && c1 < 64 && c2 < 64 && c3 < 64 &&
      (c0 << 2) | (c1 >> 4) == b0 && ((c1 & 15) << 4) | (c2 >> 2) == b1 && ((c2 & 3) << 6) | c3 == b2
  {
  }

  lemma DecodePair(s: string)
    requires |s| == 2 && DecodeSextet(s[0]).Some? && DecodeSextet(s[1]).Some?
    ensures Decode(s) == Some([(DecodeSextet(s[0]).value << 2) | (DecodeSextet(s[1]).value >> 4)])
  {
  }

  lemma DecodeTriple(s: string)
    requires |s| == 3 && DecodeSextet(s[0]).Some? && DecodeSextet(s[1]).Some? && DecodeSextet(s[2]).Some?
    ensures var c0, c1, c2 := DecodeSextet(s[0]).value, DecodeSextet(s[1]).value, DecodeSextet(s[2]).value;
      Decode(s) == Some([(c0 << 2) | (c1 >> 4), ((c1 & 15) << 4) | (c2 >> 2)])
  {
  }

  lemma DecodeEncodeOne(b0: byte)
    ensures Decode(Encode([b0])) == Some([b0])
  {
    var c0, c1 := b0 >> 2, (b0 & 3) << 4;
    assert Encode([b0]) == [EncodeSextet(c0), EncodeSextet(c1)];
    DecodeEncodeSextet(c0);
    DecodeEncodeSextet(c1);
    DecodePair([EncodeSextet(c0), EncodeSextet(c1)]);
    assert (c0 << 2) | (c1 >> 4) == b0;
  }

  lemma EncodeTwoShape(b0: byte, b1: byte)
    ensures Encode([b0, b1]) ==
      [EncodeSextet(b0 >> 2), EncodeSextet(((b0 & 3) << 4) | (b1 >> 4)), EncodeSextet((b1 & 15) << 2)]
  {
  }

  lemma TwoBits(b0: byte, b1: byte)
    ensures var c0, c1, c2 := b0 >> 2, ((b0 & 3) << 4) | (b1 >> 4), (b1 & 15) << 2;
      c0 < 64 && c1 < 64 && c2 < 64 &&
      (c0 << 2) | (c1 >> 4) == b0 && ((c1 & 15) << 4) | (c2 >> 2) == b1
  {
  }

  lemma DecodeEncodeTwo(b0: byte, b1: byte)
    ensures Decode(Encode([b0, b1])) == Some([b0, b1])
  {
    var c0, c1, c2 := b0 >> 2, ((b0 & 3) << 4) | (b1 >> 4), (b1 & 15) << 2;
    TwoBits(b0, b1);
    EncodeTwoShape(b0, b1);
    var s := [EncodeSextet(c0), EncodeSextet(c1), EncodeSextet(c2)];
    assert DecodeSextet(s[0]) == Some(c0) by { DecodeEncodeSextet(c0); }
    assert DecodeSextet(s[1]) == Some(c1) by { DecodeEncodeSextet(c1); }
    assert DecodeSextet(s[2]) == Some(c2) by { DecodeEncodeSextet(c2); }
    DecodeTriple(s);
  }

  lemma DecodeGroup(b0: byte, b1: byte, b2: byte, rest: string)
    ensures Decode(EncodeGroup(b0, b1, b2) + rest) ==
              match Decode(rest)
              case None => None
              case Some(r) => Some([b0, b1, b2] + r)
  {
    var s := EncodeGroup(b0, b1, b2) + rest;
    DecodeGroupBits(b0, b1, b2);
    var c0, c1, c2, c3 := b0 >> 2, ((b0 & 3) << 4) | (b1 >> 4), ((b1 & 15) << 2) | (b2 >> 6), b2 & 63;
    DecodeEncodeSextet(c0);
    DecodeEncodeSextet(c1);
    DecodeEncodeSextet(c2);
    DecodeEncodeSextet(c3);
    assert s[0] == EncodeSextet(c0) && s[1] == EncodeSextet(c1);
    assert s[2] == EncodeSextet(c2) && s[3] == EncodeSextet(c3);
    assert s[4..] == rest;
  }

  /** Decoding undoes encoding. In particular the encoding is injective: two
      different byte strings never give the same text. */
  lemma {:induction false} DecodeEncode(bytes: seq<byte>)
    ensures Decode(Encode(bytes)) == Some(bytes)
    decreases |bytes|
  {
    if |bytes| == 0 {
    } else if |bytes| == 1 {
      DecodeEncodeOne(bytes[0]);
      assert bytes == [bytes[0]];
    } else if |bytes| == 2 {
      DecodeEncodeTwo(bytes[0], bytes[1]);
      assert bytes == [bytes[0], bytes[1]];
    } else {
      DecodeEncode(bytes[3..]);
      DecodeGroup(bytes[0], bytes[1], bytes[2], Encode(bytes[3..]));
      assert bytes == [bytes[0], bytes[1], bytes[2]] + bytes[3..];
    }
  }

  lemma EncodeInjective(a: seq<byte>, b: seq<byte>)
    requires Encode(a) == Encode(b)
    ensures a == b
  {
    DecodeEncode(a);
    DecodeEncode(b);
  }
}
