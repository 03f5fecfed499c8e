/**
 * The base64 encoding of section 4 of RFC 4648: every 3 bytes become 4
 * characters of a 64-character alphabet, and a final group of 1 or 2 bytes
 * is completed with "=" padding to 4 characters.
 *
 * Decoding is strict: it accepts exactly the strings that encoding produces
 * (length a multiple of 4, alphabet characters only, padding only at the
 * end, and zero bits in the unused part of the last character). Every other
 * string is an error.
 */
module Base64 {
  import opened Wrappers

  type uint8 = x: int | 0 <= x < 256

  /** The value carried by one base64 character. */
  type Sextet = x: int | 0 <= x < 64

  const Pad: char := '='

  /** The 64 characters of Table 1 in section 4 of RFC 4648. */
  predicate IsAlphabetChar(c: char) {
    ('A' <= c <= 'Z') || ('a' <= c <= 'z') || ('0' <= c <= '9') || c == '+' || c == '/'
  }

  /** Value of an alphabet character: A-Z are 0-25, a-z 26-51, 0-9 52-61, '+' 62, '/' 63. */
  function CharSextet(c: char): (v: Sextet)
    requires IsAlphabetChar(c)
  {
    if 'A' <= c <= 'Z' then c as int - 'A' as int
    else if 'a' <= c <= 'z' then c as int - 'a' as int + 26
    else if '0' <= c <= '9' then c as int - '0' as int + 52
    else if c == '+' then 62
    else 63
  }

  /** Character for a value, the inverse of CharSextet. */
  function SextetChar(v: Sextet): (c: char)
    ensures IsAlphabetChar(c) && CharSextet(c) == v
  {
    if v < 26 then ('A' as int + v) as char
    else if v < 52 then ('a' as int + (v - 26)) as char
    else if v < 62 then ('0' as int + (v - 52)) as char
    else if v == 62 then '+'
    else '/'
  }

  /** Every alphabet character is the character of its own value. */
  lemma SextetCharOfCharSextet(c: char)
    requires IsAlphabetChar(c)
    ensures SextetChar(CharSextet(c)) == c
  {
  }

  // ---------------------------------------------------------------------------
  // Encoding
  // ---------------------------------------------------------------------------

  /** Three bytes, 24 bits, as four 6-bit characters, most significant first. */
  function EncodeTriple(b0: uint8, b1: uint8, b2: uint8): string {
    [SextetChar(b0 / 4), SextetChar(b0 % 4 * 16 + b1 / 16),
     SextetChar(b1 % 16 * 4 + b2 / 64), SextetChar(b2 % 64)]
  }

  /** `base64.b64encode(b)`. */
  function Encode(b: seq<uint8>): (s: string)
    ensures |s| == 4 * ((|b| + 2) / 3)
    ensures forall i | 0 <= i < |s| :: IsAlphabetChar(s[i]) || s[i] == Pad
    decreases |b|
  {
    if |b| == 0 then []
    else if |b| == 1 then [SextetChar(b[0] / 4), SextetChar(b[0] % 4 * 16), Pad, Pad]
    else if |b| == 2 then
      [SextetChar(b[0] / 4), SextetChar(b[0] % 4 * 16 + b[1] / 16), SextetChar(b[1] % 16 * 4), Pad]
    else EncodeTriple(b[0], b[1], b[2]) + Encode(b[3..])
  }

  // ---------------------------------------------------------------------------
  // Decoding
  // ---------------------------------------------------------------------------

  /** Four alphabet characters as three bytes. */
  function DecodeFullQuad(q: string): (r: Option<seq<uint8>>)
    requires |q| == 4
  {
    if IsAlphabetChar(q[0]) && IsAlphabetChar(q[1]) && IsAlphabetChar(q[2]) && IsAlphabetChar(q[3]) then
      var v0, v1, v2, v3 := CharSextet(q[0]), CharSextet(q[1]), CharSextet(q[2]), CharSextet(q[3]);
      Some([v0 * 4 + v1 / 16, v1 % 16 * 16 + v2 / 4, v2 % 4 * 64 + v3])
    else None
  }

  /** The last group: "xx==" is one byte, "xxx=" two, "xxxx" three. */
  function DecodeLastQuad(q: string): (r: Option<seq<uint8>>)
    requires |q| == 4
  {
    if IsAlphabetChar(q[0]) && IsAlphabetChar(q[1]) && q[2] == Pad && q[3] == Pad then
      var v0, v1 := CharSextet(q[0]), CharSextet(q[1]);
      if v1 % 16 == 0 then Some([v0 * 4 + v1 / 16]) else None
    else if IsAlphabetChar(q[0]) && IsAlphabetChar(q[1]) && IsAlphabetChar(q[2]) && q[3] == Pad then
      var v0, v1, v2 := CharSextet(q[0]), CharSextet(q[1]), CharSextet(q[2]);
      if v2 % 4 == 0 then Some([v0 * 4 + v1 / 16, v1 % 16 * 16 + v2 / 4]) else None
    else DecodeFullQuad(q)
  }

  /** `base64.b64decode(s)` on canonical input; `None` where Python raises an error. */
  function Decode(s: string): (r: Option<seq<uint8>>)
    decreases |s|
  {
    if |s| == 0 then Some([])
    else if |s| < 4 then None
    else if |s| == 4 then DecodeLastQuad(s)
    else
      match DecodeFullQuad(s[..4])
      case None => None
      case Some(head) =>
        match Decode(s[4..])
        case None => None
        case Some(tail) => Some(head + tail)
  }

  // ---------------------------------------------------------------------------
  // Decode and Encode are inverse to each other
  // ---------------------------------------------------------------------------

  /** Splitting 24 bits into four sextets and joining them again gives back the three bytes. */
  lemma TripleJoinSplit(b0: uint8, b1: uint8, b2: uint8)
    ensures var v0, v1, v2, v3 := b0 / 4, b0 % 4 * 16 + b1 / 16, b1 % 16 * 4 + b2 / 64, b2 % 64;
      v0 * 4 + v1 / 16 == b0 && v1 % 16 * 16 + v2 / 4 == b1 && v2 % 4 * 64 + v3 == b2
  {

  }

  /** Joining four sextets into 24 bits and splitting them again gives back the four sextets. */
  lemma SextetsSplitJoin(v0: Sextet, v1: Sextet, v2: Sextet, v3: Sextet)
    ensures var b0, b1, b2 := v0 * 4 + v1 / 16, v1 % 16 * 16 + v2 / 4, v2 % 4 * 64 + v3;
      b0 / 4 == v0 && b0 % 4 * 16 + b1 / 16 == v1 && b1 % 16 * 4 + b2 / 64 == v2 && b2 % 64 == v3
  {

  }

  lemma DecodeEncodeTriple(b0: uint8, b1: uint8, b2: uint8)
    ensures DecodeFullQuad(EncodeTriple(b0, b1, b2)) == Some([b0, b1, b2])
  {
    TripleJoinSplit(b0, b1, b2);
  }

  lemma DecodeOneByteQuad(v0: Sextet, v1: Sextet)
    requires v1 % 16 == 0
    ensures DecodeLastQuad([SextetChar(v0), SextetChar(v1), Pad, Pad]) == Some([v0 * 4 + v1 / 16])
  {
  }

  lemma DecodeTwoByteQuad(v0: Sextet, v1: Sextet, v2: Sextet)
    requires v2 % 4 == 0
    ensures DecodeLastQuad([SextetChar(v0), SextetChar(v1), SextetChar(v2), Pad])
         == Some([v0 * 4 + v1 / 16, v1 % 16 * 16 + v2 / 4])
  {
    var q := [SextetChar(v0), SextetChar(v1), SextetChar(v2), Pad];
    assert IsAlphabetChar(q[2]) && q[2] != Pad;
  }

  lemma DecodeEncodeOne(b0: uint8)
    ensures Decode(Encode([b0])) == Some([b0])
  {
    var v0, v1 := b0 / 4, b0 % 4 * 16;
    var q := Encode([b0]);
    assert q == [SextetChar(v0), SextetChar(v1), Pad, Pad];
    assert Decode(q) == DecodeLastQuad(q);
    DecodeOneByteQuad(v0, v1);
    TripleJoinSplit(b0, 0, 0);
    assert v0 * 4 + v1 / 16 == b0;
  }

  lemma DecodeEncodeTwo(b0: uint8, b1: uint8)
    ensures Decode(Encode([b0, b1])) == Some([b0, b1])
  {
    var v0, v1, v2 := b0 / 4, b0 % 4 * 16 + b1 / 16, b1 % 16 * 4;
    var q := Encode([b0, b1]);
    assert q == [SextetChar(v0), SextetChar(v1), SextetChar(v2), Pad];
    assert Decode(q) == DecodeLastQuad(q);
    DecodeTwoByteQuad(v0, v1, v2);
    TripleJoinSplit(b0, b1, 0);
    assert v0 * 4 + v1 / 16 == b0 && v1 % 16 * 16 + v2 / 4 == b1;
  }

  /** A last group with no padding is decoded as a full group. */
  lemma DecodeUnpaddedLastQuad(q: string)
    requires |q| == 4 && q[2] != Pad && q[3] != Pad
    ensures DecodeLastQuad(q) == DecodeFullQuad(q)
  {
  }

  /** A full group followed by more groups decodes to its three bytes followed by theirs. */
  lemma DecodeFullQuadThen(head: string, rest: string, x: seq<uint8>, y: seq<uint8>)
    requires |head| == 4 && |rest| > 0
    requires DecodeFullQuad(head) == Some(x) && Decode(rest) == Some(y)
    ensures Decode(head + rest) == Some(x + y)
  {
    var s := head + rest;
    assert s[..4] == head && s[4..] == rest;
  }

  /** Decoding undoes encoding. */
  lemma {:induction false} DecodeEncode(b: seq<uint8>)
    ensures Decode(Encode(b)) == Some(b)
    decreases |b|
  {
    if |b| == 1 {
      DecodeEncodeOne(b[0]);
      assert b == [b[0]];
    } else if |b| == 2 {
      DecodeEncodeTwo(b[0], b[1]);
      assert b == [b[0], b[1]];
    } else if |b| >= 3 {
      var head := EncodeTriple(b[0], b[1], b[2]);
      var rest := Encode(b[3..]);
      assert Encode(b) == head + rest;
      DecodeEncodeTriple(b[0], b[1], b[2]);
      if |b| == 3 {
        assert rest == [] && Encode(b) == head;
        DecodeUnpaddedLastQuad(head);
        assert b == [b[0], b[1], b[2]];
      } else {
        DecodeEncode(b[3..]);
        assert b[..3] == [b[0], b[1], b[2]];
        DecodeFullQuadThen(head, rest, b[..3], b[3..]);
        assert b[..3] + b[3..] == b;
      }
    }
  }

  /** Four sextets joined into three bytes encode as the characters of those sextets. */
  lemma EncodeJoinedSextets(v0: Sextet, v1: Sextet, v2: Sextet, v3: Sextet)
    ensures EncodeTriple(v0 * 4 + v1 / 16, v1 % 16 * 16 + v2 / 4, v2 % 4 * 64 + v3)
         == [SextetChar(v0), SextetChar(v1), SextetChar(v2), SextetChar(v3)]
  {
    SextetsSplitJoin(v0, v1, v2, v3);
  }

  /** Two sextets joined into one byte encode as their characters and two pads. */
  lemma EncodeJoinedOne(v0: Sextet, v1: Sextet)
    requires v1 % 16 == 0
    ensures Encode([v0 * 4 + v1 / 16]) == [SextetChar(v0), SextetChar(v1), Pad, Pad]
  {
    SextetsSplitJoin(v0, v1, 0, 0);
  }

  /** Three sextets joined into two bytes encode as their characters and one pad. */
  lemma EncodeJoinedTwo(v0: Sextet, v1: Sextet, v2: Sextet)
    requires v2 % 4 == 0
    ensures Encode([v0 * 4 + v1 / 16, v1 % 16 * 16 + v2 / 4]) == [SextetChar(v0), SextetChar(v1), SextetChar(v2), Pad]
  {
    var b0: uint8, b1: uint8 := v0 * 4 + v1 / 16, v1 % 16 * 16 + v2 / 4;
    SextetsSplitJoin(v0, v1, v2, 0);
    assert b0 / 4 == v0 && b0 % 4 * 16 + b1 / 16 == v1 && b1 % 16 * 4 == v2;
    var b := [b0, b1];
    assert Encode(b) == [SextetChar(b0 / 4), SextetChar(b0 % 4 * 16 + b1 / 16), SextetChar(b1 % 16 * 4), Pad];
  }

  lemma EncodeDecodeFullQuad(q: string, b: seq<uint8>)
    requires |q| == 4 && DecodeFullQuad(q) == Some(b)
    ensures |b| == 3 && EncodeTriple(b[0], b[1], b[2]) == q
  {
    var v0: int, v1: int, v2: int, v3: int := CharSextet(q[0]), CharSextet(q[1]), CharSextet(q[2]), CharSextet(q[3]);
    assert b == [v0 * 4 + v1 / 16, v1 % 16 * 16 + v2 / 4, v2 % 4 * 64 + v3];
    EncodeJoinedSextets(v0, v1, v2, v3);
    SextetCharOfCharSextet(q[0]);
    SextetCharOfCharSextet(q[1]);
    SextetCharOfCharSextet(q[2]);
    SextetCharOfCharSextet(q[3]);
    assert q == [q[0], q[1], q[2], q[3]];
  }

  lemma EncodeOneByteQuad(q: string, b: seq<uint8>)
    requires |q| == 4 && IsAlphabetChar(q[0]) && IsAlphabetChar(q[1]) && q[2] == Pad && q[3] == Pad
    requires DecodeLastQuad(q) == Some(b)
    ensures Encode(b) == q
  {
    var v0: int, v1: int := CharSextet(q[0]), CharSextet(q[1]);
    assert b == [v0 * 4 + v1 / 16] && v1 % 16 == 0;
    EncodeJoinedOne(v0, v1);
    SextetCharOfCharSextet(q[0]);
    SextetCharOfCharSextet(q[1]);
    assert q == [q[0], q[1], Pad, Pad];
  }

  lemma EncodeTwoByteQuad(q: string, b: seq<uint8>)
    requires |q| == 4 && IsAlphabetChar(q[0]) && IsAlphabetChar(q[1]) && IsAlphabetChar(q[2]) && q[3] == Pad
    requires DecodeLastQuad(q) == Some(b)
    ensures Encode(b) == q
  {
    var v0: int, v1: int, v2: int := CharSextet(q[0]), CharSextet(q[1]), CharSextet(q[2]);
    assert q[2] != Pad;
    assert b == [v0 * 4 + v1 / 16, v1 % 16 * 16 + v2 / 4] && v2 % 4 == 0;
    EncodeJoinedTwo(v0, v1, v2);
    SextetCharOfCharSextet(q[0]);
    SextetCharOfCharSextet(q[1]);
    SextetCharOfCharSextet(q[2]);
    assert q == [q[0], q[1], q[2], Pad];
  }

  lemma EncodeDecodeLastQuad(q: string, b: seq<uint8>)
    requires |q| == 4 && DecodeLastQuad(q) == Some(b)
    ensures Encode(b) == q
  {
    if IsAlphabetChar(q[0]) && IsAlphabetChar(q[1]) && q[2] == Pad && q[3] == Pad {
      EncodeOneByteQuad(q, b);
    } else if IsAlphabetChar(q[0]) && IsAlphabetChar(q[1]) && IsAlphabetChar(q[2]) && q[3] == Pad {
      EncodeTwoByteQuad(q, b);
    } else {
      EncodeDecodeFullQuad(q, b);
      assert b[3..] == [];
    }
  }

  /** Encoding undoes decoding: only the encoding of some bytes decodes. */
  lemma {:induction false} EncodeDecode(s: string, b: seq<uint8>)
    requires Decode(s) == Some(b)
    ensures Encode(b) == s
    decreases |s|
  {
    if |s| == 4 {
      EncodeDecodeLastQuad(s, b);
    } else if |s| > 4 {
      var head := DecodeFullQuad(s[..4]).value;
      var tail := Decode(s[4..]).value;
      assert b == head + tail;
      EncodeDecodeFullQuad(s[..4], head);
      EncodeDecode(s[4..], tail);
      assert b[..3] == head && b[3..] == tail;
      assert s == s[..4] + s[4..];
    }
  }

  /** The decoding of `s` is `b` exactly when `s` is the encoding of `b`. */
  lemma DecodeIffEncode(s: string, b: seq<uint8>)
    ensures Decode(s) == Some(b) <==> s == Encode(b)
  {
    if Decode(s) == Some(b) {
      EncodeDecode(s, b);
    }
    if s == Encode(b) {
      DecodeEncode(b);
    }
  }

  /** An encoding holds no comma and no white space, so it can sit inside a data URL untouched. */
  lemma EncodeHasNoSeparator(b: seq<uint8>)
    ensures ',' !in Encode(b)
  {
  }
}
