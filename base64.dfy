/** Standard base64 (section 4 of RFC 4648), the encoding PHP's `base64_encode`
    produces, and a decoder that inverts it. */
module Base64 {
  import opened Wrappers
  import opened Php

  type sextet = x: int | 0 <= x < 64

  /** A character of the 64-symbol alphabet (Table 1 of RFC 4648). */
  predicate IsAlphabetChar(c: char)
  {
    'A' <= c <= 'Z' || 'a' <= c <= 'z' || '0' <= c <= '9' || c == '+' || c == '/'
  }

  /** The character Table 1 assigns to a 6-bit value. */
  function SextetChar(x: sextet): (c: char)
    ensures IsAlphabetChar(c)
  {
    if x < 26 then ('A' as int + x) as char
    else if x < 52 then ('a' as int + (x - 26)) as char
    else if x < 62 then ('0' as int + (x - 52)) as char
    else if x == 62 then '+'
    else '/'
  }

  /** The 6-bit value of an alphabet character; None for any other character. */
  function CharSextet(c: char): (r: Option<sextet>)
    ensures r.Some? <==> IsAlphabetChar(c)
  {
    if 'A' <= c <= 'Z' then Some(c as int - 'A' as int)
    else if 'a' <= c <= 'z' then Some(c as int - 'a' as int + 26)
    else if '0' <= c <= '9' then Some(c as int - '0' as int + 52)
    else if c == '+' then Some(62)
    else if c == '/' then Some(63)
    else None
  }

  lemma SextetCharInverse(x: sextet)
    ensures CharSextet(SextetChar(x)) == Some(x)
  {
  }

  /** Four characters for a full 24-bit input group. */
  function EncodeQuantum(b0: byte, b1: byte, b2: byte): string
  {
    [SextetChar(b0 / 4), SextetChar(b0 % 4 * 16 + b1 / 16),
     SextetChar(b1 % 16 * 4 + b2 / 64), SextetChar(b2 % 64)]
  }

  /** The final, partial quantum: two characters and "==" for 8 bits, three
      characters and "=" for 16 bits, nothing for none. */
  function EncodeFinal(b: seq<byte>): string
    requires |b| < 3
  {
    if |b| == 0 then ""
    else if |b| == 1 then [SextetChar(b[0] / 4), SextetChar(b[0] % 4 * 16), '=', '=']
    else [SextetChar(b[0] / 4), SextetChar(b[0] % 4 * 16 + b[1] / 16), SextetChar(b[1] % 16 * 4), '=']
  }

  /** base64 of an octet string, padded to a multiple of four characters. */
  function Encode(b: seq<byte>): (s: string)
    ensures |s| == 4 * ((|b| + 2) / 3)
    decreases |b|
  {
    if |b| < 3 then EncodeFinal(b)
    else EncodeQuantum(b[0], b[1], b[2]) + Encode(b[3..])
  }

  /** The first ceil(4n/3) characters of an encoding are alphabet characters
      and the rest are padding. */
  lemma {:induction false} EncodeLayout(b: seq<byte>)
    ensures var s, k := Encode(b), (4 * |b| + 2) / 3;
      && k <= |s|
      && (forall i | 0 <= i < k :: IsAlphabetChar(s[i]))
      && (forall i | k <= i < |s| :: s[i] == '=')
    decreases |b|
  {
    if |b| >= 3 {
      EncodeLayout(b[3..]);
      var s, t := Encode(b), Encode(b[3..]);
      var q := EncodeQuantum(b[0], b[1], b[2]);
      assert s == q + t;
      forall i | 0 <= i < (4 * |b| + 2) / 3
        ensures IsAlphabetChar(s[i])
      {
        if i >= 4 { assert s[i] == t[i - 4]; }
      }
      forall i | (4 * |b| + 2) / 3 <= i < |s|
        ensures s[i] == '='
      {
        assert s[i] == t[i - 4];
      }
    }
  }

  /** The octets a group of sextets carries: 6+2, 4+4 and 2+6 bits. */
  function HighOctet(c0: sextet, c1: sextet): byte { c0 * 4 + c1 / 16 }

  function MiddleOctet(c1: sextet, c2: sextet): byte { c1 % 16 * 16 + c2 / 4 }

  function LowOctet(c2: sextet, c3: sextet): byte { c2 % 4 * 64 + c3 }

  lemma SplitJoin16(q: int, r: int)
    requires 0 <= r < 16
    ensures (q * 16 + r) / 16 == q && (q * 16 + r) % 16 == r
  {
  }

  lemma SplitJoin4(q: int, r: int)
    requires 0 <= r < 4
    ensures (q * 4 + r) / 4 == q && (q * 4 + r) % 4 == r
  {
  }

  lemma HighOctetInverse(b0: byte, b1: byte)
    ensures HighOctet(b0 / 4, b0 % 4 * 16 + b1 / 16) == b0
  {
    SplitJoin16(b0 % 4, b1 / 16);
  }

  lemma MiddleOctetInverse(b0: byte, b1: byte, b2: byte)
    ensures MiddleOctet(b0 % 4 * 16 + b1 / 16, b1 % 16 * 4 + b2 / 64) == b1
  {
    SplitJoin16(b0 % 4, b1 / 16);
    SplitJoin4(b1 % 16, b2 / 64);
  }

  lemma LowOctetInverse(b1: byte, b2: byte)
    ensures LowOctet(b1 % 16 * 4 + b2 / 64, b2 % 64) == b2
  {
    SplitJoin4(b1 % 16, b2 / 64);
  }

  /** Three octets from four sextets. */
  function DecodeQuantum(s: string): Option<seq<byte>>
    requires |s| == 4
  {
    match (CharSextet(s[0]), CharSextet(s[1]), CharSextet(s[2]), CharSextet(s[3]))
    case (Some(c0), Some(c1), Some(c2), Some(c3)) =>
      Some([HighOctet(c0, c1), MiddleOctet(c1, c2), LowOctet(c2, c3)])
    case _ => None
  }

  /** The last group, which may end in one or two padding characters. */
  function DecodeFinal(s: string): Option<seq<byte>>
    requires |s| == 4
  {
    if s[2] == '=' && s[3] == '=' then
      match (CharSextet(s[0]), CharSextet(s[1]))
      case (Some(c0), Some(c1)) => Some([HighOctet(c0, c1)])
      case _ => None
    else if s[3] == '=' then
      match (CharSextet(s[0]), CharSextet(s[1]), CharSextet(s[2]))
      case (Some(c0), Some(c1), Some(c2)) => Some([HighOctet(c0, c1), MiddleOctet(c1, c2)])
      case _ => None
    else DecodeQuantum(s)
  }

  /** base64 decoding: None for a length that is not a multiple of four, a
      character outside the alphabet, or padding anywhere but at the end. */
  function Decode(s: string): Option<seq<byte>>
    decreases |s|
  {
    if |s| == 0 then Some([])
    else if |s| < 4 then None
    else if |s| == 4 then DecodeFinal(s)
    else
      match DecodeQuantum(s[..4])
      case None => None
      case Some(q) =>
        match Decode(s[4..])
        case None => None
        case Some(rest) => Some(q + rest)
  }

  lemma QuantumRoundTrip(b0: byte, b1: byte, b2: byte)
    ensures DecodeQuantum(EncodeQuantum(b0, b1, b2)) == Some([b0, b1, b2])
  {
    SextetCharInverse(b0 / 4);
    SextetCharInverse(b0 % 4 * 16 + b1 / 16);
    SextetCharInverse(b1 % 16 * 4 + b2 / 64);
    SextetCharInverse(b2 % 64);
    HighOctetInverse(b0, b1);
    MiddleOctetInverse(b0, b1, b2);
    LowOctetInverse(b1, b2);
  }

  lemma FinalRoundTrip(b: seq<byte>)
    requires |b| < 3
    ensures Decode(EncodeFinal(b)) == Some(b)
  {
    if |b| == 1 {
      SextetCharInverse(b[0] / 4);
      SextetCharInverse(b[0] % 4 * 16);
      HighOctetInverse(b[0], 0);
      var s := EncodeFinal(b);
      assert DecodeFinal(s) == Some([b[0]]);
      assert Decode(s) == DecodeFinal(s);
      assert b == [b[0]];
    } else if |b| == 2 {
      SextetCharInverse(b[0] / 4);
      SextetCharInverse(b[0] % 4 * 16 + b[1] / 16);
      SextetCharInverse(b[1] % 16 * 4);
      HighOctetInverse(b[0], b[1]);
      MiddleOctetInverse(b[0], b[1], 0);
      var s := EncodeFinal(b);
      assert s[2] != '=' && s[3] == '=';
      assert DecodeFinal(s) == Some([b[0], b[1]]);
      assert Decode(s) == DecodeFinal(s);
      assert b == [b[0], b[1]];
    }
  }

  /** A full leading group decodes on its own, ahead of the rest. */
  lemma DecodeConcat(q: string, t: string, x: seq<byte>, y: seq<byte>)
    requires |q| == 4 && |t| >= 4
    requires DecodeQuantum(q) == Some(x) && Decode(t) == Some(y)
    ensures Decode(q + t) == Some(x + y)
  {
    var s := q + t;
    assert s[..4] == q && s[4..] == t;
  }

  /** A single full group is the last group and decodes as a quantum. */
  lemma DecodeSingleQuantum(q: string)
    requires |q| == 4 && q[2] != '=' && q[3] != '='
    ensures Decode(q) == DecodeQuantum(q)
  {
  }

  lemma DecodeEncodeThree(b: seq<byte>)
    requires |b| == 3
    ensures Decode(Encode(b)) == Some(b)
  {
    var q := EncodeQuantum(b[0], b[1], b[2]);
    assert Encode(b) == q + Encode(b[3..]);
    assert Encode(b[3..]) == "";
    assert Encode(b) == q;
    QuantumRoundTrip(b[0], b[1], b[2]);
    DecodeSingleQuantum(q);
    assert b == [b[0], b[1], b[2]];
  }

  /** A full group of b ahead of a decodable rest decodes to b. */
  lemma SplitFirstThree(b: seq<byte>)
    requires |b| >= 3
    ensures [b[0], b[1], b[2]] + b[3..] == b
  {
    assert b == b[..3] + b[3..];
  }

  lemma DecodeQuantumAhead(b: seq<byte>, t: string)
    requires |b| > 3 && |t| >= 4
    requires Decode(t) == Some(b[3..])
    ensures Decode(EncodeQuantum(b[0], b[1], b[2]) + t) == Some(b)
  {
    QuantumRoundTrip(b[0], b[1], b[2]);
    DecodeConcat(EncodeQuantum(b[0], b[1], b[2]), t, [b[0], b[1], b[2]], b[3..]);
    SplitFirstThree(b);
  }

  /** Decoding undoes encoding. */
  lemma {:induction false} DecodeEncode(b: seq<byte>)
    ensures Decode(Encode(b)) == Some(b)
    decreases |b|
  {
    if |b| < 3 {
      FinalRoundTrip(b);
    } else if |b| == 3 {
      DecodeEncodeThree(b);
    } else {
      var t := Encode(b[3..]);
      DecodeEncode(b[3..]);
      assert Encode(b) == EncodeQuantum(b[0], b[1], b[2]) + t;
      DecodeQuantumAhead(b, t);
    }
  }

  /** The test vectors of section 10 of RFC 4648 that fit in one group, over
      the octets of "", "f", "fo" and "foo". */
  lemma EncodeTestVectors()
    ensures Encode([]) == ""
    ensures Encode([102]) == "Zg=="
    ensures Encode([102, 111]) == "Zm8="
    ensures Encode([102, 111, 111]) == "Zm9v"
  {
  }

  /** The two-group vectors of the same section, over "foob", "fooba" and
      "foobar": the group of "foo", then the encoding of the rest. */
  lemma EncodeTwoGroupTestVectors()
    ensures Encode([102, 111, 111, 98]) == "Zm9vYg=="
    ensures Encode([102, 111, 111, 98, 97]) == "Zm9vYmE="
    ensures Encode([102, 111, 111, 98, 97, 114]) == "Zm9vYmFy"
  {
    assert Encode([98]) == "Yg==";
    assert Encode([98, 97]) == "YmE=";
    assert Encode([98, 97, 114]) == "YmFy";
    assert EncodeQuantum(102, 111, 111) == "Zm9v";
  }
}
