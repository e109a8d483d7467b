/** Base64 with the standard alphabet and `=` padding, section 4 of
    RFC 4648, as `buffer.toString('base64')` writes it. Decoding accepts
    the canonical encodings only: length a multiple of 4, padding only at
    the end, and zero bits in the positions padding leaves unused
    (section 3.5 of RFC 4648). */
module Base64 {

  import opened Wrappers
  import opened Bytes

  type sextet = x: int | 0 <= x < 64

  /** The alphabet of Table 1 in section 4 of RFC 4648. */
  function Alphabet(n: sextet): (c: char)
    ensures c != '='
  {
    if n < 26 then (('A' as int) + n) as char
    else if n < 52 then (('a' as int) + n - 26) as char
    else if n < 62 then (('0' as int) + n - 52) as char
    else if n == 62 then '+'
    else '/'
  }

  /** The value of an alphabet character; None for every other character,
      the pad `=` included. */
  function SextetOf(c: char): (r: Option<sextet>)
    ensures c == '=' ==> r.None?
  {
    if 'A' <= c <= 'Z' then Some((c as int) - ('A' as int))
    else if 'a' <= c <= 'z' then Some((c as int) - ('a' as int) + 26)
    else if '0' <= c <= '9' then Some((c as int) - ('0' as int) + 52)
    else if c == '+' then Some(62)
    else if c == '/' then Some(63)
    else None
  }

  lemma SextetOfAlphabet(n: sextet)
    ensures SextetOf(Alphabet(n)) == Some(n)
  {
  }

  lemma AlphabetOfSextet(c: char)
    requires SextetOf(c).Some?
    ensures Alphabet(SextetOf(c).value) == c
  {
  }

  /** Three bytes as four characters. */
  function EncodeGroup(b0: byte, b1: byte, b2: byte): (s: string)
    ensures |s| == 4
  {
    [Alphabet(b0 / 4), Alphabet((b0 % 4) * 16 + b1 / 16), Alphabet((b1 % 16) * 4 + b2 / 64), Alphabet(b2 % 64)]
  }

  /** The final quantum of one byte: two characters and two pads. */
  function EncodeOne(b0: byte): (s: string)
    ensures |s| == 4
  {
    [Alphabet(b0 / 4), Alphabet((b0 % 4) * 16), '=', '=']
  }

  /** The final quantum of two bytes: three characters and one pad. */
  function EncodeTwo(b0: byte, b1: byte): (s: string)
    ensures |s| == 4
  {
    [Alphabet(b0 / 4), Alphabet((b0 % 4) * 16 + b1 / 16), Alphabet((b1 % 16) * 4), '=']
  }

  function Encode(b: seq<byte>): (s: string)
    ensures |s| == 4 * ((|b| + 2) / 3)
    decreases |b|
  {
    if |b| == 0 then ""
    else if |b| == 1 then EncodeOne(b[0])
    else if |b| == 2 then EncodeTwo(b[0], b[1])
    else EncodeGroup(b[0], b[1], b[2]) + Encode(b[3..])
  }

  /** Decodes one four-character quantum; padding is accepted only when
      `last` says it is the final one. */
  function DecodeQuantum(q: string, last: bool): (r: Option<seq<byte>>)
    requires |q| == 4
    ensures r.Some? ==> 1 <= |r.value| <= 3 && (|r.value| < 3 ==> last)
  {
    if SextetOf(q[0]).None? || SextetOf(q[1]).None? then None
    else
      var v0: int, v1: int := SextetOf(q[0]).value, SextetOf(q[1]).value;
      if last && q[2] == '=' && q[3] == '=' then
        if v1 % 16 == 0 then Some([v0 * 4 + v1 / 16]) else None
      else if SextetOf(q[2]).None? then None
      else
        var v2: int := SextetOf(q[2]).value;
        if last && q[3] == '=' then
          if v2 % 4 == 0 then Some([v0 * 4 + v1 / 16, (v1 % 16) * 16 + v2 / 4]) else None
        else if SextetOf(q[3]).None? then None
        else Some([v0 * 4 + v1 / 16, (v1 % 16) * 16 + v2 / 4, (v2 % 4) * 64 + SextetOf(q[3]).value])
  }

  /** Decodes a whole string; None when it is not a canonical encoding. */
  function Decode(s: string): (r: Option<seq<byte>>)
    decreases |s|
  {
    if |s| == 0 then Some([])
    else if |s| < 4 then None
    else
      match DecodeQuantum(s[..4], |s| == 4)
      case None => None
      case Some(g) =>
        match Decode(s[4..])
        case None => None
        case Some(rest) => Some(g + rest)
  }

  lemma DecodeGroupOf(b0: byte, b1: byte, b2: byte, last: bool)
    ensures DecodeQuantum(EncodeGroup(b0, b1, b2), last) == Some([b0, b1, b2])
  {
    var s0, s1, s2, s3 := b0 / 4, (b0 % 4) * 16 + b1 / 16, (b1 % 16) * 4 + b2 / 64, b2 % 64;
    SextetOfAlphabet(s0);
    SextetOfAlphabet(s1);
    SextetOfAlphabet(s2);
    SextetOfAlphabet(s3);
    assert s0 * 4 + s1 / 16 == b0;
    assert (s1 % 16) * 16 + s2 / 4 == b1;
    assert (s2 % 4) * 64 + s3 == b2;
  }

  lemma DecodeOneOf(b0: byte)
    ensures DecodeQuantum(EncodeOne(b0), true) == Some([b0])
  {
    SextetOfAlphabet(b0 / 4);
    SextetOfAlphabet((b0 % 4) * 16);
  }

  lemma DecodeTwoOf(b0: byte, b1: byte)
    ensures DecodeQuantum(EncodeTwo(b0, b1), true) == Some([b0, b1])
  {
    var s0, s1, s2 := b0 / 4, (b0 % 4) * 16 + b1 / 16, (b1 % 16) * 4;
    SextetOfAlphabet(s0);
    SextetOfAlphabet(s1);
    SextetOfAlphabet(s2);
    assert s0 * 4 + s1 / 16 == b0;
    assert (s1 % 16) * 16 + s2 / 4 == b1;
  }

  /** Decoding reads the first quantum, then the rest. */
  lemma DecodeCons(s: string, g: seq<byte>, rest: seq<byte>)
    requires |s| >= 4
    requires DecodeQuantum(s[..4], |s| == 4) == Some(g)
    requires Decode(s[4..]) == Some(rest)
    ensures Decode(s) == Some(g + rest)
  {
  }

  /** A final quantum alone decodes as that quantum. */
  lemma DecodeSingle(s: string, g: seq<byte>)
    requires |s| == 4 && DecodeQuantum(s, true) == Some(g)
    ensures Decode(s) == Some(g)
  {
    assert s[..4] == s && s[4..] == [];
    DecodeCons(s, g, []);
    assert g + [] == g;
  }

  /** Decoding a quantum followed by a string that decodes. */
  lemma DecodeAppend(s: string, q: string, t: string, g: seq<byte>, rest: seq<byte>)
    requires |q| == 4 && s == q + t
    requires DecodeQuantum(q, |s| == 4) == Some(g) && Decode(t) == Some(rest)
    ensures Decode(s) == Some(g + rest)
  {
    assert s[..4] == q && s[4..] == t;
    DecodeCons(s, g, rest);
  }

  /** A full group in front of an encoding that decodes back. */
  lemma DecodeGroupCons(b: seq<byte>)
    requires |b| >= 3 && Decode(Encode(b[3..])) == Some(b[3..])
    ensures Decode(Encode(b)) == Some(b)
  {
    var q, t := EncodeGroup(b[0], b[1], b[2]), Encode(b[3..]);
    assert Encode(b) == q + t;
    DecodeGroupOf(b[0], b[1], b[2], |Encode(b)| == 4);
    DecodeAppend(Encode(b), q, t, [b[0], b[1], b[2]], b[3..]);
    SplitThree(b);
  }

  lemma SplitThree(b: seq<byte>)
    requires |b| >= 3
    ensures [b[0], b[1], b[2]] + b[3..] == b
  {
    assert ([b[0], b[1], b[2]] + b[3..])[..3] == b[..3];
  }

  /** Round trip: decoding the encoding of any byte sequence gives it back. */
  lemma {:induction false} DecodeEncode(b: seq<byte>)
    ensures Decode(Encode(b)) == Some(b)
    decreases |b|
  {
    if |b| == 1 {
      DecodeOneOf(b[0]);
      DecodeSingle(Encode(b), [b[0]]);
      assert [b[0]] == b;
    } else if |b| == 2 {
      DecodeTwoOf(b[0], b[1]);
      DecodeSingle(Encode(b), [b[0], b[1]]);
      assert [b[0], b[1]] == b;
    } else if |b| >= 3 {
      DecodeEncode(b[3..]);
      DecodeGroupCons(b);
    }
  }

  /** A decoded quantum is written back as the same four characters. */
  lemma EncodeQuantumOf(q: string, last: bool)
    requires |q| == 4 && DecodeQuantum(q, last).Some?
    ensures var g := DecodeQuantum(q, last).value;
            && (|g| == 1 ==> EncodeOne(g[0]) == q)
            && (|g| == 2 ==> EncodeTwo(g[0], g[1]) == q)
            && (|g| == 3 ==> EncodeGroup(g[0], g[1], g[2]) == q)
  {
    var g := DecodeQuantum(q, last).value;
    var v0, v1 := SextetOf(q[0]).value, SextetOf(q[1]).value;
    AlphabetOfSextet(q[0]);
    AlphabetOfSextet(q[1]);
    assert g[0] / 4 == v0 && g[0] % 4 == v1 / 16;
    if |g| == 1 {
      assert (g[0] % 4) * 16 == v1;
    } else {
      var v2 := SextetOf(q[2]).value;
      AlphabetOfSextet(q[2]);
      assert g[1] / 16 == v1 % 16 && g[1] % 16 == v2 / 4;
      assert (g[0] % 4) * 16 + g[1] / 16 == v1;
      if |g| == 2 {
        assert (g[1] % 16) * 4 == v2;
      } else {
        var v3 := SextetOf(q[3]).value;
        AlphabetOfSextet(q[3]);
        assert g[2] / 64 == v2 % 4 && g[2] % 64 == v3;
        assert (g[1] % 16) * 4 + g[2] / 64 == v2;
      }
    }
  }

  /** Canonicity: every string `Decode` accepts is the encoding of what it
      decodes to, so no two accepted strings decode to the same bytes. */
  lemma {:induction false} EncodeDecode(s: string)
    requires Decode(s).Some?
    ensures Encode(Decode(s).value) == s
    decreases |s|
  {
    if |s| > 0 {
      var q := s[..4];
      var g := DecodeQuantum(q, |s| == 4).value;
      var rest := Decode(s[4..]).value;
      EncodeQuantumOf(q, |s| == 4);
      EncodeDecode(s[4..]);
      var b := g + rest;
      assert Decode(s).value == b;
      if |s| == 4 {
        assert rest == [] && b == g && s == q;
      } else {
        assert |g| == 3 && b[..3] == g && b[3..] == rest;
        assert s == q + s[4..];
      }
    }
  }
}
