/** An abstract stand-in for `JSON.stringify` and `JSON.parse` on the flat
    records this repository serialises (the stored user view and the token
    payload). Each field is written self-delimiting: an integer as its
    decimal rendering followed by `;`, a string as its length, `:` and its
    characters. A record is `{`, its fields in declaration order, `}`.
    What matters for the model is that parsing what was written gives the
    fields back, so the serialisation is injective. */
module Json {

  import opened Wrappers
  import opened Text

  /** An integer field. */
  function EncodeInt(i: int): (r: string)
    ensures |r| >= 2 && r[|r| - 1] == ';'
  {
    IntToString(i) + ";"
  }

  /** A string field. */
  function EncodeStr(s: string): (r: string)
    ensures |r| >= 2 + |s| && r[|r| - |s|..] == s
  {
    NatToString(|s|) + ":" + s
  }

  /** Splits off the longest prefix of decimal digits. */
  function SpanDigits(s: string): (r: (string, string))
    ensures r.0 + r.1 == s && AllDigits(r.0)
    ensures r.1 == [] || !IsDigit(r.1[0])
    decreases |s|
  {
    if |s| > 0 && IsDigit(s[0]) then
      var (d, rest) := SpanDigits(s[1..]);
      ([s[0]] + d, rest)
    else ([], s)
  }

  /** A non-empty digit run and what follows it. */
  function ParseNat(s: string): (r: Option<(nat, string)>)
    ensures r.Some? ==> |r.value.1| < |s|
  {
    var (d, rest) := SpanDigits(s);
    if d == [] then None else Some((DigitsValue(d), rest))
  }

  /** Reads an integer field. */
  function ParseInt(s: string): (r: Option<(int, string)>)
    ensures r.Some? ==> |r.value.1| < |s|
  {
    var negative := |s| > 0 && s[0] == '-';
    var digits := if negative then s[1..] else s;
    match ParseNat(digits)
    case None => None
    case Some((n, rest)) =>
      if |rest| > 0 && rest[0] == ';' then
        var v: int := if negative then -(n as int) else n;
        Some((v, rest[1..]))
      else None
  }

  /** Reads a string field. */
  function ParseStr(s: string): (r: Option<(string, string)>)
    ensures r.Some? ==> |r.value.1| < |s|
  {
    match ParseNat(s)
    case None => None
    case Some((n, rest)) =>
      if |rest| > n && rest[0] == ':' then Some((rest[1..n + 1], rest[n + 1..]))
      else None
  }

  /** A run of digits stops at the first character that is not one. */
  lemma {:induction false} SpanDigitsOf(d: string, rest: string)
    requires AllDigits(d)
    requires rest == [] || !IsDigit(rest[0])
    ensures SpanDigits(d + rest) == (d, rest)
  {
    if d == [] {
      assert d + rest == rest;
    } else {
      assert (d + rest)[1..] == d[1..] + rest;
      SpanDigitsOf(d[1..], rest);
      assert [d[0]] + d[1..] == d;
    }
  }

  lemma ParseNatOf(n: nat, rest: string)
    requires rest == [] || !IsDigit(rest[0])
    ensures ParseNat(NatToString(n) + rest) == Some((n, rest))
  {
    SpanDigitsOf(NatToString(n), rest);
    NatToStringValue(n);
  }

  /** Reading an integer field gives back the integer and the rest. */
  lemma ParseIntOf(i: int, rest: string)
    ensures ParseInt(EncodeInt(i) + rest) == Some((i, rest))
  {
    var n: nat := if i < 0 then -i else i;
    var digits := NatToString(n);
    var sign := if i < 0 then "-" else "";
    assert IntToString(i) == sign + digits;
    SignedShape(sign, digits, rest);
    ParseNatOf(n, ";" + rest);
    ParseIntAfterDigits(EncodeInt(i) + rest, i < 0, n, rest);
  }

  /** The parts of a written integer field followed by `rest`. */
  lemma SignedShape(sign: string, digits: string, rest: string)
    requires sign == "-" || sign == ""
    requires |digits| > 0 && AllDigits(digits)
    ensures var s := (sign + digits + ";") + rest;
            && |s| > 0 && (s[0] == '-' <==> sign == "-")
            && s[|sign|..] == digits + (";" + rest)
  {
    var s := (sign + digits + ";") + rest;
    assert s[|sign|..] == digits + (";" + rest);
    assert sign == "" ==> s[0] == digits[0];
  }

  lemma ParseIntAfterDigits(s: string, negative: bool, n: nat, rest: string)
    requires |s| > 0 && (s[0] == '-' <==> negative)
    requires ParseNat(if negative then s[1..] else s) == Some((n, ";" + rest))
    ensures ParseInt(s) == Some((if negative then -(n as int) else n as int, rest))
  {
    assert (";" + rest)[1..] == rest;
  }

  /** Reading a string field gives back the string and the rest. */
  lemma ParseStrOf(t: string, rest: string)
    ensures ParseStr(EncodeStr(t) + rest) == Some((t, rest))
  {
    var tail := ":" + t + rest;
    assert EncodeStr(t) + rest == NatToString(|t|) + tail;
    ParseNatOf(|t|, tail);
    assert tail[1..|t| + 1] == t;
    assert tail[|t| + 1..] == rest;
  }
}
