/** `src/utils/token-utils.ts`: a session token is `Bearer_` followed by
    the Base64 of the UTF-8 of the serialised
    `{userId, email, timestamp, random}`. The clock (`Date.now()`) and the
    nonce (`Math.random().toString(36).substring(2, 15)`) are parameters. */
module TokenUtils {

  import opened Wrappers
  import opened Text
  import opened Json
  import Base64
  import Utf8

  const PREFIX := "Bearer_"

  /** 24 hours in milliseconds. */
  const EXPIRATION_MS := 24 * 60 * 60 * 1000

  /** The payload `generateToken` serialises. */
  datatype TokenData = TokenData(userId: int, email: string, timestamp: int, random: string)

  /** What `decodeToken` returns: the payload without its nonce. */
  datatype DecodedToken = DecodedToken(userId: int, email: string, timestamp: int)

  /** `JSON.stringify(tokenData)` */
  function StringifyData(d: TokenData): string {
    "{" + (EncodeInt(d.userId) + (EncodeStr(d.email) + (EncodeInt(d.timestamp) + (EncodeStr(d.random) + "}"))))
  }

  /** `JSON.parse(decoded)` read as a payload; None where it would throw. */
  function ParseData(text: string): Option<TokenData> {
    if |text| == 0 || text[0] != '{' then None
    else
      match ParseInt(text[1..])
      case None => None
      case Some((userId, r1)) =>
        match ParseStr(r1)
        case None => None
        case Some((email, r2)) =>
          match ParseInt(r2)
          case None => None
          case Some((timestamp, r3)) =>
            match ParseStr(r3)
            case None => None
            case Some((random, r4)) =>
              if r4 == "}" then Some(TokenData(userId, email, timestamp, random)) else None
  }

  lemma ParseDataFromFields(t: string, d: TokenData, r1: string, r2: string, r3: string)
    requires |t| > 0 && t[0] == '{'
    requires ParseInt(t[1..]) == Some((d.userId, r1))
    requires ParseStr(r1) == Some((d.email, r2))
    requires ParseInt(r2) == Some((d.timestamp, r3))
    requires ParseStr(r3) == Some((d.random, "}"))
    ensures ParseData(t) == Some(d)
  {
  }

  /** Round trip of the payload serialisation. */
  lemma ParseStringifyData(d: TokenData)
    ensures ParseData(StringifyData(d)) == Some(d)
  {
    var r3 := EncodeStr(d.random) + "}";
    var r2 := EncodeInt(d.timestamp) + r3;
    var r1 := EncodeStr(d.email) + r2;
    var t := StringifyData(d);
    DropHead('{', EncodeInt(d.userId) + r1);
    ParseIntOf(d.userId, r1);
    ParseStrOf(d.email, r2);
    ParseIntOf(d.timestamp, r3);
    ParseStrOf(d.random, "}");
    ParseDataFromFields(t, d, r1, r2, r3);
  }

  /** `generateToken(userId, email)` issued at time `now` with nonce `random`. */
  function GenerateToken(userId: int, email: string, now: int, random: string): (token: string)
    ensures StartsWith(token, PREFIX)
  {
    PREFIX + Base64.Encode(Utf8.Encode(StringifyData(TokenData(userId, email, now, random))))
  }

  /** The decoding steps after the prefix is removed: Base64, UTF-8, parse. */
  function DecodeBody(body: string): Option<DecodedToken> {
    match Base64.Decode(body)
    case None => None
    case Some(bytes) =>
      match Utf8.Decode(bytes)
      case None => None
      case Some(text) =>
        match ParseData(text)
        case None => None
        case Some(d) => Some(DecodedToken(d.userId, d.email, d.timestamp))
  }

  /** `decodeToken(token)`: removes the first `Bearer_`, wherever it is,
      and decodes the rest; None (never an exception) when that fails. */
  function DecodeToken(token: string): Option<DecodedToken> {
    DecodeBody(ReplaceFirst(token, PREFIX, ""))
  }

  /** `isTokenExpired(token)` at time `now`. */
  function IsTokenExpired(token: string, now: int): bool {
    match DecodeToken(token)
    case None => true
    case Some(decoded) => now - decoded.timestamp > EXPIRATION_MS
  }

  /** `isValidToken(token)` at time `now`. */
  function IsValidToken(token: string, now: int): (valid: bool)
    ensures valid ==> token != "" && StartsWith(token, PREFIX)
    ensures valid <==> StartsWith(token, PREFIX) && !IsTokenExpired(token, now)
  {
    if token == "" || !StartsWith(token, PREFIX) then false
    else DecodeToken(token).Some? && !IsTokenExpired(token, now)
  }

  /** Only the leading `Bearer_` is removed; the rest is decoded as it is,
      even when it holds the prefix again. */
  lemma RemovesLeadingPrefixOnly(rest: string)
    ensures DecodeToken(PREFIX + rest) == DecodeBody(rest)
  {
    ReplaceFirstAtStart(PREFIX, rest, "");
    assert "" + rest == rest;
  }

  /** Round trip: a generated token decodes to its user id, email and
      issue time. */
  lemma DecodeGenerate(userId: int, email: string, now: int, random: string)
    ensures DecodeToken(GenerateToken(userId, email, now, random)) == Some(DecodedToken(userId, email, now))
  {
    var d := TokenData(userId, email, now, random);
    var text := StringifyData(d);
    var bytes := Utf8.Encode(text);
    RemovesLeadingPrefixOnly(Base64.Encode(bytes));
    Base64.DecodeEncode(bytes);
    Utf8.DecodeEncode(text);
    ParseStringifyData(d);
  }

  /** A token that does not decode counts as expired. */
  lemma UndecodableIsExpired(token: string, now: int)
    requires DecodeToken(token).None?
    ensures IsTokenExpired(token, now) && !IsValidToken(token, now)
  {
  }

  /** A generated token expires strictly after 24 hours: an age of exactly
      86 400 000 ms is still valid. */
  lemma GeneratedExpiry(userId: int, email: string, issued: int, random: string, now: int)
    ensures IsTokenExpired(GenerateToken(userId, email, issued, random), now) <==> now - issued > 86_400_000
    ensures IsValidToken(GenerateToken(userId, email, issued, random), now) <==> now - issued <= 86_400_000
  {
    DecodeGenerate(userId, email, issued, random);
  }

  /** A token without the prefix is never valid, whatever it decodes to. */
  lemma UnprefixedInvalid(token: string, now: int)
    requires !StartsWith(token, PREFIX)
    ensures !IsValidToken(token, now)
  {
  }
}
