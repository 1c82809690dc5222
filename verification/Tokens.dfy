/** Refresh tokens and the claims of access tokens. */
module Tokens {
  import opened Wrappers
  import opened Domain
  import opened Decimal
  import opened Base64Url

  const REFRESH_SECRET_BYTES := 32
  const MAX_REFRESH_TOKEN_BYTES := 256
  const MIN_JWT_ID_BYTES := 16
  const MAX_JWT_ID_BYTES := 128
  const JWT_ID_RANDOM_BYTES := 16
  const MAX_FUTURE_ISSUED_AT: Time := 30 * SECOND

  /** Fills a buffer from a source of random bytes; fails when the source runs dry. */
  method ReadFull(source: seq<Byte>, buffer: array<Byte>) returns (ok: bool)
    modifies buffer
    ensures ok <==> |source| >= buffer.Length
    ensures ok ==> buffer[..] == source[..buffer.Length]
  {
    var i := 0;
    while i < buffer.Length
      invariant 0 <= i <= buffer.Length && i <= |source|
      invariant buffer[..i] == source[..i]
    {
      if i == |source| {
        return false;
      }
      buffer[i] := source[i];
      i := i + 1;
    }
    ok := true;
  }

  /** A fresh secret, encoded, and the digest of its bytes. */
  method GenerateRefreshSecret(source: seq<Byte>, sha: seq<Byte> -> Digest)
    returns (r: Outcome<(string, Digest)>)
    ensures r == if |source| >= 32 then Ok((Encode(source[..32]), sha(source[..32]))) else Err(Internal)
  {
    var raw := new Byte[REFRESH_SECRET_BYTES](_ => 0);
    var ok := ReadFull(source, raw);
    if !ok {
      return Err(Internal);
    }
    return Ok((Encode(raw[..]), sha(raw[..])));
  }

  method GenerateJwtId(source: seq<Byte>) returns (r: Outcome<string>)
    ensures r.Ok? <==> |source| >= 16
    ensures r.Ok? ==> r.value == Encode(source[..16]) && ValidJwtId(r.value)
  {
    var raw := new Byte[JWT_ID_RANDOM_BYTES](_ => 0);
    var ok := ReadFull(source, raw);
    if !ok {
      return Err(Internal);
    }
    EncodingIsValidJwtId(raw[..]);
    return Ok(Encode(raw[..]));
  }

  /** The secret that a string encodes canonically. */
  function DecodeRefreshSecret(encoded: string): Option<seq<Byte>> {
    if encoded == "" || '=' in encoded then None
    else
      match Decode(encoded)
      case None => None
      case Some(raw) => if |raw| != REFRESH_SECRET_BYTES || Encode(raw) != encoded then None else Some(raw)
  }

  function FormatRefreshToken(sessionId: int, encodedSecret: string): Outcome<string> {
    if sessionId <= 0 || DecodeRefreshSecret(encodedSecret).None? then Err(InvalidRefreshToken)
    else
      var token := Print(sessionId) + "." + encodedSecret;
      if |token| > MAX_REFRESH_TOKEN_BYTES then Err(InvalidRefreshToken) else Ok(token)
  }

  function IndexOfDot(s: string): (i: nat)
    ensures i <= |s| && '.' !in s[..i] && (i < |s| ==> s[i] == '.')
  {
    if s == "" || s[0] == '.' then 0
    else
      var i := 1 + IndexOfDot(s[1..]);
      assert s[..i] == [s[0]] + s[1..][..i - 1];
      i
  }

  /** The session id and the secret of a token with exactly one dot. */
  function ParseRefreshToken(raw: string): Option<(nat, seq<Byte>)> {
    var dot := IndexOfDot(raw);
    if |raw| == 0 || |raw| > MAX_REFRESH_TOKEN_BYTES || dot == |raw| || '.' in raw[dot + 1..] then None
    else
      match (PositiveId(raw[..dot]), DecodeRefreshSecret(raw[dot + 1..]))
      case (Some(id), Some(secret)) => Some((id, secret))
      case _ => None
  }

  lemma SecretIsEncoding(encoded: string, secret: seq<Byte>)
    ensures DecodeRefreshSecret(encoded) == Some(secret)
      <==> |secret| == REFRESH_SECRET_BYTES && encoded == Encode(secret)
  {
    CanonicalIsEncoding(encoded, secret);
    if encoded == Encode(secret) {
      PackLength(secret);
      EncodingHasNoPadding(secret);
    }
  }

  lemma EncodingHasNoPadding(b: seq<Byte>)
    ensures forall c <- Encode(b) :: c != '=' && c != '.'
  {
  }

  lemma {:induction false} PrintLength(n: nat, digits: nat, bound: nat)
    requires n < bound && digits >= 1 && bound == Pow10(digits)
    ensures |Print(n)| <= digits
  {
    if n >= 10 {
      PrintLength(n / 10, digits - 1, Pow10(digits - 1));
    }
  }

  function Pow10(k: nat): nat {
    if k == 0 then 1 else 10 * Pow10(k - 1)
  }

  lemma Int64HasNineteenDigits(n: nat)
    requires n <= MAX_INT64
    ensures |Print(n)| <= 19
  {
    assert Pow10(5) == 100_000;
    assert Pow10(10) == 100_000 * Pow10(5);
    assert Pow10(15) == 100_000 * Pow10(10);
    assert Pow10(19) == 10_000 * Pow10(15);
    PrintLength(n, 19, Pow10(19));
  }

  /** Formatting an int64 session id with an encoded 32-byte secret always succeeds: the length check
      cannot fire. */
  lemma FormatSucceeds(id: nat, secret: seq<Byte>)
    requires 1 <= id <= 9_223_372_036_854_775_807 && |secret| == 32
    ensures FormatRefreshToken(id, Encode(secret)) == Ok(Print(id) + "." + Encode(secret))
    ensures |Print(id) + "." + Encode(secret)| <= 63
  {
    SecretIsEncoding(Encode(secret), secret);
    Int64HasNineteenDigits(id);
    PackLength(secret);
  }

  lemma {:induction false} DotOf(a: string, b: string)
    requires '.' !in a
    ensures IndexOfDot(a + "." + b) == |a|
  {
    if a != "" {
      assert (a + "." + b)[1..] == a[1..] + "." + b;
      assert a[0] in a && forall c <- a[1..] :: c in a;
      DotOf(a[1..], b);
    }
  }

  function Both(id: Option<nat>, secret: Option<seq<Byte>>): Option<(nat, seq<Byte>)> {
    if id.Some? && secret.Some? then Some((id.value, secret.value)) else None
  }

  /** A text with one dot is parsed by its two parts. */
  lemma ParseOfParts(head: string, tail: string)
    requires '.' !in head && '.' !in tail && |head| + 1 + |tail| <= MAX_REFRESH_TOKEN_BYTES
    ensures ParseRefreshToken(head + "." + tail) == Both(PositiveId(head), DecodeRefreshSecret(tail))
  {
    var raw := head + "." + tail;
    DotOf(head, tail);
    assert raw[..|head|] == head && raw[|head| + 1..] == tail;
  }

  /** Whatever parses has these two parts. */
  lemma PartsOfParsed(raw: string, id: nat, secret: seq<Byte>) returns (head: string, tail: string)
    ensures ParseRefreshToken(raw) == Some((id, secret)) ==>
      raw == head + "." + tail && PositiveId(head) == Some(id) && DecodeRefreshSecret(tail) == Some(secret)
  {
    var dot := IndexOfDot(raw);
    head, tail := raw[..dot], if dot < |raw| then raw[dot + 1..] else "";
    if dot < |raw| {
      assert raw == head + "." + tail;
    }
  }

  lemma FormattedParses(id: nat, secret: seq<Byte>)
    requires 1 <= id <= MAX_INT64 && |secret| == REFRESH_SECRET_BYTES
    ensures ParseRefreshToken(Print(id) + "." + Encode(secret)) == Some((id, secret))
  {
    var head, tail := Print(id), Encode(secret);
    FormatSucceeds(id, secret);
    PositiveIdIsCanonical(head, id);
    SecretIsEncoding(tail, secret);
    EncodingHasNoPadding(secret);
    DigitsHaveNoDot(id);
    ParseOfParts(head, tail);
  }

  lemma DigitsHaveNoDot(n: nat)
    ensures '.' !in Print(n)
  {
    ReadPrint(n);
  }

  /** Parsing accepts exactly the formatted tokens, and gives back what was formatted. */
  lemma ParseIsInverseOfFormat(raw: string, id: nat, secret: seq<Byte>)
    ensures ParseRefreshToken(raw) == Some((id, secret))
      <==> 1 <= id <= MAX_INT64 && |secret| == REFRESH_SECRET_BYTES
           && FormatRefreshToken(id, Encode(secret)) == Ok(raw)
    ensures ParseRefreshToken(raw) == Some((id, secret))
      <==> 1 <= id <= 9_223_372_036_854_775_807 && |secret| == 32 && raw == Print(id) + "." + Encode(secret)
  {
    if 1 <= id <= MAX_INT64 && |secret| == REFRESH_SECRET_BYTES {
      FormatSucceeds(id, secret);
      FormattedParses(id, secret);
    }
    if ParseRefreshToken(raw) == Some((id, secret)) {
      var head, tail := PartsOfParsed(raw, id, secret);
      PositiveIdIsCanonical(head, id);
      SecretIsEncoding(tail, secret);
    }
  }

  predicate ValidJwtId(value: string) {
    && MIN_JWT_ID_BYTES <= |value| <= MAX_JWT_ID_BYTES && '=' !in value
    && Decode(value).Some? && |Decode(value).value| != 0
    && Encode(Decode(value).value) == value
  }

  /** The valid token ids are the encodings of 12 to 96 bytes. */
  lemma ValidJwtIdIsEncoding(value: string)
    ensures ValidJwtId(value) <==> exists b: seq<Byte> :: 12 <= |b| <= 96 && value == Encode(b)
  {
    if ValidJwtId(value) {
      PackLength(Decode(value).value);
    }
    if b: seq<Byte> :| 12 <= |b| <= 96 && value == Encode(b) {
      EncodingIsValidJwtId(b);
    }
  }

  lemma EncodingIsValidJwtId(b: seq<Byte>)
    requires 12 <= |b| <= 96
    ensures ValidJwtId(Encode(b))
  {
    PackLength(b);
    DecodeEncode(b);
    EncodingHasNoPadding(b);
  }

  /** The claims of an access token; the JWT encoding and its HS256 signature are opaque. */
  datatype Claims = Claims(
    issuer: string,
    subject: string,
    audience: seq<string>,
    issuedAt: Option<int>,
    expiresAt: Option<int>,
    jwtId: string,
    sessionId: string)

  datatype Manager = Manager(issuer: string, audience: string)

  datatype Principal = Principal(userId: nat, sessionId: nat)

  function Sign(m: Manager, userId: int, sessionId: int, issuedAt: Time, expiresAt: Time, jwtId: string)
    : Outcome<Claims>
  {
    if userId <= 0 || sessionId <= 0 || issuedAt == ZERO_TIME || expiresAt == ZERO_TIME || !ValidJwtId(jwtId)
       || Unix(expiresAt) <= Unix(issuedAt)
    then Err(Internal)
    else
      Ok(Claims(m.issuer, Print(userId), [m.audience], Some(Unix(issuedAt)), Some(Unix(expiresAt)),
                jwtId, Print(sessionId)))
  }

  function Verify(m: Manager, c: Claims, now: Time): Option<Principal> {
    if now == ZERO_TIME then None
    else
      match (PositiveId(c.subject), PositiveId(c.sessionId))
      case (Some(userId), Some(sessionId)) =>
        if c.issuer != m.issuer || |c.audience| != 1 || c.audience[0] != m.audience
           || c.issuedAt.None? || c.expiresAt.None? || !ValidJwtId(c.jwtId)
        then None
        else
          var issuedAt, expiresAt := c.issuedAt.value * SECOND, c.expiresAt.value * SECOND;
          if expiresAt <= issuedAt || expiresAt <= now || issuedAt > now + MAX_FUTURE_ISSUED_AT then None
          else Some(Principal(userId, sessionId))
      case _ => None
  }

  /** The claims of a principal and a valid token id can be signed, and are accepted exactly from 30
      seconds before their issue until their expiry, both in whole seconds; they name the user and the
      session that they were signed for. */
  lemma VerifyAcceptsSigned(m: Manager, userId: int, sessionId: int, issuedAt: Time, expiresAt: Time,
                            idBytes: seq<Byte>, now: Time)
    requires 1 <= userId <= MAX_INT64 && 1 <= sessionId <= MAX_INT64 && 12 <= |idBytes| <= 96
    requires issuedAt != ZERO_TIME && expiresAt != ZERO_TIME && Unix(issuedAt) < Unix(expiresAt) && now != ZERO_TIME
    ensures var signed := Sign(m, userId, sessionId, issuedAt, expiresAt, Encode(idBytes));
      && signed == Ok(Claims(m.issuer, Print(userId), [m.audience], Some(issuedAt / SECOND), Some(expiresAt / SECOND),
                             Encode(idBytes), Print(sessionId)))
      && Verify(m, signed.value, now)
         == if now < NormalizeTime(expiresAt) && NormalizeTime(issuedAt) <= now + 30 * SECOND
            then Some(Principal(userId, sessionId)) else None
  {
    EncodingIsValidJwtId(idBytes);
    PositiveIdIsCanonical(Print(userId), userId);
    PositiveIdIsCanonical(Print(sessionId), sessionId);
    assert Unix(expiresAt) * SECOND == NormalizeTime(expiresAt);
    assert Unix(issuedAt) * SECOND == NormalizeTime(issuedAt);
  }

  lemma UnixOfSeconds(n: int)
    ensures Unix(n * SECOND) == n
  {
  }

  /** Accepted claims spell their principal canonically. */
  lemma AcceptedSpelling(m: Manager, c: Claims, now: Time, p: Principal)
    ensures Verify(m, c, now) == Some(p) ==>
      && p.userId > 0 && p.sessionId > 0 && c.subject == Print(p.userId) && c.sessionId == Print(p.sessionId)
      && c.issuer == m.issuer && c.audience == [m.audience] && ValidJwtId(c.jwtId)
      && c.issuedAt.Some? && c.expiresAt.Some? && c.issuedAt.value < c.expiresAt.value
  {
    if Verify(m, c, now) == Some(p) {
      PositiveIdIsCanonical(c.subject, p.userId);
      PositiveIdIsCanonical(c.sessionId, p.sessionId);
      assert c.audience == [m.audience];
    }
  }

  /** Accepted claims are those that signing the same principal produces; only an instant of zero is
      accepted where signing would refuse it. */
  lemma VerifiedIsSigned(m: Manager, c: Claims, now: Time, p: Principal)
    ensures Verify(m, c, now) == Some(p) ==>
      var issuedAt, expiresAt := c.issuedAt.value * SECOND, c.expiresAt.value * SECOND;
      Sign(m, p.userId, p.sessionId, issuedAt, expiresAt, c.jwtId)
      == if issuedAt == ZERO_TIME || expiresAt == ZERO_TIME then Err(Internal) else Ok(c)
  {
    if Verify(m, c, now) == Some(p) {
      AcceptedSpelling(m, c, now, p);
      UnixOfSeconds(c.issuedAt.value);
      UnixOfSeconds(c.expiresAt.value);
    }
  }
}
