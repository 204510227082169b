/** Relay tokens (internal/server/auth/token.go): a JSON payload and its keyed digest
    (section 2 of RFC 2104), both in base64url, joined by a dot. The digest and the JSON
    codec are functions of the signer. */
module Token {
  import opened Common
  import Base64Url

  datatype Claims = Claims(sid: string, role: string, exp: int)

  /** `mac` is the digest keyed with the signer's secret. */
  datatype Signer = Signer(
    mac: seq<byte> -> seq<byte>,
    marshal: Claims -> seq<byte>,
    unmarshal: seq<byte> -> Option<Claims>)

  datatype VerifyError = BadFormat | BadPayload | BadSignatureText | BadSignature | BadClaims | TokenExpired

  datatype Verified = Accepted(claims: Claims) | Denied(why: VerifyError)

  /** strings.Split on the dot. */
  function Split(s: string): (parts: seq<string>)
    ensures |parts| >= 1
  {
    if s == [] then [[]]
    else
      var rest := Split(s[1..]);
      if s[0] == '.' then [[]] + rest else [[s[0]] + rest[0]] + rest[1..]
  }

  function Sign(g: Signer, claims: Claims): string {
    var payload := g.marshal(claims);
    Base64Url.Encode(payload) + "." + Base64Url.Encode(g.mac(payload))
  }

  /** `now` is the clock in whole seconds. */
  function Verify(g: Signer, token: string, now: int): Verified {
    var parts := Split(token);
    if |parts| != 2 then Denied(BadFormat)
    else
      var payload := Base64Url.Decode(parts[0]);
      var signature := Base64Url.Decode(parts[1]);
      if payload.None? then Denied(BadPayload)
      else if signature.None? then Denied(BadSignatureText)
      else if signature.value != g.mac(payload.value) then Denied(BadSignature)
      else
        var claims := g.unmarshal(payload.value);
        if claims.None? then Denied(BadClaims)
        else if claims.value.exp < now then Denied(TokenExpired)
        else Accepted(claims.value)
  }

  /** Whole seconds of an instant; Go's Unix() rounds down. */
  function Unix(t: Time): int { t / SECOND }

  function CreateRelayToken(g: Signer, sid: string, role: string, ttl: Time, now: Time): string {
    Sign(g, Claims(sid, role, Unix(now + ttl)))
  }

  /** The codec reads back what it writes, for these claims. */
  predicate CodecReads(g: Signer, c: Claims) { g.unmarshal(g.marshal(c)) == Some(c) }

  lemma {:induction false} SplitPlain(s: string)
    requires '.' !in s
    ensures Split(s) == [s]
  {
    if s != [] {
      SplitPlain(s[1..]);
      assert s == [s[0]] + s[1..];
    }
  }

  lemma {:induction false} SplitOnce(a: string, b: string)
    requires '.' !in a && '.' !in b
    ensures Split(a + "." + b) == [a, b]
  {
    if a == [] {
      assert (a + "." + b)[1..] == b;
      SplitPlain(b);
    } else {
      assert (a + "." + b)[1..] == a[1..] + "." + b;
      SplitOnce(a[1..], b);
      assert a == [a[0]] + a[1..];
    }
  }

  /** A signed token verifies to the very claims that were signed exactly while the clock is
      at most their expiry second, and is then refused as expired. */
  lemma VerifyOfSign(g: Signer, c: Claims, now: int)
    requires CodecReads(g, c)
    ensures Verify(g, Sign(g, c), now) == if now <= c.exp then Accepted(c) else Denied(TokenExpired)
  {
    var payload := g.marshal(c);
    Base64Url.DecodeOfEncode(payload);
    Base64Url.DecodeOfEncode(g.mac(payload));
    SplitOnce(Base64Url.Encode(payload), Base64Url.Encode(g.mac(payload)));
  }

  /** The relay's token validator. */
  function Validate(g: Signer, token: string, now: Time): Option<(string, string)> {
    match Verify(g, token, Unix(now))
    case Accepted(c) => Some((c.sid, c.role))
    case Denied(_) => None
  }

  /** A relay token created at `issued` is good for its session and role for the rest of the
      second in which its time to live ends, and never after. */
  lemma RelayTokenLifetime(g: Signer, sid: string, role: string, ttl: Time, issued: Time, now: Time)
    requires CodecReads(g, Claims(sid, role, Unix(issued + ttl)))
    ensures var v := Validate(g, CreateRelayToken(g, sid, role, ttl, issued), now);
      && (v == Some((sid, role)) <==> now < (Unix(issued + ttl) + 1) * SECOND)
      && (now >= (Unix(issued + ttl) + 1) * SECOND ==> v.None?)
      && (now <= issued + ttl ==> v.Some?)
  {
    VerifyOfSign(g, Claims(sid, role, Unix(issued + ttl)), Unix(now));
  }

  // ---------- What an accepted token proves ----------

  /** The text is two dotless base64url parts, the second of which decodes to the digest of
      what the first decodes to. */
  predicate Bears(g: Signer, token: string, payload: seq<byte>, a: string, b: string) {
    && token == a + "." + b && '.' !in a && '.' !in b
    && Base64Url.Decode(a) == Some(payload) && Base64Url.Decode(b) == Some(g.mac(payload))
  }

  /** The text carries this payload together with the payload's digest. */
  ghost predicate Carries(g: Signer, token: string, payload: seq<byte>) {
    exists a, b :: Bears(g, token, payload, a, b)
  }

  /** It carries a payload that reads as `c`, and `c` has not expired. */
  ghost predicate Proves(g: Signer, token: string, now: int, c: Claims) {
    exists payload :: Carries(g, token, payload) && g.unmarshal(payload) == Some(c) && now <= c.exp
  }

  lemma {:induction false} SplitJoins(s: string)
    ensures var parts := Split(s);
      && (forall i | 0 <= i < |parts| :: '.' !in parts[i])
      && (|parts| == 2 ==> s == parts[0] + "." + parts[1])
      && (|parts| == 1 ==> s == parts[0])
  {
    if s != [] {
      SplitJoins(s[1..]);
      assert s == [s[0]] + s[1..];
      var rest := Split(s[1..]);
      forall i | 0 <= i < |Split(s)| ensures '.' !in Split(s)[i] {
        if s[0] != '.' && i > 0 { assert Split(s)[i] == rest[i]; }
      }
    }
  }

  /** Of all texts, the ones that verify to `c` are exactly those that carry a payload together
      with its digest, where the payload reads as `c` and `c` has not expired. */
  lemma AcceptedExactly(g: Signer, token: string, now: int, c: Claims)
    ensures Verify(g, token, now) == Accepted(c) <==> Proves(g, token, now, c)
  {
    SplitJoins(token);
    if Verify(g, token, now) == Accepted(c) {
      var parts := Split(token);
      var payload := Base64Url.Decode(parts[0]).value;
      assert Bears(g, token, payload, parts[0], parts[1]);
      assert Carries(g, token, payload);
    }
    if payload :| Carries(g, token, payload) && g.unmarshal(payload) == Some(c) && now <= c.exp {
      var a, b :| Bears(g, token, payload, a, b);
      SplitOnce(a, b);
    }
  }

  /** A payload under anything but its own digest is refused for its signature. */
  lemma ForgeryIsRefused(g: Signer, payload: seq<byte>, signature: seq<byte>, now: int)
    requires signature != g.mac(payload)
    ensures Verify(g, Base64Url.Encode(payload) + "." + Base64Url.Encode(signature), now) == Denied(BadSignature)
  {
    Base64Url.DecodeOfEncode(payload);
    Base64Url.DecodeOfEncode(signature);
    SplitOnce(Base64Url.Encode(payload), Base64Url.Encode(signature));
  }

  /** What the relay learns from a token: exactly the session and role of an unexpired payload
      that the token carries with its digest. */
  lemma ValidatedExactly(g: Signer, token: string, now: Time, sid: string, role: string)
    ensures Validate(g, token, now) == Some((sid, role)) <==>
      exists exp :: Proves(g, token, Unix(now), Claims(sid, role, exp))
  {
    if Validate(g, token, now) == Some((sid, role)) {
      var c := Verify(g, token, Unix(now)).claims;
      AcceptedExactly(g, token, Unix(now), c);
      assert c == Claims(sid, role, c.exp);
    }
    if exp :| Proves(g, token, Unix(now), Claims(sid, role, exp)) {
      AcceptedExactly(g, token, Unix(now), Claims(sid, role, exp));
    }
  }
}
