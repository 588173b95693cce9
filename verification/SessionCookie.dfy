/**
 The session cookie (src/auth/cookie.rs): sealed at login with a lifetime, read back from a raw
 header with the expiry checked again.

 Sealing is an ideal box: opening under the same key and cookie name gives the clear text, under
 any other nothing. The JSON of the payload and the decoding of a token's claims are values.
 */
module SessionCookie {
  import opened Wrappers
  import opened CookieText

  const SESSION_COOKIE_NAME := "miryad_session"

  type Secret = nat

  /** `seal(key, name, clear, salt)` and `open(key, name, text)`. */
  datatype Vault = Vault(
    seal: (Secret, string, string, nat) -> string,
    open: (Secret, string, string) -> Option<string>)

  ghost predicate Ideal(v: Vault)
  {
    && (forall k, n, c, r :: v.open(k, n, v.seal(k, n, c, r)) == Some(c))
    && (forall k, n, c, r, k', n' :: (k', n') != (k, n) ==> v.open(k', n', v.seal(k, n, c, r)) == None)
  }

  datatype Identity = Identity(idToken: string, subject: string, email: Option<string>, username: Option<string>)

  /** The JSON form of the payload, and the number a token's middle segment gives for `exp`. */
  datatype Codec = Codec(
    write: Identity -> string,
    read: string -> Option<Identity>,
    exp: string -> Option<real>)

  ghost predicate Faithful(c: Codec)
  {
    forall i :: c.read(c.write(i)) == Some(i)
  }

  datatype AuthError = NotAuthenticated | InvalidSession

  const EXACT_LIMIT: real := 9007199254740992.0

  /** `extract_exp_claim`: three segments, and a whole number of seconds below 2^53. */
  function ExtractExp(codec: Codec, token: string): Option<nat>
  {
    var segments := Split(token, '.');
    if |segments| != 3 then None
    else
      match codec.exp(segments[1])
      case None => None
      case Some(f) =>
        if 0.0 <= f < EXACT_LIMIT && f == f.Floor as real then Some(f.Floor) else None
  }

  function MaxAge(codec: Codec, token: string, now: nat): nat
  {
    var exp := match ExtractExp(codec, token) case None => 0 case Some(e) => e;
    if exp > now then exp - now else 0
  }

  function FindSealed(vault: Vault, key: Secret, header: Option<string>, name: string): Result<string, AuthError>
  {
    match header
    case None => Err(NotAuthenticated)
    case Some(text) =>
      match FindValue(text, name)
      case None => Err(NotAuthenticated)
      case Some(value) =>
        match vault.open(key, name, value)
        case None => Err(InvalidSession)
        case Some(clear) => Ok(clear)
  }

  function ExtractSession(vault: Vault, codec: Codec, key: Secret, header: Option<string>, now: nat)
    : Result<Identity, AuthError>
  {
    match FindSealed(vault, key, header, SESSION_COOKIE_NAME)
    case Err(e) => Err(e)
    case Ok(clear) =>
      match codec.read(clear)
      case None => Err(InvalidSession)
      case Some(identity) =>
        match ExtractExp(codec, identity.idToken)
        case None => Err(InvalidSession)
        case Some(exp) => if exp <= now then Err(InvalidSession) else Ok(identity)
  }

  /** The expiry is the whole number of seconds, below 2^53, that the middle one of exactly three
      segments gives. */
  lemma ExpiryOfToken(codec: Codec, token: string, exp: nat)
    ensures ExtractExp(codec, token) == Some(exp) <==>
            exists head, payload, signature ::
              && token == head + "." + payload + "." + signature
              && Free(head, '.') && Free(payload, '.') && Free(signature, '.')
              && codec.exp(payload) == Some(exp as real) && exp < 0x20_0000_0000_0000
  {
    var segments := Split(token, '.');
    JoinOfSplit(token, '.');
    if ExtractExp(codec, token) == Some(exp) {
      assert segments == [segments[0], segments[1], segments[2]];
      JoinOfThree(segments[0], segments[1], segments[2]);
    }
    forall head, payload, signature |
      token == head + "." + payload + "." + signature && Free(head, '.') && Free(payload, '.') && Free(signature, '.')
      ensures segments == [head, payload, signature]
    {
      JoinOfThree(head, payload, signature);
      SplitOfJoin([head, payload, signature], '.');
    }
  }

  lemma JoinOfThree(a: string, b: string, c: string)
    ensures Join([a, b, c], '.') == a + "." + b + "." + c
  {
    assert [a, b, c][1..] == [b, c] && [b, c][1..] == [c];
    assert Join([b, c], '.') == b + ['.'] + c;
  }

  /** The jar a response is prepared in. */
  class CookieJar {
    var cookies: map<string, string>

    constructor ()
      ensures cookies == map[]
    {
      cookies := map[];
    }

    /** Adds a sealed cookie: the jar holds the sealed text, never the clear one. */
    method AddPrivate(vault: Vault, key: Secret, name: string, clear: string, salt: nat)
      modifies this
      ensures cookies == old(cookies)[name := vault.seal(key, name, clear, salt)]
    {
      cookies := cookies[name := vault.seal(key, name, clear, salt)];
    }
  }

  /** The value and the lifetime of the Set-Cookie header. */
  method BuildSetCookie(vault: Vault, codec: Codec, identity: Identity, key: Secret, salt: nat, now: nat)
    returns (value: string, maxAge: nat)
    ensures value == vault.seal(key, SESSION_COOKIE_NAME, codec.write(identity), salt)
    ensures maxAge == MaxAge(codec, identity.idToken, now)
  {
    var exp := ExtractExp(codec, identity.idToken);
    var seconds := if exp.Some? then exp.value else 0;
    maxAge := if seconds > now then seconds - now else 0;
    var jar := new CookieJar();
    jar.AddPrivate(vault, key, SESSION_COOKIE_NAME, codec.write(identity), salt);
    value := if SESSION_COOKIE_NAME in jar.cookies then jar.cookies[SESSION_COOKIE_NAME] else "";
  }

  /** The session round trip: a cookie set at `now` and sent back first among its name, in any
      header, gives its identity at each later instant of its Max-Age and is rejected at each
      instant from there on; a token without a readable expiry lives for no time. */
  lemma SessionRoundTrip(vault: Vault, codec: Codec, identity: Identity, key: Secret, salt: nat, now: nat,
                         segments: seq<string>, at: nat, later: nat)
    requires Ideal(vault) && Faithful(codec) && now <= later
    requires FirstPair(segments, at, SESSION_COOKIE_NAME,
                       vault.seal(key, SESSION_COOKIE_NAME, codec.write(identity), salt))
    ensures ExtractSession(vault, codec, key, Some(Join(segments, ';')), later) ==
            if later < now + MaxAge(codec, identity.idToken, now) then Ok(identity) else Err(InvalidSession)
  {
    PairIsFound(segments, at, SESSION_COOKIE_NAME, vault.seal(key, SESSION_COOKIE_NAME, codec.write(identity), salt));
  }

  /** In terms of the token itself: a session whose token expires at `exp` is read back until then, and
      not from then on. */
  lemma SessionLastsToItsExpiry(vault: Vault, codec: Codec, identity: Identity, key: Secret, salt: nat,
                                segments: seq<string>, at: nat, head: string, payload: string, signature: string,
                                exp: nat, later: nat)
    requires Ideal(vault) && Faithful(codec)
    requires identity.idToken == head + "." + payload + "." + signature
    requires Free(head, '.') && Free(payload, '.') && Free(signature, '.')
    requires codec.exp(payload) == Some(exp as real) && exp < 0x20_0000_0000_0000
    requires FirstPair(segments, at, SESSION_COOKIE_NAME,
                       vault.seal(key, SESSION_COOKIE_NAME, codec.write(identity), salt))
    ensures ExtractSession(vault, codec, key, Some(Join(segments, ';')), later) ==
            if later < exp then Ok(identity) else Err(InvalidSession)
    ensures forall now: nat :: MaxAge(codec, identity.idToken, now) == if now < exp then exp - now else 0
  {
    ExpiryOfToken(codec, identity.idToken, exp);
    PairIsFound(segments, at, SESSION_COOKIE_NAME, vault.seal(key, SESSION_COOKIE_NAME, codec.write(identity), salt));
  }

  /** No header, or none with a pair of the session's name, is no session; a pair that does not open,
      does not read, or whose token tells no expiry, is an invalid one. */
  lemma WhatIsNoSession(vault: Vault, codec: Codec, key: Secret, header: Option<string>, now: nat)
    ensures var r := ExtractSession(vault, codec, key, header, now);
            && (r == Err(NotAuthenticated) <==>
                  header.None? || forall at, v :: !FirstPair(Split(header.value, ';'), at, SESSION_COOKIE_NAME, v))
            && (r.Ok? ==>
                  && header.Some?
                  && exists at, v ::
                       && FirstPair(Split(header.value, ';'), at, SESSION_COOKIE_NAME, v)
                       && vault.open(key, SESSION_COOKIE_NAME, v).Some?
                       && codec.read(vault.open(key, SESSION_COOKIE_NAME, v).value) == Some(r.value))
  {
    if header.Some? {
      var found := FindValue(header.value, SESSION_COOKIE_NAME);
      if found.Some? {
        FoundIsFirstPair(header.value, SESSION_COOKIE_NAME, found.value);
        var at :| FirstPair(Split(header.value, ';'), at, SESSION_COOKIE_NAME, found.value);
      } else {
        forall v, at ensures !FirstPair(Split(header.value, ';'), at, SESSION_COOKIE_NAME, v) {
          FoundIsFirstPair(header.value, SESSION_COOKIE_NAME, v);
        }
      }
    }
  }

  /** A text sealed under another key, or for another cookie, is never a session. */
  lemma TransplantIsRejected(vault: Vault, codec: Codec, key: Secret, other: Secret, name: string, clear: string,
                             salt: nat, segments: seq<string>, at: nat, now: nat)
    requires Ideal(vault) && (other, name) != (key, SESSION_COOKIE_NAME)
    requires FirstPair(segments, at, SESSION_COOKIE_NAME, vault.seal(other, name, clear, salt))
    ensures ExtractSession(vault, codec, key, Some(Join(segments, ';')), now) == Err(InvalidSession)
  {
    PairIsFound(segments, at, SESSION_COOKIE_NAME, vault.seal(other, name, clear, salt));
  }
}
