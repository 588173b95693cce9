/**
 Login by OpenID Connect as a protocol between a server, a provider and clients who may replay,
 drop and swap sealed cookies but not forge them (src/auth/mod.rs, `handler_login` and
 `handler_callback`; src/auth/oidc.rs, `authorization_url` and `exchange_code`). What cannot be
 forged is what opens, under whatever name; that a cookie of one name is no cookie of the other
 follows from the sealing.

 The provider's part is the nonce and the verifier: a code is good once, for the challenge it was
 granted for (PKCE S256 of RFC 7636, taken as injective), and its id_token carries its nonce.
 Anyone may have any code granted, for any nonce and challenge.
 */
module OidcLogin {
  import opened Wrappers
  import opened CookieText
  import opened SessionCookie

  const PENDING_COOKIE_NAME := "miryad_oidc_pending"

  /** The three secrets of one login. */
  datatype Login = Login(csrf: string, nonce: string, verifier: string)

  datatype Challenge = S256(verifier: string)

  datatype Grant = Grant(nonce: string, challenge: Challenge, identity: Identity, groups: seq<string>, redeemed: bool)

  type Provider = map<string, Grant>

  /** What `exchange_code` was asked. */
  datatype Exchange = Exchange(code: string, nonce: string, verifier: string)

  datatype LoginResult = LoginResult(identity: Identity, groups: seq<string>)

  datatype Error = InvalidCallback | CsrfMismatch | OidcFailure | DatabaseFailure

  /** A session sets its cookie and clears the pending one. */
  datatype Reply = SetSession(identity: Identity, cookie: string, maxAge: nat) | Rejected(error: Error)

  datatype DbFault = NoFault | AtAccount | AtGroups

  /** The cookie box, the session's JSON and the server's key. */
  datatype Server = Server(vault: Vault, codec: Codec, key: Secret)

  /** A cookie the server sealed. */
  datatype Sealed = Sealed(name: string, clear: string, salt: nat)

  /** The world: the logins and the sealed cookies so far, the provider's codes, the accounts and their
      groups, the exchanges asked. */
  datatype World = World(
    logins: seq<Login>,
    issued: seq<Sealed>,
    provider: Provider,
    accounts: set<string>,
    memberships: map<string, set<string>>,
    exchanges: seq<Exchange>)

  const START := World([], [], map[], {}, map[], [])

  // ---------------------------------------------------------------------------------------------
  // The pending value
  // ---------------------------------------------------------------------------------------------

  function PendingText(l: Login): string
  {
    l.csrf + ":" + l.nonce + ":" + l.verifier
  }

  /** `splitn(3, ':')`, all three pieces required. */
  function ReadPending(text: string): Option<Login>
  {
    match SplitOnce(text, ':')
    case None => None
    case Some((csrf, rest)) =>
      match SplitOnce(rest, ':')
      case None => None
      case Some((nonce, verifier)) => Some(Login(csrf, nonce, verifier))
  }

  /** Reading is the exact inverse of printing, on secrets whose first two are free of `:`; the
      verifier may hold any text. */
  lemma PendingRoundTrip(text: string, l: Login)
    ensures ReadPending(text) == Some(l) <==> text == PendingText(l) && Free(l.csrf, ':') && Free(l.nonce, ':')
  {
    assert PendingText(l) == l.csrf + [':'] + (l.nonce + [':'] + l.verifier);
    if Free(l.csrf, ':') && Free(l.nonce, ':') {
      SplitOnceOfPair(l.csrf, l.nonce + [':'] + l.verifier, ':');
      SplitOnceOfPair(l.nonce, l.verifier, ':');
    }
    if ReadPending(text) == Some(l) {
      SplitOnceExact(text, ':');
      SplitOnceExact(SplitOnce(text, ':').value.1, ':');
    }
  }

  /** A value is refused exactly when it holds fewer than two `:`. */
  lemma PendingRefusal(text: string)
    ensures ReadPending(text).None? <==> |Split(text, ':')| < 3
  {
    SplitOnceExact(text, ':');
    match SplitOnce(text, ':')
    case None => SplitFree(text, ':');
    case Some((csrf, rest)) =>
      SplitPrefix(csrf, rest, ':');
      SplitOnceExact(rest, ':');
      match SplitOnce(rest, ':')
      case None => SplitFree(rest, ':');
      case Some((nonce, verifier)) => SplitPrefix(nonce, verifier, ':');
  }

  // ---------------------------------------------------------------------------------------------
  // The provider
  // ---------------------------------------------------------------------------------------------

  /** The token endpoint redeems an unredeemed code for the verifier of its challenge; the client
      then checks that the id_token carries the nonce it expects. */
  function ExchangeCode(p: Provider, e: Exchange): (Provider, Option<LoginResult>)
  {
    if e.code !in p || p[e.code].redeemed || p[e.code].challenge != S256(e.verifier) then (p, None)
    else
      var grant := p[e.code];
      (p[e.code := grant.(redeemed := true)],
       if grant.nonce == e.nonce then Some(LoginResult(grant.identity, grant.groups)) else None)
  }

  // ---------------------------------------------------------------------------------------------
  // The handlers
  // ---------------------------------------------------------------------------------------------

  /** The groups a login leaves its account in: those claimed, blank names aside. */
  function Wanted(groups: seq<string>): set<string>
  {
    set g | g in groups && Trim(g) != ""
  }

  /** Those are the names with a character that is no blank. */
  lemma WantedAreNamed(groups: seq<string>, g: string)
    ensures g in Wanted(groups) <==> g in groups && exists i | 0 <= i < |g| :: !Blank(g[i])
  {
    TrimsToNothing(g);
  }

  /** After the exchange: the account, its memberships in one transaction, and only then the session. */
  function Enter(sv: Server, w: World, result: LoginResult, fault: DbFault, now: nat, salt: nat): (World, Reply)
  {
    var id := result.identity;
    if fault == AtAccount then (w, Rejected(DatabaseFailure))
    else
      var known := w.(accounts := w.accounts + {id.subject});
      if fault == AtGroups then (known, Rejected(DatabaseFailure))
      else
        var clear := sv.codec.write(id);
        (known.(memberships := known.memberships[id.subject := Wanted(result.groups)],
                issued := known.issued + [Sealed(SESSION_COOKIE_NAME, clear, salt)]),
         SetSession(id, sv.vault.seal(sv.key, SESSION_COOKIE_NAME, clear, salt), MaxAge(sv.codec, id.idToken, now)))
  }

  /** `handler_callback`: the checks in order, then the exchange, then the entry. */
  function Callback(sv: Server, w: World, header: Option<string>, state: string, code: string,
                    fault: DbFault, now: nat, salt: nat): (World, Reply)
  {
    match FindSealed(sv.vault, sv.key, header, PENDING_COOKIE_NAME)
    case Err(_) => (w, Rejected(InvalidCallback))
    case Ok(clear) =>
      match ReadPending(clear)
      case None => (w, Rejected(InvalidCallback))
      case Some(pending) =>
        if state != pending.csrf then (w, Rejected(CsrfMismatch))
        else
          var e := Exchange(code, pending.nonce, pending.verifier);
          var (provider, outcome) := ExchangeCode(w.provider, e);
          var asked := w.(provider := provider, exchanges := w.exchanges + [e]);
          match outcome
          case None => (asked, Rejected(OidcFailure))
          case Some(result) => Enter(sv, asked, result, fault, now, salt)
  }

  /** The server: the handlers as they run. */
  class AuthServer {
    const sv: Server
    ghost var logins: seq<Login>
    ghost var issued: seq<Sealed>
    var provider: Provider
    var accounts: set<string>
    var memberships: map<string, set<string>>
    ghost var exchanges: seq<Exchange>

    constructor (sv: Server)
      ensures this.sv == sv && Snapshot() == START
    {
      this.sv := sv;
      logins, issued, provider, accounts, memberships, exchanges := [], [], map[], {}, map[], [];
    }

    ghost function Snapshot(): World
      reads this
    {
      World(logins, issued, provider, accounts, memberships, exchanges)
    }

    /** Seals the three secrets of a new login in the pending cookie. */
    method HandlerLogin(login: Login, salt: nat) returns (pending: string)
      modifies this`logins, this`issued
      ensures Snapshot() == Next(sv, old(Snapshot()), Start(login, salt))
      ensures pending == sv.vault.seal(sv.key, PENDING_COOKIE_NAME, PendingText(login), salt)
    {
      logins := logins + [login];
      issued := issued + [Sealed(PENDING_COOKIE_NAME, PendingText(login), salt)];
      var jar := new CookieJar();
      jar.AddPrivate(sv.vault, sv.key, PENDING_COOKIE_NAME, PendingText(login), salt);
      pending := if PENDING_COOKIE_NAME in jar.cookies then jar.cookies[PENDING_COOKIE_NAME] else "";
    }

    method AskProvider(e: Exchange) returns (outcome: Option<LoginResult>)
      modifies this`provider, this`exchanges
      ensures (provider, outcome) == ExchangeCode(old(provider), e)
      ensures exchanges == old(exchanges) + [e]
    {
      exchanges := exchanges + [e];
      outcome := None;
      if e.code in provider && !provider[e.code].redeemed && provider[e.code].challenge == S256(e.verifier) {
        var grant := provider[e.code];
        provider := provider[e.code := grant.(redeemed := true)];
        if grant.nonce == e.nonce {
          outcome := Some(LoginResult(grant.identity, grant.groups));
        }
      }
    }

    /** The names of the claim that are not blank. */
    method FilterGroups(groups: seq<string>) returns (wanted: set<string>)
      ensures wanted == Wanted(groups)
      ensures forall g :: g in wanted <==> g in groups && exists i | 0 <= i < |g| :: !Blank(g[i])
    {
      forall g ensures g in Wanted(groups) <==> g in groups && exists i | 0 <= i < |g| :: !Blank(g[i]) {
        WantedAreNamed(groups, g);
      }
      wanted := {};
      for i := 0 to |groups|
        invariant wanted == Wanted(groups[..i])
      {
        assert groups[..i + 1] == groups[..i] + [groups[i]];
        if Trim(groups[i]) != "" {
          wanted := wanted + {groups[i]};
        }
      }
      assert groups[..|groups|] == groups;
    }

    /** What follows a successful exchange. */
    method EnterAccount(result: LoginResult, fault: DbFault, now: nat, salt: nat) returns (reply: Reply)
      modifies this`accounts, this`memberships, this`issued
      ensures (Snapshot(), reply) == Enter(sv, old(Snapshot()), result, fault, now, salt)
    {
      if fault == AtAccount {
        return Rejected(DatabaseFailure);
      }
      var id := result.identity;
      accounts := accounts + {id.subject};
      if fault == AtGroups {
        return Rejected(DatabaseFailure);
      }
      var wanted := FilterGroups(result.groups);
      memberships := memberships[id.subject := wanted];
      var cookie, maxAge := BuildSetCookie(sv.vault, sv.codec, id, sv.key, salt, now);
      issued := issued + [Sealed(SESSION_COOKIE_NAME, sv.codec.write(id), salt)];
      reply := SetSession(id, cookie, maxAge);
    }

    method HandlerCallback(header: Option<string>, state: string, code: string, fault: DbFault, now: nat, salt: nat)
      returns (reply: Reply)
      modifies this
      ensures (Snapshot(), reply) == Callback(sv, old(Snapshot()), header, state, code, fault, now, salt)
    {
      var clear := FindSealed(sv.vault, sv.key, header, PENDING_COOKIE_NAME);
      if clear.Err? {
        return Rejected(InvalidCallback);
      }
      var first := SplitOnce(clear.value, ':');
      if first.None? {
        return Rejected(InvalidCallback);
      }
      var second := SplitOnce(first.value.1, ':');
      if second.None? {
        return Rejected(InvalidCallback);
      }
      if state != first.value.0 {
        return Rejected(CsrfMismatch);
      }
      var outcome := AskProvider(Exchange(code, second.value.0, second.value.1));
      if outcome.None? {
        return Rejected(OidcFailure);
      }
      reply := EnterAccount(outcome.value, fault, now, salt);
    }
  }

  // ---------------------------------------------------------------------------------------------
  // Runs
  // ---------------------------------------------------------------------------------------------

  datatype Event =
    | Start(login: Login, salt: nat)  // GET /auth/login
    | Granted(code: string, nonce: string, challenge: Challenge, result: LoginResult)  // the provider answers anyone
    // GET /auth/callback
    | Return(header: Option<string>, state: string, code: string, fault: DbFault, now: nat, salt: nat)

  /** The secrets of a login are new, and printable in the pending value. */
  predicate FreshLogin(w: World, l: Login)
  {
    && Free(l.csrf, ':') && Free(l.nonce, ':')
    && forall i | 0 <= i < |w.logins| :: w.logins[i].csrf != l.csrf && w.logins[i].nonce != l.nonce
  }

  function TextOf(sv: Server, cookie: Sealed): string
  {
    sv.vault.seal(sv.key, cookie.name, cookie.clear, cookie.salt)
  }

  /** A text that opens under any name is one the server sealed, under whatever name. */
  ghost predicate NotForged(sv: Server, w: World, text: string)
  {
    forall name :: sv.vault.open(sv.key, name, text).Some? ==>
                     exists i | 0 <= i < |w.issued| :: text == TextOf(sv, w.issued[i])
  }

  /** All a client cannot do: send, under any name, a text that opens and was never sealed. It may send
      any sealed cookie of any login, under any name, again and in any order. */
  ghost predicate Sendable(sv: Server, w: World, header: Option<string>)
  {
    header.Some? ==>
      forall name, text :: FindValue(header.value, name) == Some(text) ==> NotForged(sv, w, text)
  }

  ghost predicate Enabled(sv: Server, w: World, e: Event)
  {
    match e
    case Start(l, _) => FreshLogin(w, l)
    case Granted(code, _, _, _) => code !in w.provider
    case Return(header, _, _, _, _, _) => Sendable(sv, w, header)
  }

  function Next(sv: Server, w: World, e: Event): World
  {
    match e
    case Start(l, salt) =>
      w.(logins := w.logins + [l], issued := w.issued + [Sealed(PENDING_COOKIE_NAME, PendingText(l), salt)])
    case Granted(code, nonce, challenge, result) =>
      w.(provider := w.provider[code := Grant(nonce, challenge, result.identity, result.groups, false)])
    case Return(header, state, code, fault, now, salt) => Callback(sv, w, header, state, code, fault, now, salt).0
  }

  ghost predicate Execution(sv: Server, worlds: seq<World>, events: seq<Event>)
  {
    && |worlds| == |events| + 1 && worlds[0] == START
    && forall k | 0 <= k < |events| ::
         Enabled(sv, worlds[k], events[k]) && worlds[k + 1] == Next(sv, worlds[k], events[k])
  }

  /** What a callback event answers. */
  function Answer(sv: Server, w: World, e: Event): Reply
    requires e.Return?
  {
    Callback(sv, w, e.header, e.state, e.code, e.fault, e.now, e.salt).1
  }

  /** Step k answers with a session. */
  predicate Opens(sv: Server, worlds: seq<World>, events: seq<Event>, k: nat)
    requires |worlds| == |events| + 1 && k < |events|
  {
    events[k].Return? && Answer(sv, worlds[k], events[k]).SetSession?
  }

  // ---------------------------------------------------------------------------------------------
  // What runs keep
  // ---------------------------------------------------------------------------------------------

  ghost predicate LoginsOk(w: World)
  {
    && (forall i | 0 <= i < |w.logins| :: Free(w.logins[i].csrf, ':') && Free(w.logins[i].nonce, ':'))
    && (forall i, j | 0 <= i < j < |w.logins| ::
          w.logins[i].csrf != w.logins[j].csrf && w.logins[i].nonce != w.logins[j].nonce)
  }

  ghost predicate IsPending(w: World, clear: string)
  {
    exists i | 0 <= i < |w.logins| :: clear == PendingText(w.logins[i])
  }

  /** A cookie sealed as pending holds some login's secrets. */
  ghost predicate IssuedOk(w: World)
  {
    forall i | 0 <= i < |w.issued| && w.issued[i].name == PENDING_COOKIE_NAME :: IsPending(w, w.issued[i].clear)
  }

  ghost predicate WorldOk(w: World)
  {
    LoginsOk(w) && IssuedOk(w)
  }

  /** A code's grant never changes but to be redeemed. */
  ghost predicate GrantsKept(p: Provider, q: Provider)
  {
    forall code | code in p ::
      && code in q
      && q[code].(redeemed := false) == p[code].(redeemed := false)
      && (p[code].redeemed ==> q[code].redeemed)
  }

  /** No login, sealed cookie, account or grant is forgotten. */
  ghost predicate Evolves(v: World, w: World)
  {
    v.logins <= w.logins && v.issued <= w.issued && v.accounts <= w.accounts && GrantsKept(v.provider, w.provider)
  }

  lemma ExchangeKeepsGrants(p: Provider, e: Exchange)
    ensures GrantsKept(p, ExchangeCode(p, e).0)
  {
  }

  lemma EnterEvolves(sv: Server, w: World, result: LoginResult, fault: DbFault, now: nat, salt: nat)
    ensures var w' := Enter(sv, w, result, fault, now, salt).0;
            && Evolves(w, w') && w'.logins == w.logins
            && forall i | |w.issued| <= i < |w'.issued| :: w'.issued[i].name == SESSION_COOKIE_NAME
  {
  }

  lemma EvolvesNowhere(w: World)
    ensures Evolves(w, w)
  {
  }

  lemma EvolvesOnwards(u: World, v: World, w: World)
    requires Evolves(u, v) && Evolves(v, w)
    ensures Evolves(u, w)
  {
    forall code | code in u.provider
      ensures code in w.provider && w.provider[code].(redeemed := false) == u.provider[code].(redeemed := false)
      ensures u.provider[code].redeemed ==> w.provider[code].redeemed
    {
      assert code in v.provider;
    }
  }

  lemma AskedEvolves(w: World, e: Exchange)
    ensures Evolves(w, w.(provider := ExchangeCode(w.provider, e).0, exchanges := w.exchanges + [e]))
  {
    ExchangeKeepsGrants(w.provider, e);
  }

  lemma CallbackEvolves(sv: Server, w: World, header: Option<string>, state: string, code: string,
                        fault: DbFault, now: nat, salt: nat)
    ensures var w' := Callback(sv, w, header, state, code, fault, now, salt).0;
            && Evolves(w, w') && w'.logins == w.logins
            && forall i | |w.issued| <= i < |w'.issued| :: w'.issued[i].name == SESSION_COOKIE_NAME
  {
    EvolvesNowhere(w);
    var clear := FindSealed(sv.vault, sv.key, header, PENDING_COOKIE_NAME);
    if clear.Ok? && ReadPending(clear.value).Some? {
      var pending := ReadPending(clear.value).value;
      var e := Exchange(code, pending.nonce, pending.verifier);
      AskedEvolves(w, e);
      var (provider, outcome) := ExchangeCode(w.provider, e);
      var asked := w.(provider := provider, exchanges := w.exchanges + [e]);
      if outcome.Some? {
        EnterEvolves(sv, asked, outcome.value, fault, now, salt);
        EvolvesOnwards(w, asked, Enter(sv, asked, outcome.value, fault, now, salt).0);
      }
    }
  }

  lemma NamesDiffer()
    ensures PENDING_COOKIE_NAME != SESSION_COOKIE_NAME
  {
    assert PENDING_COOKIE_NAME[7] != SESSION_COOKIE_NAME[7];
  }

  /** Pending cookies stay those of logins, when logins only come and new cookies are sessions'. */
  lemma IssuedStaysOk(w: World, w': World)
    requires IssuedOk(w) && w.logins <= w'.logins && w.issued <= w'.issued
    requires forall i | |w.issued| <= i < |w'.issued| ::
               w'.issued[i].name == PENDING_COOKIE_NAME ==> IsPending(w', w'.issued[i].clear)
    ensures IssuedOk(w')
  {
    forall i | 0 <= i < |w'.issued| && w'.issued[i].name == PENDING_COOKIE_NAME
      ensures IsPending(w', w'.issued[i].clear)
    {
      if i < |w.issued| {
        assert w'.issued[i] == w.issued[i];
        var j :| 0 <= j < |w.logins| && w.issued[i].clear == PendingText(w.logins[j]);
        assert w'.logins[j] == w.logins[j];
      }
    }
  }

  lemma StartKeeps(sv: Server, w: World, l: Login, salt: nat)
    requires WorldOk(w) && FreshLogin(w, l)
    ensures WorldOk(Next(sv, w, Start(l, salt))) && Evolves(w, Next(sv, w, Start(l, salt)))
  {
    var w' := Next(sv, w, Start(l, salt));
    assert w'.logins[|w.logins|] == l && w'.issued[|w.issued|].clear == PendingText(l);
    IssuedStaysOk(w, w');
  }

  lemma NextKeeps(sv: Server, w: World, e: Event)
    requires WorldOk(w) && Enabled(sv, w, e)
    ensures WorldOk(Next(sv, w, e)) && Evolves(w, Next(sv, w, e))
  {
    match e
    case Start(l, salt) => StartKeeps(sv, w, l, salt);
    case Granted(_, _, _, _) => IssuedStaysOk(w, Next(sv, w, e));
    case Return(header, state, code, fault, now, salt) =>
      CallbackEvolves(sv, w, header, state, code, fault, now, salt);
      NamesDiffer();
      IssuedStaysOk(w, Next(sv, w, e));
  }

  lemma {:induction false} WorldsStayOk(sv: Server, worlds: seq<World>, events: seq<Event>, k: nat)
    requires Execution(sv, worlds, events) && k < |worlds|
    ensures WorldOk(worlds[k])
    decreases k
  {
    if k > 0 {
      WorldsStayOk(sv, worlds, events, k - 1);
      NextKeeps(sv, worlds[k - 1], events[k - 1]);
    }
  }

  lemma StepEvolves(sv: Server, worlds: seq<World>, events: seq<Event>, k: nat)
    requires Execution(sv, worlds, events) && k < |events|
    ensures Evolves(worlds[k], worlds[k + 1])
  {
    WorldsStayOk(sv, worlds, events, k);
    NextKeeps(sv, worlds[k], events[k]);
  }

  ghost predicate EvolvesAt(worlds: seq<World>, k: nat)
  {
    k + 1 < |worlds| ==> Evolves(worlds[k], worlds[k + 1])
  }

  lemma {:induction false} ChainEvolves(worlds: seq<World>, i: nat, k: nat)
    requires i <= k < |worlds| && forall j: nat :: EvolvesAt(worlds, j)
    ensures Evolves(worlds[i], worlds[k])
    decreases k
  {
    if i < k {
      ChainEvolves(worlds, i, k - 1);
      assert EvolvesAt(worlds, k - 1);
      EvolvesOnwards(worlds[i], worlds[k - 1], worlds[k]);
    } else {
      EvolvesNowhere(worlds[k]);
    }
  }

  /** What every run keeps between two of its states: the secrets of its logins stay distinct, every
      cookie sealed as pending is some login's, no login, cookie or account is forgotten, a redeemed
      code stays redeemed. */
  lemma RunKeeps(sv: Server, worlds: seq<World>, events: seq<Event>, i: nat, k: nat)
    requires Execution(sv, worlds, events) && i <= k < |worlds|
    ensures WorldOk(worlds[k]) && Evolves(worlds[i], worlds[k])
  {
    WorldsStayOk(sv, worlds, events, k);
    forall j: nat ensures EvolvesAt(worlds, j) {
      if j < |events| {
        StepEvolves(sv, worlds, events, j);
      }
    }
    ChainEvolves(worlds, i, k);
  }

  // ---------------------------------------------------------------------------------------------
  // Sessions
  // ---------------------------------------------------------------------------------------------

  lemma OpensUnderOneName(sv: Server, cookie: Sealed, name: string)
    requires Ideal(sv.vault)
    ensures sv.vault.open(sv.key, name, TextOf(sv, cookie)) == if name == cookie.name then Some(cookie.clear) else None
  {
    if name != cookie.name {
      assert (sv.key, name) != (sv.key, cookie.name);
      assert sv.vault.open(sv.key, name, sv.vault.seal(sv.key, cookie.name, cookie.clear, cookie.salt)) == None;
    }
  }

  /** A text that a client can send and that opens under a name was sealed under that name. */
  lemma OpensAsSealed(sv: Server, w: World, name: string, text: string)
    requires Ideal(sv.vault) && NotForged(sv, w, text) && sv.vault.open(sv.key, name, text).Some?
    ensures exists i | 0 <= i < |w.issued| ::
              w.issued[i].name == name && w.issued[i].clear == sv.vault.open(sv.key, name, text).value
  {
    var i :| 0 <= i < |w.issued| && text == TextOf(sv, w.issued[i]);
    var c := w.issued[i];
    OpensUnderOneName(sv, c, name);
  }

  /** Unforgeability of the pending slot, from the sealing: whatever header a client sends, what opens
      there is the printed secrets of one of the logins. */
  lemma PendingIsALogin(sv: Server, w: World, header: Option<string>)
    requires Ideal(sv.vault) && WorldOk(w) && Sendable(sv, w, header)
    ensures var clear := FindSealed(sv.vault, sv.key, header, PENDING_COOKIE_NAME);
            clear.Ok? ==>
              exists i | 0 <= i < |w.logins| ::
                clear.value == PendingText(w.logins[i]) && ReadPending(clear.value) == Some(w.logins[i])
  {
    var clear := FindSealed(sv.vault, sv.key, header, PENDING_COOKIE_NAME);
    if clear.Ok? {
      var text := FindValue(header.value, PENDING_COOKIE_NAME).value;
      OpensAsSealed(sv, w, PENDING_COOKIE_NAME, text);
      var c :| 0 <= c < |w.issued| && w.issued[c].name == PENDING_COOKIE_NAME && w.issued[c].clear == clear.value;
      assert IsPending(w, w.issued[c].clear);
      var i :| 0 <= i < |w.logins| && clear.value == PendingText(w.logins[i]);
      PendingRoundTrip(clear.value, w.logins[i]);
    }
  }

  /** A session cookie, or any cookie sealed under another name, in the pending slot is refused, and
      changes nothing. */
  lemma SwappedCookieIsRefused(sv: Server, w: World, header: string, cookie: Sealed, state: string, code: string,
                               fault: DbFault, now: nat, salt: nat)
    requires Ideal(sv.vault) && cookie.name != PENDING_COOKIE_NAME
    requires FindValue(header, PENDING_COOKIE_NAME) == Some(TextOf(sv, cookie))
    ensures Callback(sv, w, Some(header), state, code, fault, now, salt) == (w, Rejected(InvalidCallback))
  {
    OpensUnderOneName(sv, cookie, PENDING_COOKIE_NAME);
  }

  /** The logins of distinct secrets are told apart by their csrf. */
  lemma OneCsrf(w: World, i: nat)
    requires LoginsOk(w) && i < |w.logins|
    ensures forall j | 0 <= j < |w.logins| && w.logins[j].csrf == w.logins[i].csrf :: j == i
  {
  }

  /** The code was granted for this login's nonce and verifier, and is unredeemed. */
  predicate GrantedFor(p: Provider, code: string, l: Login)
  {
    code in p && !p[code].redeemed && p[code].nonce == l.nonce && p[code].challenge == S256(l.verifier)
  }

  /** What a callback that reads login `l` from its pending cookie does. */
  lemma CallbackOfLogin(sv: Server, w: World, header: Option<string>, state: string, code: string,
                        fault: DbFault, now: nat, salt: nat, l: Login)
    requires FindSealed(sv.vault, sv.key, header, PENDING_COOKIE_NAME) == Ok(PendingText(l))
    requires ReadPending(PendingText(l)) == Some(l)
    ensures var (w', reply) := Callback(sv, w, header, state, code, fault, now, salt);
            && (reply.SetSession? <==> fault == NoFault && state == l.csrf && GrantedFor(w.provider, code, l))
            && (state != l.csrf ==> w' == w && reply == Rejected(CsrfMismatch))
            && (state == l.csrf ==> w'.exchanges == w.exchanges + [Exchange(code, l.nonce, l.verifier)])
            && (reply.SetSession? ==>
                  var grant := w.provider[code];
                  && reply.identity == grant.identity
                  && w'.provider == w.provider[code := grant.(redeemed := true)]
                  && grant.identity.subject in w'.accounts
                  && w'.memberships == w.memberships[grant.identity.subject := Wanted(grant.groups)]
                  && w'.issued == w.issued + [Sealed(SESSION_COOKIE_NAME, sv.codec.write(grant.identity), salt)]
                  && reply.cookie == TextOf(sv, w'.issued[|w.issued|])
                  && reply.maxAge == MaxAge(sv.codec, grant.identity.idToken, now))
            && (reply.Rejected? ==> w'.issued == w.issued && w'.memberships == w.memberships)
            && (reply.Rejected? && reply.error != DatabaseFailure ==> w'.accounts == w.accounts)
  {
  }

  /** What its failures leave: a code of another nonce, verifier or login is refused by the provider,
      and spent only if the verifier was its own; a database failure comes after the code is spent,
      and leaves the account made exactly when it was the memberships that failed. */
  lemma CallbackFailures(sv: Server, w: World, header: Option<string>, state: string, code: string,
                         fault: DbFault, now: nat, salt: nat, l: Login)
    requires FindSealed(sv.vault, sv.key, header, PENDING_COOKIE_NAME) == Ok(PendingText(l))
    requires ReadPending(PendingText(l)) == Some(l) && state == l.csrf
    ensures var (w', reply) := Callback(sv, w, header, state, code, fault, now, salt);
            var spent := code in w.provider && !w.provider[code].redeemed &&
                         w.provider[code].challenge == S256(l.verifier);
            && w'.provider == (if spent then w.provider[code := w.provider[code].(redeemed := true)] else w.provider)
            && (reply == Rejected(OidcFailure) <==> !GrantedFor(w.provider, code, l))
            && (reply == Rejected(DatabaseFailure) <==> GrantedFor(w.provider, code, l) && fault != NoFault)
            && (reply == Rejected(DatabaseFailure) ==>
                  w'.accounts == w.accounts +
                                 if fault == AtGroups then {w.provider[code].identity.subject} else {})
  {
  }

  /** The subject is now in exactly the claimed groups whose name has a character that is no blank, and
      every other account is where it was. */
  predicate InTheGroups(before: map<string, set<string>>, after: map<string, set<string>>, subject: string,
                        claimed: seq<string>)
  {
    && subject in after
    && (forall g | g in after[subject] :: g in claimed && exists i | 0 <= i < |g| :: !Blank(g[i]))
    && (forall g | g in claimed && (exists i | 0 <= i < |g| :: !Blank(g[i])) :: g in after[subject])
    && after.Keys == before.Keys + {subject}
    && forall other | other in before && other != subject :: after[other] == before[other]
  }

  lemma PutInTheGroups(before: map<string, set<string>>, subject: string, claimed: seq<string>)
    ensures InTheGroups(before, before[subject := Wanted(claimed)], subject, claimed)
  {
    forall g ensures g in Wanted(claimed) <==> g in claimed && exists i | 0 <= i < |g| :: !Blank(g[i]) {
      WantedAreNamed(claimed, g);
    }
  }

  /** In every run, whatever sealed cookies clients replay, drop or swap, each session traces back to
      exactly one earlier login: its csrf is the `state` received, the exchange made for the session
      used its nonce and its verifier, and the code was granted for both, to the session's own
      identity. The code was unredeemed before and is redeemed from there on; the account exists, in
      exactly the groups claimed. */
  lemma SessionTracesToOneLogin(sv: Server, worlds: seq<World>, events: seq<Event>, k: nat)
    requires Ideal(sv.vault) && Execution(sv, worlds, events) && k < |events| && Opens(sv, worlds, events, k)
    ensures exists i | 0 <= i < |worlds[k].logins| ::
              var l := worlds[k].logins[i];
              && l.csrf == events[k].state
              && (forall j | 0 <= j < |worlds[k].logins| && worlds[k].logins[j].csrf == events[k].state :: j == i)
              && worlds[k + 1].exchanges == worlds[k].exchanges + [Exchange(events[k].code, l.nonce, l.verifier)]
              && GrantedFor(worlds[k].provider, events[k].code, l)
    ensures events[k].code in worlds[k].provider
    ensures var grant := worlds[k].provider[events[k].code];
            && Answer(sv, worlds[k], events[k]).identity == grant.identity
            && grant.identity.subject in worlds[k + 1].accounts && grant.identity.subject in worlds[k + 1].memberships
            && InTheGroups(worlds[k].memberships, worlds[k + 1].memberships, grant.identity.subject, grant.groups)
    ensures events[k].code in worlds[k + 1].provider && worlds[k + 1].provider[events[k].code].redeemed
  {
    RunKeeps(sv, worlds, events, k, k);
    assert Enabled(sv, worlds[k], events[k]);
    var w, e := worlds[k], events[k];
    PendingIsALogin(sv, w, e.header);
    var i :|
      0 <= i < |w.logins| &&
      FindSealed(sv.vault, sv.key, e.header, PENDING_COOKIE_NAME) == Ok(PendingText(w.logins[i])) &&
      ReadPending(PendingText(w.logins[i])) == Some(w.logins[i]);
    CallbackOfLogin(sv, w, e.header, e.state, e.code, e.fault, e.now, e.salt, w.logins[i]);
    OneCsrf(w, i);
    PutInTheGroups(w.memberships, w.provider[e.code].identity.subject, w.provider[e.code].groups);
  }

  /** A code opens at most one session in a run. */
  lemma CodeOpensOnce(sv: Server, worlds: seq<World>, events: seq<Event>, j: nat, k: nat)
    requires Ideal(sv.vault) && Execution(sv, worlds, events) && j < k < |events|
    requires Opens(sv, worlds, events, j) && Opens(sv, worlds, events, k)
    ensures events[j].code != events[k].code
  {
    SessionTracesToOneLogin(sv, worlds, events, j);
    SessionTracesToOneLogin(sv, worlds, events, k);
    RunKeeps(sv, worlds, events, j + 1, k);
  }

  /** A session means exactly this, against any such client: the first pending cookie of the header
      is one that a login sealed, whose csrf is the state received; the code is unredeemed and granted
      for that login's nonce and verifier; and the database answered. */
  lemma CallbackOpensExactly(sv: Server, w: World, header: Option<string>, state: string, code: string,
                             fault: DbFault, now: nat, salt: nat)
    requires Ideal(sv.vault) && WorldOk(w) && Sendable(sv, w, header)
    ensures Callback(sv, w, header, state, code, fault, now, salt).1.SetSession? <==>
            && fault == NoFault
            && exists i | 0 <= i < |w.logins| ::
                 && FindSealed(sv.vault, sv.key, header, PENDING_COOKIE_NAME) == Ok(PendingText(w.logins[i]))
                 && w.logins[i].csrf == state && GrantedFor(w.provider, code, w.logins[i])
  {
    var clear := FindSealed(sv.vault, sv.key, header, PENDING_COOKIE_NAME);
    if clear.Ok? {
      PendingIsALogin(sv, w, header);
      var i :|
        0 <= i < |w.logins| && clear.value == PendingText(w.logins[i]) && ReadPending(clear.value) == Some(w.logins[i]);
      CallbackOfLogin(sv, w, header, state, code, fault, now, salt, w.logins[i]);
      forall j | 0 <= j < |w.logins| && clear.value == PendingText(w.logins[j]) ensures w.logins[j] == w.logins[i] {
        PendingRoundTrip(clear.value, w.logins[j]);
      }
    }
  }

  /** A rejected callback seals no cookie and changes no membership; when it is rejected for its cookie
      or its state it changes nothing, so no code is lost and no account made. An exchange is only ever
      asked for the login whose csrf is the state received. */
  lemma RejectionIsQuiet(sv: Server, w: World, header: Option<string>, state: string, code: string,
                         fault: DbFault, now: nat, salt: nat)
    requires Ideal(sv.vault) && WorldOk(w) && Sendable(sv, w, header)
    ensures var (w', reply) := Callback(sv, w, header, state, code, fault, now, salt);
            && (reply == Rejected(InvalidCallback) || reply == Rejected(CsrfMismatch) ==> w' == w)
            && (reply.Rejected? ==> w'.issued == w.issued && w'.memberships == w.memberships)
            && (reply.Rejected? && reply.error != DatabaseFailure ==> w'.accounts == w.accounts)
            && (w'.exchanges != w.exchanges ==>
                  exists i | 0 <= i < |w.logins| ::
                    w.logins[i].csrf == state &&
                    w'.exchanges == w.exchanges + [Exchange(code, w.logins[i].nonce, w.logins[i].verifier)])
  {
    var clear := FindSealed(sv.vault, sv.key, header, PENDING_COOKIE_NAME);
    if clear.Ok? {
      PendingIsALogin(sv, w, header);
      var i :|
        0 <= i < |w.logins| && clear.value == PendingText(w.logins[i]) && ReadPending(clear.value) == Some(w.logins[i]);
      CallbackOfLogin(sv, w, header, state, code, fault, now, salt, w.logins[i]);
      RejectedByEntry(sv, w, header, state, code, fault, now, salt);
    }
  }

  /** Past the checks, a rejection is the provider's or the database's. */
  lemma RejectedByEntry(sv: Server, w: World, header: Option<string>, state: string, code: string,
                        fault: DbFault, now: nat, salt: nat)
    ensures var (w', reply) := Callback(sv, w, header, state, code, fault, now, salt);
            reply == Rejected(InvalidCallback) || reply == Rejected(CsrfMismatch) ==> w' == w
  {
  }

  /** The honest path works: a client who sends back its own pending cookie, first of its name
      among any others, with its state and a code granted for its login, gets a session. */
  lemma HonestLoginOpens(sv: Server, w: World, i: nat, pendingSalt: nat, segments: seq<string>, at: nat,
                         code: string, now: nat, salt: nat)
    requires Ideal(sv.vault) && LoginsOk(w) && i < |w.logins| && GrantedFor(w.provider, code, w.logins[i])
    requires FirstPair(segments, at, PENDING_COOKIE_NAME,
                       sv.vault.seal(sv.key, PENDING_COOKIE_NAME, PendingText(w.logins[i]), pendingSalt))
    ensures var reply := Callback(sv, w, Some(Join(segments, ';')), w.logins[i].csrf, code, NoFault, now, salt).1;
            reply.SetSession? && reply.identity == w.provider[code].identity
  {
    PairIsFound(segments, at, PENDING_COOKIE_NAME,
                sv.vault.seal(sv.key, PENDING_COOKIE_NAME, PendingText(w.logins[i]), pendingSalt));
    PendingRoundTrip(PendingText(w.logins[i]), w.logins[i]);
    CallbackOfLogin(sv, w, Some(Join(segments, ';')), w.logins[i].csrf, code, NoFault, now, salt, w.logins[i]);
  }

  // ---------------------------------------------------------------------------------------------
  // Accepted sessions
  // ---------------------------------------------------------------------------------------------

  /** Some step before k answered with a session whose payload is `clear`. */
  ghost predicate OpenedBefore(sv: Server, worlds: seq<World>, events: seq<Event>, k: nat, clear: string)
    requires |worlds| == |events| + 1
  {
    exists j | 0 <= j < k && j < |events| ::
      Opens(sv, worlds, events, j) && clear == sv.codec.write(Answer(sv, worlds[j], events[j]).identity)
  }

  lemma StepIssues(sv: Server, worlds: seq<World>, events: seq<Event>, k: nat, c: nat)
    requires Execution(sv, worlds, events) && k < |events|
    requires |worlds[k].issued| <= c < |worlds[k + 1].issued| && worlds[k + 1].issued[c].name == SESSION_COOKIE_NAME
    ensures Opens(sv, worlds, events, k)
    ensures worlds[k + 1].issued[c].clear == sv.codec.write(Answer(sv, worlds[k], events[k]).identity)
  {
    assert worlds[k + 1] == Next(sv, worlds[k], events[k]);
    NamesDiffer();
  }

  /** The step that sealed a cookie. */
  lemma {:induction false} SealedAt(worlds: seq<World>, k: nat, c: nat) returns (j: nat)
    requires k < |worlds| && worlds[0].issued == [] && (forall j: nat :: EvolvesAt(worlds, j))
    requires c < |worlds[k].issued|
    ensures j < k && |worlds[j].issued| <= c < |worlds[j + 1].issued| && worlds[j + 1].issued[c] == worlds[k].issued[c]
    decreases k
  {
    assert EvolvesAt(worlds, k - 1);
    if c < |worlds[k - 1].issued| {
      j := SealedAt(worlds, k - 1, c);
    } else {
      j := k - 1;
    }
  }

  /** Every session cookie the server sealed was the answer of an earlier callback. */
  lemma SessionsWereOpened(sv: Server, worlds: seq<World>, events: seq<Event>, k: nat, c: nat)
    requires Execution(sv, worlds, events) && k < |worlds|
    requires c < |worlds[k].issued| && worlds[k].issued[c].name == SESSION_COOKIE_NAME
    ensures OpenedBefore(sv, worlds, events, k, worlds[k].issued[c].clear)
  {
    forall j: nat ensures EvolvesAt(worlds, j) {
      if j < |events| {
        StepEvolves(sv, worlds, events, j);
      }
    }
    var j := SealedAt(worlds, k, c);
    StepIssues(sv, worlds, events, j, c);
  }

  /** Whoever presents, at any point of any run, a header that `extract_session` accepts, presents a
      session that some earlier callback opened for that very identity; with `SessionTracesToOneLogin`,
      it traces to one login. Pending cookies, foreign keys and swapped names never get in. */
  lemma AcceptedSessionWasOpened(sv: Server, worlds: seq<World>, events: seq<Event>, k: nat, header: Option<string>,
                                 now: nat)
    requires Ideal(sv.vault) && Faithful(sv.codec) && Execution(sv, worlds, events) && k < |worlds|
    requires Sendable(sv, worlds[k], header)
    requires ExtractSession(sv.vault, sv.codec, sv.key, header, now).Ok?
    ensures exists j | 0 <= j < k ::
              Opens(sv, worlds, events, j) &&
              Answer(sv, worlds[j], events[j]).identity == ExtractSession(sv.vault, sv.codec, sv.key, header, now).value
  {
    var identity := ExtractSession(sv.vault, sv.codec, sv.key, header, now).value;
    var text := FindValue(header.value, SESSION_COOKIE_NAME).value;
    var clear := FindSealed(sv.vault, sv.key, header, SESSION_COOKIE_NAME).value;
    OpensAsSealed(sv, worlds[k], SESSION_COOKIE_NAME, text);
    var c :|
      0 <= c < |worlds[k].issued| && worlds[k].issued[c].name == SESSION_COOKIE_NAME &&
      worlds[k].issued[c].clear == clear;
    SessionsWereOpened(sv, worlds, events, k, c);
    var j :|
      0 <= j < k && Opens(sv, worlds, events, j) && clear == sv.codec.write(Answer(sv, worlds[j], events[j]).identity);
    assert sv.codec.read(clear) == Some(Answer(sv, worlds[j], events[j]).identity);
  }
}
