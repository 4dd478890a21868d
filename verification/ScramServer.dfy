/**
 The server's tables of handshakes and tokens, the steps that change them, and a client that logs in
 through them. Clocks and random values are parameters.
 */
module ScramServer {
  import opened Results
  import opened ScramText
  import opened Scram

  const HANDSHAKE_TIMEOUT := 60
  const MAX_HANDSHAKES := 1000
  const TOKEN_LIFETIME := 3600
  const MAX_TOKENS := 10000

  datatype TokenEntry = TokenEntry(username: string, created: int)

  datatype Response = Response(status: nat, headers: Params, body: string)

  const CHALLENGE := Response(401, map["WWW-Authenticate" := "SCRAM hash=SHA-256"], "")
  const FORBIDDEN := Response(403, map[], "Authentication failed")

  // The headers that carry tokens.

  function HelloReply(token: string): string {
    "SCRAM" + " " + "hash=SHA-256" + "," + " " + "handshakeToken=" + token
  }

  function Step1Reply(token: string, data: string): string {
    "SCRAM" + " " + "handshakeToken=" + token + "," + " " + "hash=SHA-256" + "," + " " + "data=" + data
  }

  function AuthInfo(token: string, data: string): string {
    "authToken=" + token + "," + " " + "data=" + data
  }

  predicate LiveHandshake(h: Handshake, now: int) { now - h.created <= HANDSHAKE_TIMEOUT }

  predicate LiveToken(t: TokenEntry, now: int) { now - t.created <= TOKEN_LIFETIME }

  function LiveHandshakes(handshakes: map<string, Handshake>, now: int): map<string, Handshake> {
    map k | k in handshakes && LiveHandshake(handshakes[k], now) :: handshakes[k]
  }

  function LiveTokens(tokens: map<string, TokenEntry>, now: int): map<string, TokenEntry> {
    map k | k in tokens && LiveToken(tokens[k], now) :: tokens[k]
  }

  /** The user name of a HELLO header, if it decodes. */
  function HelloUser(c: Crypto, header: string): Option<string> {
    match c.unb64url(Param(HeaderParams(header), "username"))
    case None => None
    case Some(bytes) => c.unutf8(bytes)
  }

  /** The message in a SCRAM header, if it decodes. */
  function ScramData(c: Crypto, header: string): Option<string> {
    match c.unb64url(Param(HeaderParams(header), "data"))
    case None => None
    case Some(bytes) => c.unutf8(bytes)
  }

  /** The handshakes that are left keep their HELLO. */
  ghost function Kept(origin: map<string, nat>, handshakes: map<string, Handshake>): map<string, nat> {
    map k | k in origin && k in handshakes :: origin[k]
  }

  class Server {
    const crypto: Crypto
    const credentials: string -> Option<Credentials>
    var handshakes: map<string, Handshake>
    var tokens: map<string, TokenEntry>

    // The history behind the tables: the user of each accepted HELLO, the HELLO behind each handshake,
    // the HELLOs that led to a token, and the HELLO behind each token.
    ghost var hellos: seq<string>
    ghost var origin: map<string, nat>
    ghost var granted: set<nat>
    ghost var issuer: map<string, nat>

    /** The tables are within their limits, every handshake and token stems from one accepted HELLO of its user, and no
        two of them from the same. */
    ghost predicate Valid()
      reads this
    {
      && |handshakes| <= MAX_HANDSHAKES && |tokens| <= MAX_TOKENS
      && Traced(handshakes, hellos, origin, granted)
      && Issued(tokens, hellos, granted, issuer)
    }

    constructor (crypto: Crypto, credentials: string -> Option<Credentials>)
      ensures Valid() && this.crypto == crypto && this.credentials == credentials
      ensures handshakes == map[] && tokens == map[] && hellos == [] && granted == {}
    {
      this.crypto, this.credentials := crypto, credentials;
      handshakes, tokens := map[], map[];
      hellos, origin, granted, issuer := [], map[], {}, map[];
    }

    method PurgeHandshakes(now: int)
      requires Valid()
      modifies this`handshakes, this`origin
      ensures Valid() && handshakes == LiveHandshakes(old(handshakes), now) && origin == Kept(old(origin), handshakes)
      ensures forall k :: k in handshakes <==> k in old(handshakes) && now - old(handshakes)[k].created <= HANDSHAKE_TIMEOUT
      ensures forall k :: k in handshakes ==> handshakes[k] == old(handshakes)[k]
    {
      hide Traced, Issued, LiveHandshake, Kept;
      KeptAll(handshakes, hellos, origin, granted);
      var todo := handshakes.Keys;
      while todo != {}
        invariant Valid() && todo <= handshakes.Keys
        invariant handshakes == map k | k in old(handshakes) && (k in todo || LiveHandshake(old(handshakes)[k], now)) :: old(handshakes)[k]
        invariant origin == Kept(old(origin), handshakes)
      {
        var k :| k in todo;
        todo := todo - {k};
        if !LiveHandshake(handshakes[k], now) {
          KeptDrop(old(origin), handshakes, k);
          DropHandshake(k);
        }
      }
      LiveMeans(now);
    }

    method PurgeTokens(now: int)
      requires Valid()
      modifies this`tokens
      ensures Valid() && tokens == LiveTokens(old(tokens), now)
      ensures forall k :: k in tokens <==> k in old(tokens) && now - old(tokens)[k].created <= TOKEN_LIFETIME
      ensures forall k :: k in tokens ==> tokens[k] == old(tokens)[k]
    {
      hide Traced, Issued, LiveToken;
      var todo := tokens.Keys;
      while todo != {}
        invariant Valid() && todo <= tokens.Keys
        invariant tokens == map k | k in old(tokens) && (k in todo || LiveToken(old(tokens)[k], now)) :: old(tokens)[k]
      {
        var k :| k in todo;
        todo := todo - {k};
        if !LiveToken(tokens[k], now) {
          DropToken(k);
        }
      }
      LiveMeans(now);
    }

    /** `handshakes.pop(token, None)` */
    method DropHandshake(token: string)
      requires Valid()
      modifies this`handshakes, this`origin
      ensures Valid() && handshakes == old(handshakes) - {token} && origin == old(origin) - {token}
    {
      hide Traced, Issued;
      ghost var kept := handshakes - {token};
      assert |kept| <= MAX_HANDSHAKES by { DroppedSize(handshakes, token); }
      TracedDrop(handshakes, hellos, origin, granted, token);
      handshakes := handshakes - {token};
      origin := origin - {token};
    }

    method DropToken(token: string)
      requires Valid()
      modifies this`tokens
      ensures Valid() && tokens == old(tokens) - {token}
      ensures token in old(tokens) ==> |tokens| < |old(tokens)|
    {
      hide Traced, Issued;
      DroppedSize(tokens, token);
      IssuedDrop(tokens, hellos, granted, issuer, token);
      tokens := tokens - {token};
    }

    /** HELLO: a new handshake for a known user, as long as there is room. */
    method Hello(header: string, token: string, now: int) returns (r: Response)
      requires Valid()
      modifies this
      ensures Valid() && tokens == old(tokens) && granted == old(granted) && issuer == old(issuer)
      ensures var user := HelloUser(crypto, header);
              if user.None? || credentials(user.value).None? then
                r == CHALLENGE && handshakes == old(handshakes) && origin == old(origin) && hellos == old(hellos)
              else if |LiveHandshakes(old(handshakes), now)| >= MAX_HANDSHAKES then
                && r == CHALLENGE && hellos == old(hellos)
                && handshakes == LiveHandshakes(old(handshakes), now) && origin == Kept(old(origin), handshakes)
              else
                && r == Response(401, map["WWW-Authenticate" := HelloReply(token)], "")
                && handshakes == LiveHandshakes(old(handshakes), now)[token := NewHandshake(user.value, credentials(user.value).value, now)]
                && hellos == old(hellos) + [user.value]
                && origin == Kept(old(origin), LiveHandshakes(old(handshakes), now))[token := |old(hellos)|]
    {
      hide HeaderParams, LiveHandshake, LiveHandshakes, Kept, HelloReply, Traced, Issued;
      var params := ParseHeaderParams(header);
      var bytes := crypto.unb64url(Param(params, "username"));
      if bytes.None? {
        return CHALLENGE;
      }
      var user := crypto.unutf8(bytes.value);
      if user.None? {
        return CHALLENGE;
      }
      var creds := credentials(user.value);
      if creds.None? {
        return CHALLENGE;
      }
      PurgeHandshakes(now);
      if |handshakes| >= MAX_HANDSHAKES {
        return CHALLENGE;
      }
      var state := NewHandshake(user.value, creds.value, now);
      OneMore(handshakes, token, state);
      TracedHello(handshakes, tokens, hellos, origin, granted, issuer, token, state);
      handshakes := handshakes[token := state];
      origin := origin[token := |hellos|];
      hellos := hellos + [user.value];
      return Response(401, map["WWW-Authenticate" := HelloReply(token)], "");
    }

    /** Client-first: the handshake moves to a new token, with its nonce and auth message. */
    method ScramStep1(token: string, state: Handshake, clientFirst: string, random: Bytes, newToken: string) returns (r: Response)
      requires Valid() && token in handshakes && handshakes[token] == state
      modifies this`handshakes, this`origin
      ensures Valid()
      ensures match Step1(crypto, state, clientFirst, random)
              case None => r == CHALLENGE && handshakes == old(handshakes) && origin == old(origin)
              case Some(reply) =>
                && handshakes == old(handshakes)[newToken := reply.0] - {token}
                && origin == old(origin)[newToken := old(origin)[token]] - {token}
                && r == Response(401, map["WWW-Authenticate" := Step1Reply(newToken, crypto.b64url(crypto.utf8(reply.1)))], "")
    {
      hide AuthMessage, ParsedMsg, Traced, Issued;
      var reply := Step1(crypto, state, clientFirst, random);
      if reply.None? {
        return CHALLENGE;
      }
      assert reply.value.0.username == state.username;
      MovedSize(handshakes, token, newToken, reply.value.0);
      TracedMove(handshakes, hellos, origin, granted, token, newToken, reply.value.0);
      handshakes := handshakes[newToken := reply.value.0];
      handshakes := handshakes - {token};
      origin := origin[newToken := origin[token]] - {token};
      return Response(401, map["WWW-Authenticate" := Step1Reply(newToken, crypto.b64url(crypto.utf8(reply.value.1)))], "");
    }

    /** Client-final: the handshake ends; an accepted proof is granted a token. */
    method ScramStep2(token: string, state: Handshake, clientFinal: string, authToken: string, now: int) returns (r: Response)
      requires Valid() && token in handshakes && handshakes[token] == state
      modifies this
      ensures Valid() && hellos == old(hellos)
      ensures handshakes == old(handshakes) - {token} && origin == old(origin) - {token}
      ensures match Step2(crypto, state, clientFinal)
              case Unauthorized => r == CHALLENGE && tokens == old(tokens) && granted == old(granted) && issuer == old(issuer)
              case Forbidden => r == FORBIDDEN && tokens == old(tokens) && granted == old(granted) && issuer == old(issuer)
              case Accepted(serverFinal) =>
                && r == Response(200, map["Authentication-Info" := AuthInfo(authToken, crypto.b64url(crypto.utf8(serverFinal)))], "")
                && authToken in tokens && tokens[authToken] == TokenEntry(state.username, now)
                && EvictedTo(LiveTokens(old(tokens), now), tokens - {authToken}, authToken)
                && old(origin[token]) !in old(granted) && granted == old(granted) + {old(origin[token])}
                && issuer == old(issuer)[authToken := old(origin[token])]
                && old(origin[token]) < |hellos| && hellos[old(origin[token])] == state.username
    {
      hide Step2, Traced, Issued, LiveTokens, EvictedTo;
      TracedGrant(handshakes, hellos, origin, granted, token);
      ghost var hello := origin[token];
      DropHandshake(token);
      match Step2(crypto, state, clientFinal) {
        case Unauthorized => return CHALLENGE;
        case Forbidden => return FORBIDDEN;
        case Accepted(serverFinal) =>
          GrantToken(hello, state.username, authToken, now);
          return Response(200, map["Authentication-Info" := AuthInfo(authToken, crypto.b64url(crypto.utf8(serverFinal)))], "");
      }
    }

    /** Store a token, after purging the expired ones and, if the table is full, evicting an oldest one. */
    method GrantToken(ghost hello: nat, username: string, authToken: string, now: int)
      requires Valid() && hello < |hellos| && hellos[hello] == username && hello !in granted
      requires Traced(handshakes, hellos, origin, granted + {hello})
      modifies this`tokens, this`granted, this`issuer
      ensures Valid() && granted == old(granted) + {hello} && issuer == old(issuer)[authToken := hello]
      ensures authToken in tokens && tokens[authToken] == TokenEntry(username, now)
      ensures EvictedTo(LiveTokens(old(tokens), now), tokens - {authToken}, authToken)
    {
      hide Traced, Issued, LiveTokens, Evicted;
      MakeRoom(now);
      var entry := TokenEntry(username, now);
      ghost var kept := tokens;
      IssuedGrant(kept, hellos, granted, issuer, hello, authToken, entry);
      OneMore(kept, authToken, entry);
      RemoveAdded(kept, authToken, entry);
      tokens := tokens[authToken := entry];
      issuer := issuer[authToken := hello];
      granted := granted + {hello};
    }

    /** Purge the expired tokens and, if the table is still full, evict an oldest one. */
    method MakeRoom(now: int)
      requires Valid()
      modifies this`tokens
      ensures Valid() && |tokens| < MAX_TOKENS
      ensures Evicted(LiveTokens(old(tokens), now), tokens)
    {
      hide Traced, Issued, LiveTokens;
      PurgeTokens(now);
      if |tokens| >= MAX_TOKENS {
        var oldest := OldestToken();
        DropToken(oldest);
      }
    }

    /** A token with the least creation time. */
    method OldestToken() returns (oldest: string)
      requires tokens != map[]
      ensures oldest in tokens && forall k :: k in tokens ==> tokens[oldest].created <= tokens[k].created
    {
      oldest :| oldest in tokens;
      var todo := tokens.Keys;
      while todo != {}
        invariant todo <= tokens.Keys && oldest in tokens
        invariant forall k :: k in tokens && k !in todo ==> tokens[oldest].created <= tokens[k].created
      {
        var k :| k in todo;
        todo := todo - {k};
        if tokens[k].created < tokens[oldest].created {
          oldest := k;
        }
      }
    }

    /** One SCRAM header: an unknown or late handshake, or data that does not decode, ends it. */
    method HandleScram(header: string, random: Bytes, newToken: string, authToken: string, now: int) returns (r: Response)
      requires Valid()
      modifies this
      ensures Valid() && hellos == old(hellos)
      ensures r.status != 200 ==> tokens == old(tokens) && granted == old(granted) && issuer == old(issuer)
      ensures var token := Param(HeaderParams(header), "handshakeToken");
              r != CHALLENGE ==> token in old(handshakes) && now - old(handshakes)[token].created <= HANDSHAKE_TIMEOUT
      ensures var token := Param(HeaderParams(header), "handshakeToken");
              var data := ScramData(crypto, header);
              if token !in old(handshakes) || !LiveHandshake(old(handshakes)[token], now) || data.None? then
                r == CHALLENGE && handshakes == old(handshakes) - {token} && origin == old(origin) - {token}
              else if old(handshakes)[token].step == 1 then
                match Step1(crypto, old(handshakes)[token], data.value, random)
                case None => r == CHALLENGE && handshakes == old(handshakes) && origin == old(origin)
                case Some(reply) =>
                  && handshakes == old(handshakes)[newToken := reply.0] - {token}
                  && origin == old(origin)[newToken := old(origin)[token]] - {token}
                  && r == Response(401, map["WWW-Authenticate" := Step1Reply(newToken, crypto.b64url(crypto.utf8(reply.1)))], "")
              else if old(handshakes)[token].step == 2 then
                && handshakes == old(handshakes) - {token} && origin == old(origin) - {token}
                && match Step2(crypto, old(handshakes)[token], data.value)
                   case Unauthorized => r == CHALLENGE
                   case Forbidden => r == FORBIDDEN
                   case Accepted(serverFinal) =>
                     && r == Response(200, map["Authentication-Info" := AuthInfo(authToken, crypto.b64url(crypto.utf8(serverFinal)))], "")
                     && authToken in tokens && tokens[authToken] == TokenEntry(old(handshakes)[token].username, now)
                     && EvictedTo(LiveTokens(old(tokens), now), tokens - {authToken}, authToken)
                     && old(origin)[token] !in old(granted) && granted == old(granted) + {old(origin)[token]}
                     && issuer == old(issuer)[authToken := old(origin)[token]]
                     && old(origin)[token] < |hellos| && hellos[old(origin)[token]] == old(handshakes)[token].username
              else
                r == CHALLENGE && handshakes == old(handshakes) - {token} && origin == old(origin) - {token}
    {
      hide HeaderParams, Step1, Step2, LiveHandshake, LiveTokens, EvictedTo, Traced, Issued;
      LiveMeans(now);
      var params := ParseHeaderParams(header);
      var token := Param(params, "handshakeToken");
      if token !in handshakes || !LiveHandshake(handshakes[token], now) {
        DropHandshake(token);
        return CHALLENGE;
      }
      var state := handshakes[token];
      var bytes := crypto.unb64url(Param(params, "data"));
      var data := if bytes.None? then None else crypto.unutf8(bytes.value);
      if data.None? {
        DropHandshake(token);
        return CHALLENGE;
      }
      if state.step == 1 {
        r := ScramStep1(token, state, data.value, random, newToken);
        return;
      }
      if state.step == 2 {
        r := ScramStep2(token, state, data.value, authToken, now);
        return;
      }
      DropHandshake(token);
      return CHALLENGE;
    }

    /** None if the token of a bearer header is live; an expired one is dropped. */
    method ValidateBearer(header: string, now: int) returns (r: Option<Response>)
      requires Valid()
      modifies this`tokens
      ensures Valid()
      ensures var token := Param(HeaderParams(header), "authToken");
              if token in old(tokens) && LiveToken(old(tokens)[token], now)
              then r.None? && tokens == old(tokens)
              else r == Some(CHALLENGE) && tokens == old(tokens) - {token}
      ensures r.None? ==> var token := Param(HeaderParams(header), "authToken");
                          token in tokens && now - tokens[token].created <= TOKEN_LIFETIME
    {
      hide HeaderParams;
      var params := ParseHeaderParams(header);
      var token := Param(params, "authToken");
      if token !in tokens || !LiveToken(tokens[token], now) {
        DropToken(token);
        return Some(CHALLENGE);
      }
      return None;
    }
  }

  // ---- The history behind the tables ----------------------------------------------------------------

  /** Each handshake stems from its own accepted HELLO, of its user, that has not led to a token yet. */
  ghost predicate Traced(handshakes: map<string, Handshake>, hellos: seq<string>, origin: map<string, nat>, granted: set<nat>) {
    && origin.Keys == handshakes.Keys
    && (forall k :: k in handshakes ==> origin[k] < |hellos| && handshakes[k].username == hellos[origin[k]] && origin[k] !in granted)
    && forall k, l :: k in handshakes && l in handshakes && k != l ==> origin[k] != origin[l]
  }

  /** Each token stems from its own accepted HELLO, of its user. */
  ghost predicate Issued(tokens: map<string, TokenEntry>, hellos: seq<string>, granted: set<nat>, issuer: map<string, nat>) {
    && (forall h :: h in granted ==> h < |hellos|)
    && (forall k :: k in tokens ==> k in issuer && issuer[k] in granted && tokens[k].username == hellos[issuer[k]])
    && forall k, l :: k in tokens && l in tokens && k != l ==> issuer[k] != issuer[l]
  }

  /** All of them, or, if the table was full, all but one that is no younger than any other. */
  ghost predicate Evicted(live: map<string, TokenEntry>, kept: map<string, TokenEntry>) {
    if |live| < MAX_TOKENS then kept == live
    else exists k :: k in live && kept == live - {k} && forall l :: l in live ==> live[k].created <= live[l].created
  }

  /** After eviction, apart from the new token. */
  ghost predicate EvictedTo(live: map<string, TokenEntry>, rest: map<string, TokenEntry>, newToken: string) {
    exists kept :: Evicted(live, kept) && rest == kept - {newToken}
  }

  lemma LiveMeans(now: int)
    ensures forall h: Handshake :: LiveHandshake(h, now) <==> now - h.created <= HANDSHAKE_TIMEOUT
    ensures forall t: TokenEntry :: LiveToken(t, now) <==> now - t.created <= TOKEN_LIFETIME
  {
  }

  lemma KeptAll(handshakes: map<string, Handshake>, hellos: seq<string>, origin: map<string, nat>, granted: set<nat>)
    requires Traced(handshakes, hellos, origin, granted)
    ensures origin == Kept(origin, handshakes)
  {
  }

  lemma KeptDrop(origin: map<string, nat>, handshakes: map<string, Handshake>, k: string)
    ensures Kept(origin, handshakes - {k}) == Kept(origin, handshakes) - {k}
  {
  }

  lemma TracedDrop(handshakes: map<string, Handshake>, hellos: seq<string>, origin: map<string, nat>, granted: set<nat>, k: string)
    requires Traced(handshakes, hellos, origin, granted)
    ensures Traced(handshakes - {k}, hellos, origin - {k}, granted)
  {
  }

  lemma TracedHello(handshakes: map<string, Handshake>, tokens: map<string, TokenEntry>, hellos: seq<string>,
                    origin: map<string, nat>, granted: set<nat>, issuer: map<string, nat>, k: string, state: Handshake)
    requires Traced(handshakes, hellos, origin, granted) && Issued(tokens, hellos, granted, issuer)
    ensures Traced(handshakes[k := state], hellos + [state.username], origin[k := |hellos|], granted)
    ensures Issued(tokens, hellos + [state.username], granted, issuer)
  {
  }

  lemma TracedMove(handshakes: map<string, Handshake>, hellos: seq<string>, origin: map<string, nat>, granted: set<nat>,
                   k: string, l: string, state: Handshake)
    requires Traced(handshakes, hellos, origin, granted) && k in handshakes && state.username == handshakes[k].username
    ensures k in origin && Traced(handshakes[l := state] - {k}, hellos, origin[l := origin[k]] - {k}, granted)
  {
  }

  /** Granting a token to the HELLO behind a handshake touches no other handshake. */
  lemma TracedGrant(handshakes: map<string, Handshake>, hellos: seq<string>, origin: map<string, nat>, granted: set<nat>, k: string)
    requires Traced(handshakes, hellos, origin, granted) && k in handshakes
    ensures k in origin && origin[k] !in granted && origin[k] < |hellos| && handshakes[k].username == hellos[origin[k]]
    ensures Traced(handshakes - {k}, hellos, origin - {k}, granted + {origin[k]})
  {
  }

  lemma IssuedDrop(tokens: map<string, TokenEntry>, hellos: seq<string>, granted: set<nat>, issuer: map<string, nat>, k: string)
    requires Issued(tokens, hellos, granted, issuer)
    ensures Issued(tokens - {k}, hellos, granted, issuer)
  {
  }

  lemma IssuedGrant(tokens: map<string, TokenEntry>, hellos: seq<string>, granted: set<nat>, issuer: map<string, nat>,
                    hello: nat, k: string, entry: TokenEntry)
    requires Issued(tokens, hellos, granted, issuer) && hello < |hellos| && entry.username == hellos[hello] && hello !in granted
    ensures Issued(tokens[k := entry], hellos, granted + {hello}, issuer[k := hello])
  {
  }

  lemma DroppedSize<T>(m: map<string, T>, k: string)
    ensures |m - {k}| == if k in m then |m| - 1 else |m|
  {
    var n := m - {k};
    assert n.Keys == m.Keys - {k};
    assert |n| == |n.Keys| && |m| == |m.Keys|;
  }

  lemma RemoveAdded<T>(m: map<string, T>, k: string, v: T)
    ensures m[k := v] - {k} == m - {k}
  {
  }

  lemma OneMore<T>(m: map<string, T>, k: string, v: T)
    ensures |m[k := v]| <= |m| + 1
  {
    var n := m[k := v];
    assert n.Keys == m.Keys + {k};
    assert |n| == |n.Keys| && |m| == |m.Keys|;
    if k in m {
      assert n.Keys == m.Keys;
    }
  }

  lemma MovedSize<T>(m: map<string, T>, k: string, l: string, v: T)
    requires k in m
    ensures |m[l := v] - {k}| <= |m|
  {
    var n := m[l := v] - {k};
    assert n.Keys == m.Keys - {k} + (if l == k then {} else {l});
    assert |n| == |n.Keys| && |m| == |m.Keys|;
    assert |m.Keys - {k}| == |m.Keys| - 1;
  }
}
