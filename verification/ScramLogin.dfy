/** A client logging in over the server's headers, and that an honest login succeeds. */
module ScramLogin {
  import opened Results
  import opened ScramText
  import opened Scram
  import opened ScramServer
  import Text

  predicate UrlText(s: string) { forall i :: 0 <= i < |s| ==> UrlChar(s[i]) }

  // ---- The headers of the exchange ------------------------------------------------------------

  function HelloHeader(user: string): string { "HELLO" + " " + "username=" + user }

  function ScramHeader(token: string, data: string): string {
    "SCRAM" + " " + "handshakeToken=" + token + "," + " " + "data=" + data
  }

  lemma UrlPair(key: string, val: string)
    requires UrlText(key) && UrlText(val)
    ensures HeaderPair(Pair(key, val))
  {
  }

  lemma PairsMap(p: Pair, q: Pair)
    ensures MapOf([p, q]) == map[p.key := p.val][q.key := q.val]
  {
    assert [p, q][..1] == [p] && [p][..0] == [];
    assert MapOf([p]) == MapOf([])[p.key := p.val];
  }

  /** One parameter after a scheme. */
  lemma OneParam(scheme: string, p: Pair, key: string)
    requires SchemeName(scheme) && HeaderPair(p) && key == p.key + "="
    ensures HeaderParams(scheme + " " + key + p.val) == map[p.key := p.val]
  {
    hide HeaderParams, SchemeName, HeaderPair;
    OneSpaced(p);
    Text.Assoc(scheme + " ", key, p.val);
    HeaderReads(scheme, [p]);
    assert MapOf([p]) == MapOf([])[p.key := p.val] by { assert [p][..0] == []; }
  }

  lemma TwoLaidOut(a: string, b: string, c: string, d: string)
    ensures a + "," + (" " + (c + d)) == a + "," + " " + c + d
    ensures b + (a + "," + (" " + (c + d))) == b + a + "," + " " + c + d
  {
  }

  lemma ThreeLaidOut(a: string, b: string, c: string, d: string, e: string)
    ensures b + (a + "," + (" " + c) + "," + (" " + (d + e))) == b + a + "," + " " + c + "," + " " + d + e
  {
  }

  /** Two parameters after a scheme. */
  lemma TwoParams(scheme: string, p: Pair, q: Pair, key: string)
    requires SchemeName(scheme) && HeaderPair(p) && HeaderPair(q) && key == q.key + "="
    ensures HeaderParams(scheme + " " + PairText(p) + "," + " " + key + q.val) == map[p.key := p.val][q.key := q.val]
  {
    hide HeaderParams, SchemeName, HeaderPair;
    TwoSpaced(p, q);
    TwoLaidOut(PairText(p), scheme + " ", key, q.val);
    HeaderReads(scheme, [p, q]);
    PairsMap(p, q);
  }

  lemma HelloHeaderReads(user: string)
    requires UrlText(user)
    ensures Param(HeaderParams(HelloHeader(user)), "username") == user
  {
    hide HeaderParams;
    UrlPair("username", user);
    OneParam("HELLO", Pair("username", user), "username=");
  }

  lemma HelloReplyReads(token: string)
    requires UrlText(token)
    ensures Param(HeaderParams(HelloReply(token)), "handshakeToken") == token
  {
    hide HeaderParams;
    UrlPair("hash", "SHA-256");
    UrlPair("handshakeToken", token);
    assert PairText(Pair("hash", "SHA-256")) == "hash=SHA-256";
    TwoParams("SCRAM", Pair("hash", "SHA-256"), Pair("handshakeToken", token), "handshakeToken=");
  }

  lemma ScramHeaderReads(token: string, data: string)
    requires UrlText(token) && UrlText(data)
    ensures var params := HeaderParams(ScramHeader(token, data));
            Param(params, "handshakeToken") == token && Param(params, "data") == data
  {
    hide HeaderParams;
    UrlPair("handshakeToken", token);
    UrlPair("data", data);
    Text.Assoc("SCRAM" + " ", "handshakeToken=", token);
    assert PairText(Pair("handshakeToken", token)) == "handshakeToken=" + token;
    TwoParams("SCRAM", Pair("handshakeToken", token), Pair("data", data), "data=");
  }

  lemma ScramIsScheme()
    ensures SchemeName("SCRAM")
  {
  }

  lemma Step1ReplyReads(token: string, data: string)
    requires UrlText(token) && UrlText(data)
    ensures HeaderParams(Step1Reply(token, data)) == map["handshakeToken" := token, "hash" := "SHA-256", "data" := data]
  {
    hide HeaderParams, HeaderPair, SchemeName;
    ScramIsScheme();
    var p, q, r := Pair("handshakeToken", token), Pair("hash", "SHA-256"), Pair("data", data);
    UrlPair("handshakeToken", token);
    UrlPair("hash", "SHA-256");
    UrlPair("data", data);
    ThreeSpaced(p, q, r);
    Text.Assoc("SCRAM" + " ", "handshakeToken=", token);
    assert PairText(p) == "handshakeToken=" + token;
    assert PairText(q) == "hash=SHA-256";
    assert PairText(r) == "data=" + data;
    ThreeLaidOut(PairText(p), "SCRAM" + " ", PairText(q), "data=", data);
    HeaderReads("SCRAM", [p, q, r]);
    PairsMap(p, q);
    assert MapOf([p, q, r]) == MapOf([p, q])[r.key := r.val] by { assert [p, q, r][..2] == [p, q]; }
  }

  lemma AuthInfoReads(token: string, data: string)
    requires UrlText(token) && UrlText(data)
    ensures HeaderParams(AuthInfo(token, data)) == map["authToken" := token, "data" := data]
  {
    hide HeaderParams, HeaderPair;
    var p, q := Pair("authToken", token), Pair("data", data);
    UrlPair("authToken", token);
    UrlPair("data", data);
    TwoSpaced(p, q);
    assert PairText(p) == "authToken=" + token;
    assert PairText(q) == "data=" + data;
    TwoLaidOut(PairText(p), "", "data=", data);
    ParamsRead(p, q);
    PairsMap(p, q);
  }

  lemma Encoded(c: Crypto, s: string)
    requires Lawful(c)
    ensures UrlText(c.b64url(c.utf8(s)))
    ensures c.unb64url(c.b64url(c.utf8(s))) == Some(c.utf8(s)) && c.unutf8(c.utf8(s)) == Some(s)
    ensures s != "" ==> c.b64url(c.utf8(s)) != ""
  {
    if c.utf8(s) == [] {
      assert c.unutf8(c.utf8("")) == Some("");
    }
  }

  // ---- The client ------------------------------------------------------------------------------------

  function HeaderOr(r: Response, name: string): string { if name in r.headers then r.headers[name] else "" }

  /** A live handshake at this step. */
  ghost predicate Waiting(server: Server, token: string, step: nat, now: int)
    reads server
  {
    && token in server.handshakes && server.handshakes[token].step == step
    && LiveHandshake(server.handshakes[token], now)
  }

  /** HELLO, and the handshake token of the reply. */
  method SendHello(server: Server, username: string, token: string, now: int) returns (r: Result<string, AuthError>)
    requires server.Valid()
    modifies server
    ensures server.Valid()
    ensures && Lawful(server.crypto) && UrlText(token) && server.credentials(username).Some?
            && |LiveHandshakes(old(server.handshakes), now)| < MAX_HANDSHAKES
            ==> r == Ok(token) && token in server.handshakes
                && server.handshakes[token] == NewHandshake(username, server.credentials(username).value, now)
  {
    hide Lawful, UrlText, HeaderParams, LiveHandshakes, ScramServer.HelloReply, HelloHeader;
    var header := HelloHeader(server.crypto.b64url(server.crypto.utf8(username)));
    if Lawful(server.crypto) {
      Encoded(server.crypto, username);
      HelloHeaderReads(server.crypto.b64url(server.crypto.utf8(username)));
    }
    if UrlText(token) {
      HelloReplyReads(token);
    }
    var reply := server.Hello(header, token, now);
    if reply.status != 401 {
      return Err(UnexpectedStatus(reply.status));
    }
    var params := ParseHeaderParams(HeaderOr(reply, "WWW-Authenticate"));
    return Ok(Param(params, "handshakeToken"));
  }

  datatype Challenge = Challenge(token: string, hashName: string, serverFirst: string)

  /** A base64url parameter as text. */
  function DataText(c: Crypto, params: Params): Option<string> {
    match c.unb64url(Param(params, "data"))
    case None => None
    case Some(bytes) => c.unutf8(bytes)
  }

  /** What the client makes of the reply to client-first. */
  function ReadChallenge(c: Crypto, reply: Response, token: string): Result<Challenge, AuthError> {
    if reply.status != 401 then Err(UnexpectedStatus(reply.status))
    else
      var params := HeaderParams(HeaderOr(reply, "WWW-Authenticate"));
      match DataText(c, params)
      case None => Err(BadEncoding)
      case Some(serverFirst) =>
        Ok(Challenge(if "handshakeToken" in params then params["handshakeToken"] else token,
                     if "hash" in params then params["hash"] else "SHA-256", serverFirst))
  }

  /** What the client makes of the reply to client-final. */
  function ReadToken(c: Crypto, final: ClientFinal, reply: Response): Result<string, AuthError> {
    if reply.status != 200 then Err(UnexpectedStatus(reply.status))
    else
      var params := HeaderParams(HeaderOr(reply, "Authentication-Info"));
      if Param(params, "authToken") == "" then Err(NoToken)
      else if Param(params, "data") == "" then Err(SignatureMissing)
      else
        match DataText(c, params)
        case None => Err(BadEncoding)
        case Some(serverFinal) =>
          match VerifyServerSignature(c, final, serverFinal)
          case Some(e) => Err(e)
          case None => Ok(Param(params, "authToken"))
  }

  lemma ChallengeReads(c: Crypto, newToken: string, serverFirst: string, token: string)
    requires Lawful(c) && UrlText(newToken)
    ensures var header := ScramServer.Step1Reply(newToken, c.b64url(c.utf8(serverFirst)));
            ReadChallenge(c, Response(401, map["WWW-Authenticate" := header], ""), token)
            == Ok(Challenge(newToken, "SHA-256", serverFirst))
  {
    hide Lawful, UrlText, HeaderParams, ScramServer.Step1Reply;
    Encoded(c, serverFirst);
    Step1ReplyReads(newToken, c.b64url(c.utf8(serverFirst)));
  }

  lemma TokenReads(c: Crypto, final: ClientFinal, authToken: string, serverFinal: string)
    requires Lawful(c) && UrlText(authToken) && authToken != "" && serverFinal != ""
    ensures var header := ScramServer.AuthInfo(authToken, c.b64url(c.utf8(serverFinal)));
            ReadToken(c, final, Response(200, map["Authentication-Info" := header], ""))
            == match VerifyServerSignature(c, final, serverFinal)
               case None => Ok(authToken)
               case Some(e) => Err(e)
  {
    hide Lawful, UrlText, HeaderParams, ScramServer.AuthInfo, VerifyServerSignature;
    Encoded(c, serverFinal);
    AuthInfoReads(authToken, c.b64url(c.utf8(serverFinal)));
  }

  /** A token is taken from a reply exactly when it is a success that carries a token and the server's signature. */
  lemma TokenExactly(c: Crypto, final: ClientFinal, reply: Response, token: string)
    ensures ReadToken(c, final, reply) == Ok(token) <==> Vouched(c, final, reply, token)
  {
    hide HeaderParams, VerifyServerSignature;
    var data := DataText(c, HeaderParams(HeaderOr(reply, "Authentication-Info")));
    if data.Some? {
      VerifiedExactly(c, final, data.value);
    }
  }

  ghost predicate Vouched(c: Crypto, final: ClientFinal, reply: Response, token: string) {
    var params := HeaderParams(HeaderOr(reply, "Authentication-Info"));
    && reply.status == 200 && token != "" && Param(params, "authToken") == token && Param(params, "data") != ""
    && DataText(c, params).Some? && Signs(c, final, DataText(c, params).value)
  }

  lemma RefusalReads(c: Crypto, final: ClientFinal, reply: Response)
    ensures reply.status != 200 ==> ReadToken(c, final, reply) == Err(UnexpectedStatus(reply.status))
  {
  }

  /** The server finds token and message in the client's header. */
  lemma MessageReads(c: Crypto, token: string, msg: string)
    requires Lawful(c) && UrlText(token)
    ensures var header := ScramHeader(token, c.b64url(c.utf8(msg)));
            Param(HeaderParams(header), "handshakeToken") == token && ScramData(c, header) == Some(msg)
  {
    hide Lawful, UrlText, HeaderParams, ScramHeader;
    Encoded(c, msg);
    ScramHeaderReads(token, c.b64url(c.utf8(msg)));
  }

  lemma AcceptedSaysSomething(c: Crypto, state: Handshake, msg: string)
    ensures Step2(c, state, msg).Accepted? ==> Step2(c, state, msg).serverFinal != ""
  {
    hide ParsedMsg, RecoveredKey;
  }

  /** Client-first, and the challenge of the reply. */
  method SendFirst(server: Server, token: string, first: ClientFirst, random: Bytes, newToken: string, now: int)
      returns (r: Result<Challenge, AuthError>)
    requires server.Valid()
    modifies server
    ensures server.Valid()
    ensures Lawful(server.crypto) && UrlText(token) && UrlText(newToken) && token != newToken && old(Waiting(server, token, 1, now)) ==>
              match Step1(server.crypto, old(server.handshakes)[token], first.msg, random)
              case None => true
              case Some(reply) =>
                && r == Ok(Challenge(newToken, "SHA-256", reply.1))
                && newToken in server.handshakes && server.handshakes[newToken] == reply.0
  {
    hide Lawful, UrlText, HeaderParams, Step1, ScramServer.Step1Reply, ScramHeader, Step2, ScramServer.AuthInfo,
         ReadChallenge, ScramData;
    var header := ScramHeader(token, server.crypto.b64url(server.crypto.utf8(first.msg)));
    if Lawful(server.crypto) && UrlText(token) && UrlText(newToken) && Waiting(server, token, 1, now) {
      MessageReads(server.crypto, token, first.msg);
      var step := Step1(server.crypto, server.handshakes[token], first.msg, random);
      if step.Some? {
        ChallengeReads(server.crypto, newToken, step.value.1, token);
      }
    }
    var reply := server.HandleScram(header, random, newToken, "", now);
    return ReadChallenge(server.crypto, reply, token);
  }

  /** Client-final; the token of the reply, whoever sent it, exactly once the server's signature in it is verified. */
  method SendFinal(server: Server, token: string, final: ClientFinal, authToken: string, now: int)
      returns (r: Result<string, AuthError>, ghost reply: Response)
    requires server.Valid()
    modifies server
    ensures server.Valid()
    ensures forall t :: r == Ok(t) <==> Vouched(server.crypto, final, reply, t)
    ensures Lawful(server.crypto) && UrlText(token) && UrlText(authToken) && authToken != "" && old(Waiting(server, token, 2, now)) ==>
              match Step2(server.crypto, old(server.handshakes)[token], final.msg)
              case Unauthorized => r == Err(UnexpectedStatus(401))
              case Forbidden => r == Err(UnexpectedStatus(403))
              case Accepted(serverFinal) =>
                && authToken in server.tokens && server.tokens[authToken] == TokenEntry(old(server.handshakes)[token].username, now)
                && r == match VerifyServerSignature(server.crypto, final, serverFinal)
                        case None => Ok(authToken)
                        case Some(e) => Err(e)
  {
    hide Lawful, UrlText, HeaderParams, Step1, ScramServer.Step1Reply, ScramHeader, Step2, ScramServer.AuthInfo,
         VerifyServerSignature, ReadToken, ScramData, Vouched;
    var header := ScramHeader(token, server.crypto.b64url(server.crypto.utf8(final.msg)));
    if Lawful(server.crypto) && UrlText(token) && UrlText(authToken) && authToken != "" && Waiting(server, token, 2, now) {
      MessageReads(server.crypto, token, final.msg);
      AcceptedSaysSomething(server.crypto, server.handshakes[token], final.msg);
      var verdict := Step2(server.crypto, server.handshakes[token], final.msg);
      if verdict.Accepted? {
        TokenReads(server.crypto, final, authToken, verdict.serverFinal);
      }
    }
    var answer := server.HandleScram(header, [], "", authToken, now);
    r, reply := ReadToken(server.crypto, final, answer), answer;
    RefusalReads(server.crypto, final, reply);
    forall t
      ensures r == Ok(t) <==> Vouched(server.crypto, final, reply, t)
    {
      TokenExactly(server.crypto, final, reply, t);
    }
  }

  /** What the environment draws for one login. */
  datatype Draws = Draws(cRandom: Bytes, sRandom: Bytes, first: string, second: string, authToken: string)

  /** The values drawn are usable and the two handshake tokens differ. */
  ghost predicate Usable(d: Draws) {
    && d.cRandom != [] && d.authToken != ""
    && UrlText(d.first) && UrlText(d.second) && UrlText(d.authToken) && d.first != d.second
  }

  /** The whole login at the times `t0`, `t1` and `t2`. An honest one succeeds: the server knows the user by credentials
      for this password, has room, and the steps come within the timeout. */
  method Login(server: Server, username: string, password: string, d: Draws, t0: int, t1: int, t2: int,
               ghost salt: Bytes, ghost iterations: nat)
      returns (r: Result<string, AuthError>)
    requires server.Valid()
    modifies server
    ensures server.Valid()
    ensures && Lawful(server.crypto) && Usable(d)
            && server.credentials(username) == Some(CredentialsFor(server.crypto, password, salt, iterations))
            && |salt| >= MIN_SALT_BYTES && MIN_SCRAM_ITERATIONS <= iterations <= MAX_SCRAM_ITERATIONS
            && |LiveHandshakes(old(server.handshakes), t0)| < MAX_HANDSHAKES
            && t1 - t0 <= HANDSHAKE_TIMEOUT && t2 - t0 <= HANDSHAKE_TIMEOUT
            ==> r == Ok(d.authToken) && d.authToken in server.tokens && server.tokens[d.authToken] == TokenEntry(username, t2)
  {
    hide Lawful, UrlText, LiveHandshakes, Step1, Step2, MakeClientFirst, MakeClientFinal, VerifyServerSignature, CredentialsFor;
    if Lawful(server.crypto) && d.cRandom != [] && |salt| >= MIN_SALT_BYTES
       && MIN_SCRAM_ITERATIONS <= iterations <= MAX_SCRAM_ITERATIONS {
      HonestExchange(server.crypto, username, password, salt, iterations, t0, d.cRandom, d.sRandom);
      StepKeeps(server.crypto, NewHandshake(username, CredentialsFor(server.crypto, password, salt, iterations), t0),
                MakeClientFirst(server.crypto, username, d.cRandom).msg, d.sRandom);
    }
    var token :- SendHello(server, username, d.first, t0);
    var first := MakeClientFirst(server.crypto, username, d.cRandom);
    var challenge :- SendFirst(server, token, first, d.sRandom, d.second, t1);
    var final :- MakeClientFinal(server.crypto, password, first, challenge.serverFirst, challenge.hashName);
    ghost var reply: Response;
    r, reply := SendFinal(server, challenge.token, final, d.authToken, t2);
  }

  /** Step 1 keeps the user and the age of a handshake. */
  lemma StepKeeps(c: Crypto, state: Handshake, msg: string, random: Bytes)
    ensures var reply := Step1(c, state, msg, random);
            reply.Some? ==> reply.value.0.username == state.username && reply.value.0.created == state.created && reply.value.0.step == 2
  {
    hide ParsedMsg, AuthMessage;
  }
}
