/**
 The SCRAM-SHA-256 exchange of section 3 of RFC 5802: the messages of both sides and how each checks the
 other's. Hashing, HMAC, key derivation, base64 and UTF-8 are foreign functions, given as parameters.
 */
module Scram {
  import opened Results
  import opened ScramText
  import Text

  type Bytes = seq<bv8>

  datatype Algo = Sha256 | Sha512

  datatype Crypto = Crypto(
    hmac: (Algo, Bytes, Bytes) -> Bytes,
    digest: (Algo, Bytes) -> Bytes,
    derive: (Algo, Bytes, Bytes, nat) -> Bytes,       // password, salt, iterations
    b64: Bytes -> string,
    unb64: string -> Option<Bytes>,
    b64url: Bytes -> string,
    unb64url: string -> Option<Bytes>,
    utf8: string -> Bytes,
    unutf8: Bytes -> Option<string>
  )

  function DigestSize(algo: Algo): nat { if algo.Sha256? then 32 else 64 }

  predicate UrlChar(c: char) { Text.IsAlnum(c) || c == '-' || c == '_' }

  predicate B64Char(c: char) { Text.IsAlnum(c) || c == '+' || c == '/' || c == '=' }

  /** What the foreign functions are known for: sizes, inverses and alphabets. */
  ghost predicate Lawful(c: Crypto) {
    && (forall a, k, d :: |c.hmac(a, k, d)| == DigestSize(a))
    && (forall a, d :: |c.digest(a, d)| == DigestSize(a))
    && (forall b :: c.unb64(c.b64(b)) == Some(b) && (b != [] ==> c.b64(b) != "") && Text.AllOf(c.b64(b), B64Char))
    && (forall b :: c.unb64url(c.b64url(b)) == Some(b) && (b != [] ==> c.b64url(b) != "") && Text.AllOf(c.b64url(b), UrlChar))
    && (forall s :: c.unutf8(c.utf8(s)) == Some(s)) && c.utf8("") == []
  }

  function Xor(a: Bytes, b: Bytes): (r: Bytes)
    requires |a| == |b|
    ensures |r| == |a|
  {
    seq(|a|, i requires 0 <= i < |a| => a[i] ^ b[i])
  }

  lemma XorTwice(a: Bytes, b: Bytes)
    requires |a| == |b|
    ensures Xor(Xor(a, b), b) == a
  {
    forall i | 0 <= i < |a|
      ensures (a[i] ^ b[i]) ^ b[i] == a[i]
    {
      var x, y := a[i], b[i];
      assert (x ^ y) ^ y == x;
    }
  }

  /** A text XORed with itself is zero, and with zero itself. */
  lemma XorZero(a: Bytes)
    ensures Xor(a, a) == seq(|a|, _ => 0) && Xor(a, seq(|a|, _ => 0)) == a
  {
    forall i | 0 <= i < |a|
      ensures a[i] ^ a[i] == 0 && a[i] ^ 0 == a[i]
    {
      var x := a[i];
      assert x ^ x == 0 && x ^ 0 == x;
    }
  }

  // ---- The client --------------------------------------------------------------------------

  const MAX_SCRAM_ITERATIONS := 1_000_000
  const MIN_SCRAM_ITERATIONS := 4096
  const MIN_SALT_BYTES := 16

  datatype AuthError =
    | BadIterations
    | NonceMismatch
    | ExcessiveIterations
    | InsufficientIterations
    | BadEncoding
    | InsufficientSalt
    | UnsupportedHash
    | KeyLengths
    | SignatureMissing
    | SignatureMismatch
    | UnexpectedStatus(status: nat)
    | NoToken

  datatype ClientFirst = ClientFirst(msg: string, bare: string, nonce: string)

  datatype ClientFinal = ClientFinal(msg: string, authMessage: string, saltedPassword: Bytes)

  /** `random` is what the nonce is drawn from. */
  function MakeClientFirst(c: Crypto, username: string, random: Bytes): ClientFirst {
    var nonce := c.b64url(random);
    var bare := "n=" + EscapeUser(username) + ",r=" + nonce;
    ClientFirst("n,," + bare, bare, nonce)
  }

  /** `int(text)`, for decimal digits. */
  function IntOf(s: string): Option<nat> {
    if s != "" && (forall i :: 0 <= i < |s| ==> Text.IsDigit(s[i])) then Some(Text.NatValue(s)) else None
  }

  function HashAlgo(name: string): Option<Algo> {
    if name == "SHA-256" then Some(Sha256) else if name == "SHA-512" then Some(Sha512) else None
  }

  /** `c=<binding>,r=<nonce>`: the final message up to its proof. */
  function FinalNoProof(c: Crypto, nonce: string): string {
    "c=" + c.b64url(c.utf8("n,,")) + ",r=" + nonce
  }

  function AuthMessage(c: Crypto, bare: string, serverFirst: string, nonce: string): string {
    bare + "," + serverFirst + "," + FinalNoProof(c, nonce)
  }

  function ClientKey(c: Crypto, algo: Algo, salted: Bytes): Bytes { c.hmac(algo, salted, c.utf8("Client Key")) }

  function MakeClientFinal(c: Crypto, password: string, first: ClientFirst, serverFirst: string, hashName: string)
      : Result<ClientFinal, AuthError>
  {
    var params := ParsedMsg(serverFirst);
    var nonce := Param(params, "r");
    var iterations := IntOf(if "i" in params then params["i"] else "4096");
    if iterations.None? then Err(BadIterations)
    else if !(first.nonce <= nonce) then Err(NonceMismatch)
    else if iterations.value > MAX_SCRAM_ITERATIONS then Err(ExcessiveIterations)
    else if iterations.value < MIN_SCRAM_ITERATIONS then Err(InsufficientIterations)
    else
      var salt := c.unb64(Param(params, "s"));
      if salt.None? then Err(BadEncoding)
      else if |salt.value| < MIN_SALT_BYTES then Err(InsufficientSalt)
      else
        var algo := HashAlgo(hashName);
        if algo.None? then Err(UnsupportedHash)
        else
          var salted := c.derive(algo.value, c.utf8(password), salt.value, iterations.value);
          var clientKey := ClientKey(c, algo.value, salted);
          var storedKey := c.digest(algo.value, clientKey);
          var authMessage := AuthMessage(c, first.bare, serverFirst, nonce);
          var signature := c.hmac(algo.value, storedKey, c.utf8(authMessage));
          if |clientKey| != |signature| then Err(KeyLengths)
          else
            var proof := c.b64(Xor(clientKey, signature));
            Ok(ClientFinal(FinalNoProof(c, nonce) + ",p=" + proof, authMessage, salted))
  }

  /** The client's check of the server's signature; none if it passes. */
  function VerifyServerSignature(c: Crypto, final: ClientFinal, serverFinal: string): Option<AuthError> {
    var sig := Param(ParsedMsg(serverFinal), "v");
    if sig == "" then Some(SignatureMissing)
    else
      match c.unb64(sig)
      case None => Some(BadEncoding)
      case Some(given) =>
        var serverKey := c.hmac(Sha256, final.saltedPassword, c.utf8("Server Key"));
        if given == c.hmac(Sha256, serverKey, c.utf8(final.authMessage)) then None else Some(SignatureMismatch)
  }

  /** What the server proves its keys with: under `v`, HMAC(HMAC(salted password, "Server Key"), auth message). */
  ghost predicate Signs(c: Crypto, final: ClientFinal, serverFinal: string) {
    && Param(ParsedMsg(serverFinal), "v") != ""
    && c.unb64(Param(ParsedMsg(serverFinal), "v"))
       == Some(c.hmac(Sha256, c.hmac(Sha256, final.saltedPassword, c.utf8("Server Key")), c.utf8(final.authMessage)))
  }

  /** The client's check passes exactly when the message carries that signature. */
  lemma VerifiedExactly(c: Crypto, final: ClientFinal, serverFinal: string)
    ensures VerifyServerSignature(c, final, serverFinal).None? <==> Signs(c, final, serverFinal)
  {
    hide ParsedMsg;
  }

  /** The client answers a challenge exactly when it repeats the client's nonce, its iterations and salt are within bounds,
      and the hash is known. */
  lemma AnsweredExactly(c: Crypto, password: string, first: ClientFirst, serverFirst: string, hashName: string)
    requires Lawful(c)
    ensures var params := ParsedMsg(serverFirst);
            MakeClientFinal(c, password, first, serverFirst, hashName).Ok? <==>
              && first.nonce <= Param(params, "r")
              && ("i" in params ==> IntOf(params["i"]).Some?
                                    && MIN_SCRAM_ITERATIONS <= IntOf(params["i"]).value <= MAX_SCRAM_ITERATIONS)
              && c.unb64(Param(params, "s")).Some? && |c.unb64(Param(params, "s")).value| >= MIN_SALT_BYTES
              && hashName in ["SHA-256", "SHA-512"]
  {
    hide ParsedMsg, Text.NatValue, Text.NatText, IntOf, FinalNoProof, AuthMessage, Xor, Lawful, ClientKey;
    FourThousand();
    forall algo, salted, key, message
      ensures |ClientKey(c, algo, salted)| == |c.hmac(algo, key, message)|
    {
      KeysFit(c, algo, salted, key, message);
    }
  }

  lemma FourThousand()
    ensures IntOf("4096") == Some(4096)
  {
    IterationsRead(4096);
    assert Text.NatText(4096) == "4096";
  }

  lemma KeysFit(c: Crypto, algo: Algo, salted: Bytes, key: Bytes, message: Bytes)
    requires Lawful(c)
    ensures |ClientKey(c, algo, salted)| == |c.hmac(algo, key, message)|
  {
  }

  // ---- The server ---------------------------------------------------------------------------

  datatype Credentials = Credentials(salt: Bytes, iterations: nat, storedKey: Bytes, serverKey: Bytes)

  /** The credentials kept for a password. */
  function CredentialsFor(c: Crypto, password: string, salt: Bytes, iterations: nat): Credentials {
    var salted := c.derive(Sha256, c.utf8(password), salt, iterations);
    Credentials(salt, iterations, c.digest(Sha256, ClientKey(c, Sha256, salted)), c.hmac(Sha256, salted, c.utf8("Server Key")))
  }

  datatype Handshake = Handshake(
    username: string,
    nonce: string,
    creds: Credentials,
    authMessage: string,
    step: nat,
    created: int
  )

  /** The server-first message and the handshake it belongs to; none if the client sent no nonce. */
  function Step1(c: Crypto, state: Handshake, clientFirst: string, random: Bytes): Option<(Handshake, string)> {
    var bare := if "n,," <= clientFirst then clientFirst[3..] else clientFirst;
    var cNonce := Param(ParsedMsg(bare), "r");
    if cNonce == "" then None
    else
      var nonce := cNonce + c.b64url(random);
      var serverFirst := "r=" + nonce + ",s=" + c.b64(state.creds.salt) + ",i=" + Text.NatText(state.creds.iterations);
      Some((state.(nonce := nonce, authMessage := AuthMessage(c, bare, serverFirst, nonce), step := 2), serverFirst))
  }

  datatype Verdict = Unauthorized | Forbidden | Accepted(serverFinal: string)

  /** The client key that a proof stands for: it undoes the XOR with the client's signature. */
  function RecoveredKey(c: Crypto, state: Handshake, proof: string): Option<Bytes> {
    var signature := c.hmac(Sha256, state.creds.storedKey, c.utf8(state.authMessage));
    match c.unb64(proof)
    case None => None
    case Some(bytes) => if |bytes| != |signature| then None else Some(Xor(bytes, signature))
  }

  function Step2(c: Crypto, state: Handshake, clientFinal: string): Verdict {
    var params := ParsedMsg(clientFinal);
    var proof := Param(params, "p");
    if proof == "" then Unauthorized
    else if "r" !in params || params["r"] != state.nonce then Forbidden
    else if "c" !in params || params["c"] != c.b64url(c.utf8("n,,")) then Forbidden
    else
      match RecoveredKey(c, state, proof)
      case None => Forbidden
      case Some(key) =>
        if c.digest(Sha256, key) != state.creds.storedKey then Forbidden
        else Accepted("v=" + c.b64(c.hmac(Sha256, state.creds.serverKey, c.utf8(state.authMessage))))
  }

  // ---- An honest exchange completes -------------------------------------------------------------

  lemma NoComma(s: string)
    requires Text.AllOf(s, UrlChar) || Text.AllOf(s, B64Char) || Text.AllOf(s, Text.IsDigit)
    ensures ',' !in s
  {
  }

  lemma PairMessage(p: Pair, q: Pair)
    requires MsgPair(p) && MsgPair(q)
    ensures ParsedMsg(PairText(p) + "," + PairText(q)) == map[p.key := p.val][q.key := q.val]
  {
    hide MsgPair, PairText, Text.Split;
    assert [p, q][..1] == [p] && [p][..0] == [];
    assert PairTexts([p]) == PairTexts([]) + [PairText(p)];
    assert PairTexts([p, q]) == [PairText(p), PairText(q)];
    TwoJoined(PairText(p), PairText(q));
    MsgReads([p, q]);
    assert MapOf([p]) == MapOf([])[p.key := p.val];
  }

  lemma TripleMessage(p: Pair, q: Pair, r: Pair)
    requires MsgPair(p) && MsgPair(q) && MsgPair(r)
    ensures ParsedMsg(PairText(p) + "," + PairText(q) + "," + PairText(r)) == map[p.key := p.val][q.key := q.val][r.key := r.val]
  {
    hide MsgPair, PairText, Text.Split;
    assert [p, q, r][..2] == [p, q] && [p, q][..1] == [p] && [p][..0] == [];
    assert PairTexts([p]) == PairTexts([]) + [PairText(p)];
    assert PairTexts([p, q]) == [PairText(p), PairText(q)];
    var texts := PairTexts([p, q, r]);
    assert texts == [PairText(p), PairText(q), PairText(r)];
    assert texts[1..] == [PairText(q), PairText(r)];
    TwoJoined(PairText(q), PairText(r));
    Text.Assoc(PairText(p) + ",", PairText(q) + ",", PairText(r));
    assert Text.Join(texts, ",") == PairText(p) + "," + PairText(q) + "," + PairText(r);
    MsgReads([p, q, r]);
    assert MapOf([p]) == MapOf([])[p.key := p.val];
    assert MapOf([p, q]) == MapOf([p])[q.key := q.val];
  }

  lemma SingleMessage(p: Pair)
    requires MsgPair(p)
    ensures ParsedMsg(PairText(p)) == map[p.key := p.val]
  {
    hide MsgPair, PairText, Text.Split;
    assert [p][..0] == [];
    assert PairTexts([p]) == PairTexts([]) + [PairText(p)];
    MsgReads([p]);
    assert MapOf([p]) == MapOf([])[p.key := p.val];
  }

  /** The server strips the binding flag and finds the client's nonce, whatever the user name. */
  lemma FirstReads(c: Crypto, username: string, random: Bytes)
    requires Lawful(c)
    ensures var first := MakeClientFirst(c, username, random);
            && "n,," <= first.msg && first.msg[3..] == first.bare
            && Param(ParsedMsg(first.bare), "r") == first.nonce
  {
    var first := MakeClientFirst(c, username, random);
    var p, q := Pair("n", EscapeUser(username)), Pair("r", first.nonce);
    NoComma(first.nonce);
    assert first.bare == PairText(p) + "," + PairText(q);
    PairMessage(p, q);
  }

  /** The client finds in the server-first message what the server put there. */
  lemma ServerFirstReads(c: Crypto, nonce: string, salt: Bytes, iterations: nat)
    requires Lawful(c) && ',' !in nonce
    ensures var msg := "r=" + nonce + ",s=" + c.b64(salt) + ",i=" + Text.NatText(iterations);
            ParsedMsg(msg) == map["r" := nonce, "s" := c.b64(salt), "i" := Text.NatText(iterations)]
  {
    NoComma(c.b64(salt));
    NoComma(Text.NatText(iterations));
    var p, q, r := Pair("r", nonce), Pair("s", c.b64(salt)), Pair("i", Text.NatText(iterations));
    assert "r=" + nonce + ",s=" + c.b64(salt) + ",i=" + Text.NatText(iterations)
        == PairText(p) + "," + PairText(q) + "," + PairText(r);
    TripleMessage(p, q, r);
  }

  /** The server finds binding, nonce and proof in the client-final message. */
  lemma ClientFinalReads(c: Crypto, nonce: string, proof: string)
    requires Lawful(c) && ',' !in nonce && ',' !in proof
    ensures ParsedMsg(FinalNoProof(c, nonce) + ",p=" + proof)
            == map["c" := c.b64url(c.utf8("n,,")), "r" := nonce, "p" := proof]
  {
    NoComma(c.b64url(c.utf8("n,,")));
    var p, q, r := Pair("c", c.b64url(c.utf8("n,,"))), Pair("r", nonce), Pair("p", proof);
    assert FinalNoProof(c, nonce) + ",p=" + proof == PairText(p) + "," + PairText(q) + "," + PairText(r);
    TripleMessage(p, q, r);
  }

  lemma IterationsRead(n: nat)
    ensures IntOf(Text.NatText(n)) == Some(n)
  {
    Text.NatTextReadsBack(n);
  }

  /** The handshake of an accepted HELLO. */
  function NewHandshake(username: string, creds: Credentials, created: int): Handshake {
    Handshake(username, "", creds, "", 1, created)
  }

  /** Step 1: the client accepts the server-first message and both sides have the same auth message. */
  lemma FirstHalf(c: Crypto, username: string, creds: Credentials, created: int, cRandom: Bytes, sRandom: Bytes)
    requires Lawful(c) && cRandom != []
    ensures var state := NewHandshake(username, creds, created);
            var first := MakeClientFirst(c, username, cRandom);
            var reply := Step1(c, state, first.msg, sRandom);
            && reply.Some?
            && reply.value.0 == state.(nonce := first.nonce + c.b64url(sRandom),
                                       authMessage := AuthMessage(c, first.bare, reply.value.1, first.nonce + c.b64url(sRandom)), step := 2)
            && ParsedMsg(reply.value.1)
               == map["r" := first.nonce + c.b64url(sRandom), "s" := c.b64(creds.salt), "i" := Text.NatText(creds.iterations)]
            && ',' !in first.nonce + c.b64url(sRandom)
  {
    hide ParsedMsg;
    var first := MakeClientFirst(c, username, cRandom);
    FirstReads(c, username, cRandom);
    NoComma(first.nonce);
    NoComma(c.b64url(sRandom));
    ServerFirstReads(c, first.nonce + c.b64url(sRandom), creds.salt, creds.iterations);
  }

  /** For any user name and matching password an honest exchange completes: the client accepts the server's salt,
      iterations and nonce, both sides build the same auth message, the server recovers the client key from the proof and
      accepts it, and the client accepts the server's signature. */
  lemma HonestExchange(c: Crypto, username: string, password: string, salt: Bytes, iterations: nat, created: int,
                       cRandom: Bytes, sRandom: Bytes)
    requires Lawful(c) && cRandom != []
    requires |salt| >= MIN_SALT_BYTES && MIN_SCRAM_ITERATIONS <= iterations <= MAX_SCRAM_ITERATIONS
    ensures var state := NewHandshake(username, CredentialsFor(c, password, salt, iterations), created);
            var first := MakeClientFirst(c, username, cRandom);
            var reply := Step1(c, state, first.msg, sRandom);
            && reply.Some?
            && var final := MakeClientFinal(c, password, first, reply.value.1, "SHA-256");
            && final.Ok?
            && final.value.authMessage == reply.value.0.authMessage
            && var verdict := Step2(c, reply.value.0, final.value.msg);
            && verdict.Accepted?
            && VerifyServerSignature(c, final.value, verdict.serverFinal).None?
  {
    hide ParsedMsg, Step1, MakeClientFirst, AuthMessage, FinalNoProof, Step2, MakeClientFinal, VerifyServerSignature, Lawful;
    var state := NewHandshake(username, CredentialsFor(c, password, salt, iterations), created);
    var first := MakeClientFirst(c, username, cRandom);
    FirstHalf(c, username, CredentialsFor(c, password, salt, iterations), created, cRandom, sRandom);
    var reply := Step1(c, state, first.msg, sRandom);
    ClientAccepts(c, password, first, reply.value.0, reply.value.1, salt, iterations);
    var final := MakeClientFinal(c, password, first, reply.value.1, "SHA-256").value;
    ServerAccepts(c, password, reply.value.0, final, salt, iterations);
  }

  /** The client accepts a server-first message with its own nonce, and its proof is the XOR of key and signature. */
  lemma ClientAccepts(c: Crypto, password: string, first: ClientFirst, state: Handshake, serverFirst: string,
                      salt: Bytes, iterations: nat)
    requires Lawful(c) && first.nonce <= state.nonce
    requires |salt| >= MIN_SALT_BYTES && MIN_SCRAM_ITERATIONS <= iterations <= MAX_SCRAM_ITERATIONS
    requires ParsedMsg(serverFirst) == map["r" := state.nonce, "s" := c.b64(salt), "i" := Text.NatText(iterations)]
    requires state.authMessage == AuthMessage(c, first.bare, serverFirst, state.nonce)
    ensures var final := MakeClientFinal(c, password, first, serverFirst, "SHA-256");
            var salted := c.derive(Sha256, c.utf8(password), salt, iterations);
            var key := ClientKey(c, Sha256, salted);
            var signature := c.hmac(Sha256, c.digest(Sha256, key), c.utf8(state.authMessage));
            |key| == |signature| && final == Ok(ClientFinal(FinalNoProof(c, state.nonce) + ",p=" + c.b64(Xor(key, signature)), state.authMessage, salted))
  {
    hide ParsedMsg, AuthMessage, FinalNoProof, IntOf, Xor;
    IterationsRead(iterations);
  }

  /** The server accepts that proof, and the client the signature that follows. */
  lemma ServerAccepts(c: Crypto, password: string, state: Handshake, final: ClientFinal, salt: Bytes, iterations: nat)
    requires Lawful(c) && ',' !in state.nonce
    requires state.creds == CredentialsFor(c, password, salt, iterations)
    requires final.authMessage == state.authMessage && final.saltedPassword == c.derive(Sha256, c.utf8(password), salt, iterations)
    requires var key := ClientKey(c, Sha256, final.saltedPassword);
             var signature := c.hmac(Sha256, c.digest(Sha256, key), c.utf8(state.authMessage));
             |key| == |signature| && final.msg == FinalNoProof(c, state.nonce) + ",p=" + c.b64(Xor(key, signature))
    ensures Step2(c, state, final.msg).Accepted?
    ensures VerifyServerSignature(c, final, Step2(c, state, final.msg).serverFinal).None?
  {
    hide ParsedMsg, FinalNoProof, Xor, Text.AllOf;
    var key := ClientKey(c, Sha256, final.saltedPassword);
    var signature := c.hmac(Sha256, c.digest(Sha256, key), c.utf8(state.authMessage));
    var proof := Xor(key, signature);
    NoComma(c.b64(proof));
    ClientFinalReads(c, state.nonce, c.b64(proof));
    XorTwice(key, signature);
    assert |proof| == 32;
    assert RecoveredKey(c, state, c.b64(proof)) == Some(key);
    var serverSig := c.hmac(Sha256, state.creds.serverKey, c.utf8(state.authMessage));
    NoComma(c.b64(serverSig));
    assert "v=" + c.b64(serverSig) == PairText(Pair("v", c.b64(serverSig)));
    SingleMessage(Pair("v", c.b64(serverSig)));
    assert |serverSig| == 32;
  }

  /** With the right password the client refuses only for short salts and iteration counts out of bounds. */
  lemma HonestBounds(c: Crypto, username: string, password: string, salt: Bytes, iterations: nat, created: int,
                     cRandom: Bytes, sRandom: Bytes)
    requires Lawful(c) && cRandom != []
    ensures var state := NewHandshake(username, CredentialsFor(c, password, salt, iterations), created);
            var first := MakeClientFirst(c, username, cRandom);
            var reply := Step1(c, state, first.msg, sRandom);
            && reply.Some?
            && (MakeClientFinal(c, password, first, reply.value.1, "SHA-256").Ok?
                <==> |salt| >= MIN_SALT_BYTES && MIN_SCRAM_ITERATIONS <= iterations <= MAX_SCRAM_ITERATIONS)
  {
    hide ParsedMsg, Step1, MakeClientFirst, AuthMessage, FinalNoProof, IntOf, Xor;
    FirstHalf(c, username, CredentialsFor(c, password, salt, iterations), created, cRandom, sRandom);
    IterationsRead(iterations);
  }

  /** With SHA-512 chosen, an exchange that the client carries through is refused by the server, whatever the password
      and whatever credentials are kept: the proof has 64 bytes, the signature it should mask 32. */
  lemma Sha512Refused(c: Crypto, username: string, password: string, creds: Credentials, created: int,
                      cRandom: Bytes, sRandom: Bytes)
    requires Lawful(c) && cRandom != []
    requires |creds.salt| >= MIN_SALT_BYTES && MIN_SCRAM_ITERATIONS <= creds.iterations <= MAX_SCRAM_ITERATIONS
    ensures var first := MakeClientFirst(c, username, cRandom);
            var reply := Step1(c, NewHandshake(username, creds, created), first.msg, sRandom);
            && reply.Some?
            && var final := MakeClientFinal(c, password, first, reply.value.1, "SHA-512");
            && final.Ok?
            && Step2(c, reply.value.0, final.value.msg) == Forbidden
  {
    hide ParsedMsg, Step1, MakeClientFirst, AuthMessage, FinalNoProof, IntOf, Xor, Step2;
    var first := MakeClientFirst(c, username, cRandom);
    FirstHalf(c, username, creds, created, cRandom, sRandom);
    var reply := Step1(c, NewHandshake(username, creds, created), first.msg, sRandom);
    IterationsRead(creds.iterations);
    var final := MakeClientFinal(c, password, first, reply.value.1, "SHA-512");
    var salted := c.derive(Sha512, c.utf8(password), creds.salt, creds.iterations);
    var key := ClientKey(c, Sha512, salted);
    var proof := Xor(key, c.hmac(Sha512, c.digest(Sha512, key), c.utf8(final.value.authMessage)));
    LongProofForbidden(c, reply.value.0, proof);
  }

  /** A proof of another size than the server's signature is forbidden. */
  lemma LongProofForbidden(c: Crypto, state: Handshake, proof: Bytes)
    requires Lawful(c) && ',' !in state.nonce && |proof| != DigestSize(Sha256) && proof != []
    ensures Step2(c, state, FinalNoProof(c, state.nonce) + ",p=" + c.b64(proof)) == Forbidden
  {
    hide ParsedMsg, FinalNoProof, Text.AllOf;
    NoComma(c.b64(proof));
    ClientFinalReads(c, state.nonce, c.b64(proof));
  }

  /** The final message of section 3 of RFC 5802, from the client's side: binding, nonce and the client key masked with
      HMAC(H(client key), auth message), where the auth message is the client's bare first message, the server's first
      message and this one without its proof, separated by commas. */
  lemma FinalAsInRfc5802(c: Crypto, password: string, first: ClientFirst, serverFirst: string)
    requires MakeClientFinal(c, password, first, serverFirst, "SHA-256").Ok?
    ensures var final := MakeClientFinal(c, password, first, serverFirst, "SHA-256").value;
            var params := ParsedMsg(serverFirst);
            var noProof := "c=" + c.b64url(c.utf8("n,,")) + ",r=" + Param(params, "r");
            var key := c.hmac(Sha256, final.saltedPassword, c.utf8("Client Key"));
            var signature := c.hmac(Sha256, c.digest(Sha256, key), c.utf8(first.bare + "," + serverFirst + "," + noProof));
            && final.authMessage == first.bare + "," + serverFirst + "," + noProof
            && |key| == |signature| && final.msg == noProof + ",p=" + c.b64(Xor(key, signature))
            && c.unb64(Param(params, "s")).Some?
            && final.saltedPassword == c.derive(Sha256, c.utf8(password), c.unb64(Param(params, "s")).value,
                                                if "i" in params then Text.NatValue(params["i"]) else 4096)
  {
    hide ParsedMsg, Text.NatValue, Xor;
    IterationsRead(4096);
    assert Text.NatText(4096) == "4096";
  }

  /** The server's answer to client-first, with or without its binding flag `n,,`: it extends the client's nonce, and
      keeps for the last step the auth message that the client will build. */
  lemma FirstAsInRfc5802(c: Crypto, state: Handshake, bare: string, random: Bytes)
    requires !("n,," <= bare)
    ensures Step1(c, state, "n,," + bare, random) == Step1(c, state, bare, random)
    ensures var nonce := Param(ParsedMsg(bare), "r");
            Step1(c, state, bare, random)
            == if nonce == "" then None
               else
                 var all := nonce + c.b64url(random);
                 var msg := "r=" + all + ",s=" + c.b64(state.creds.salt) + ",i=" + Text.NatText(state.creds.iterations);
                 Some((state.(nonce := all, step := 2,
                              authMessage := bare + "," + msg + "," + ("c=" + c.b64url(c.utf8("n,,")) + ",r=" + all)), msg))
  {
    hide ParsedMsg, Text.NatText;
    assert ("n,," + bare)[3..] == bare;
  }

  /** The server accepts a client-final message exactly when it repeats the nonce and the binding and its proof masks
      a key that hashes to the stored key. */
  lemma AcceptedExactly(c: Crypto, state: Handshake, clientFinal: string)
    ensures var params := ParsedMsg(clientFinal);
            var signature := c.hmac(Sha256, state.creds.storedKey, c.utf8(state.authMessage));
            && (Step2(c, state, clientFinal).Unauthorized? <==> Param(params, "p") == "")
            && (Step2(c, state, clientFinal).Accepted? <==>
              && Param(params, "p") != "" && Param(params, "r") == state.nonce && "r" in params
              && Param(params, "c") == c.b64url(c.utf8("n,,")) && "c" in params
              && exists key :: |key| == |signature| && c.unb64(Param(params, "p")) == Some(Xor(key, signature))
                               && c.digest(Sha256, key) == state.creds.storedKey)
  {
    hide ParsedMsg, Xor;
    var params := ParsedMsg(clientFinal);
    var signature := c.hmac(Sha256, state.creds.storedKey, c.utf8(state.authMessage));
    var proof := c.unb64(Param(params, "p"));
    if proof.Some? && |proof.value| == |signature| {
      XorTwice(proof.value, signature);
      assert proof == Some(Xor(Xor(proof.value, signature), signature));
    }
    forall key | |key| == |signature|
      ensures Xor(Xor(key, signature), signature) == key
    {
      XorTwice(key, signature);
    }
  }
}
