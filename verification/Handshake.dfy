/** internal/secure/session.go: the handshake and the derivation of the two directional keys.
    HMAC, SHA-256, X25519 and RSA-PSS are parameters known only through their laws. */
module Handshake {
  import opened Bytes
  import opened Codec
  import opened Replay
  import opened Secure
  import Channel

  const HASH_SIZE := 32

  /** HMAC(key, message), SHA-256, the X25519 public key of a private one, the shared key of
      a private and a public one, RSA-PSS over a digest with some randomness. */
  datatype Suite = Suite(
    hmac: (bytes, bytes) -> bytes,
    hash: bytes -> bytes,
    public: bytes -> bytes,
    ecdh: (bytes, bytes) -> Option<bytes>,
    publicIdentity: bytes -> bytes,
    sign: (bytes, bytes, bytes) -> bytes,
    verify: (bytes, bytes, bytes) -> bool)
  {
    ghost predicate Laws() {
      && (forall k, m :: |hmac(k, m)| == HASH_SIZE)
      && (forall m :: |hash(m)| == HASH_SIZE)
      && (forall a :: |public(a)| == 32)
      && (forall a, b :: ecdh(a, public(b)) == ecdh(b, public(a)))
      && (forall i, m, r :: 1 <= |sign(i, m, r)| <= 512)
      && (forall i, m, r :: verify(publicIdentity(i), m, sign(i, m, r)))
    }
  }

  // ----- key derivation -----

  /** T(i) of section 2.3 of RFC 5869. */
  function T(suite: Suite, prk: bytes, info: bytes, i: nat): bytes
    requires i <= 255
  {
    if i == 0 then [] else suite.hmac(prk, T(suite, prk, info, i - 1) + info + [i])
  }

  /** T(1) | T(2) | … | T(n) */
  function Blocks(suite: Suite, prk: bytes, info: bytes, n: nat): bytes
    requires n <= 255
  {
    if n == 0 then [] else Blocks(suite, prk, info, n - 1) + T(suite, prk, info, n)
  }

  lemma {:induction false} BlocksSize(suite: Suite, prk: bytes, info: bytes, n: nat)
    requires suite.Laws() && n <= 255
    ensures |Blocks(suite, prk, info, n)| == HASH_SIZE * n
  {
    if n > 0 {
      BlocksSize(suite, prk, info, n - 1);
    }
  }

  lemma {:induction false} BlocksPrefix(suite: Suite, prk: bytes, info: bytes, m: nat, n: nat)
    requires m <= n <= 255
    ensures Blocks(suite, prk, info, m) <= Blocks(suite, prk, info, n)
  {
    if m < n {
      BlocksPrefix(suite, prk, info, m, n - 1);
    }
  }

  /** HKDF-Expand of section 2.3 of RFC 5869: the first L octets of T(1) | … | T(255). */
  ghost predicate IsExpansion(suite: Suite, prk: bytes, info: bytes, length: nat, okm: bytes) {
    |okm| == length && okm <= Blocks(suite, prk, info, 255)
  }

  /** `hkdfExpand`, whose counter is a byte. For every length HKDF allows, the result is the
      standard's and the counter's wrap is never used. */
  method HkdfExpand(suite: Suite, prk: bytes, info: bytes, length: nat) returns (result: bytes)
    requires suite.Laws()
    ensures |result| == length
    ensures length <= 255 * HASH_SIZE ==> IsExpansion(suite, prk, info, length, result)
    ensures length == 64 ==> result == T(suite, prk, info, 1) + T(suite, prk, info, 2)
  {
    result := [];
    var previous: bytes := [];
    var counter: byte := 1;
    ghost var n := 0;
    while |result| < length
      invariant |result| == HASH_SIZE * n && HASH_SIZE * n < length + HASH_SIZE
      invariant n <= 255 ==> counter == (n + 1) % 256
      invariant n <= 255 ==> previous == T(suite, prk, info, n)
      invariant n <= 255 ==> result == Blocks(suite, prk, info, n)
      decreases length - |result|
    {
      previous := suite.hmac(prk, previous + info + [counter]);
      result := result + previous;
      counter := (counter + 1) % 256;
      n := n + 1;
    }
    if length <= 255 * HASH_SIZE {
      BlocksPrefix(suite, prk, info, n, 255);
    }
    if length == 64 {
      assert n == 2 && Blocks(suite, prk, info, 1) == T(suite, prk, info, 1);
    }
    result := result[..length];
  }

  const CLIENT_AUTHENTICATION_LABEL: bytes :=
    [117, 100, 112, 102, 105, 108, 101, 45, 118, 50, 32, 99, 108, 105, 101, 110, 116, 32, 97, 117, 116, 104, 101, 110,
     116, 105, 99, 97, 116, 105, 111, 110]
  const TRANSCRIPT_LABEL: bytes :=
    [117, 100, 112, 102, 105, 108, 101, 45, 118, 50, 32, 88, 50, 53, 53, 49, 57, 32, 82, 83, 65, 45, 80, 83, 83, 32,
     104, 97, 110, 100, 115, 104, 97, 107, 101]
  const HKDF_SALT_LABEL: bytes :=
    [117, 100, 112, 102, 105, 108, 101, 45, 118, 50, 32, 72, 75, 68, 70, 32, 115, 97, 108, 116]
  const HKDF_INFO_LABEL: bytes :=
    [117, 100, 112, 102, 105, 108, 101, 45, 118, 50, 32, 65, 69, 83, 45, 50, 53, 54, 45, 71, 67, 77, 32, 107, 101, 121,
     115]

  function ClientAuthentication(suite: Suite, secret: bytes, id: RequestID, publicKey: bytes, nonce: bytes): bytes {
    suite.hmac(secret, CLIENT_AUTHENTICATION_LABEL + id + publicKey + nonce)
  }

  function Transcript(suite: Suite, id: RequestID, clientPublic: bytes, clientNonce: bytes,
                      serverPublic: bytes, serverNonce: bytes): bytes
  {
    suite.hash(TRANSCRIPT_LABEL + id + clientPublic + clientNonce + serverPublic + serverNonce)
  }

  /** The client's outbound key and the server's. */
  function DirectionalKeys(suite: Suite, sharedKey: bytes, secret: bytes, clientNonce: bytes, serverNonce: bytes,
                           transcript: bytes): (bytes, bytes)
  {
    var salt := suite.hmac(secret, HKDF_SALT_LABEL + clientNonce + serverNonce);
    var prk := suite.hmac(salt, sharedKey);
    var info := HKDF_INFO_LABEL + transcript;
    (T(suite, prk, info, 1), T(suite, prk, info, 2))
  }

  /** `deriveDirectionalKeys` */
  method DeriveDirectionalKeys(suite: Suite, sharedKey: bytes, secret: bytes, clientNonce: bytes, serverNonce: bytes,
                               transcript: bytes) returns (clientKey: bytes, serverKey: bytes)
    requires suite.Laws()
    ensures (clientKey, serverKey) == DirectionalKeys(suite, sharedKey, secret, clientNonce, serverNonce, transcript)
    ensures var prk := suite.hmac(suite.hmac(secret, HKDF_SALT_LABEL + clientNonce + serverNonce), sharedKey);
            var info := HKDF_INFO_LABEL + transcript;
            && IsExpansion(suite, prk, info, 64, clientKey + serverKey)
            && |clientKey| == 32 && clientKey == suite.hmac(prk, info + [1])
            && |serverKey| == 32 && serverKey == suite.hmac(prk, clientKey + info + [2])
  {
    var salt := suite.hmac(secret, HKDF_SALT_LABEL + clientNonce + serverNonce);
    var prk := suite.hmac(salt, sharedKey);
    var info := HKDF_INFO_LABEL + transcript;
    var keyMaterial := HkdfExpand(suite, prk, info, 64);
    clientKey, serverKey := keyMaterial[..32], keyMaterial[32..64];
    var first, second := T(suite, prk, info, 1), T(suite, prk, info, 2);
    assert |first| == 32 && |second| == 32;
    assert clientKey == first && serverKey == second;
    assert clientKey + serverKey == keyMaterial;
    FirstTwo(suite, prk, info);
  }

  lemma FirstTwo(suite: Suite, prk: bytes, info: bytes)
    ensures T(suite, prk, info, 1) == suite.hmac(prk, info + [1])
    ensures T(suite, prk, info, 2) == suite.hmac(prk, suite.hmac(prk, info + [1]) + info + [2])
  {
    assert T(suite, prk, info, 0) + info + [1] == info + [1];
  }

  /** What a handshake is about: the shared key of the exchange, the secret, and what the two
      hellos say. */
  datatype Exchange = Exchange(sharedKey: bytes, secret: bytes, id: RequestID, clientPublic: bytes, clientNonce: bytes,
                               serverPublic: bytes, serverNonce: bytes)
  {
    predicate Sized() {
      |secret| == |clientPublic| == |clientNonce| == |serverPublic| == |serverNonce| == 32
    }

    function SaltInput(): bytes { HKDF_SALT_LABEL + clientNonce + serverNonce }

    function TranscriptInput(): bytes {
      TRANSCRIPT_LABEL + id + clientPublic + clientNonce + serverPublic + serverNonce
    }

    function Salt(suite: Suite): bytes { suite.hmac(secret, SaltInput()) }

    function Prk(suite: Suite): bytes { suite.hmac(Salt(suite), sharedKey) }

    function FirstInput(suite: Suite): bytes { HKDF_INFO_LABEL + suite.hash(TranscriptInput()) + [1] }

    function Keys(suite: Suite): (bytes, bytes) {
      DirectionalKeys(suite, sharedKey, secret, clientNonce, serverNonce,
                      Transcript(suite, id, clientPublic, clientNonce, serverPublic, serverNonce))
    }
  }

  /** On what these two handshakes compute, `hmac` and `hash` do not collide. */
  ghost predicate NoClash(suite: Suite, a: Exchange, b: Exchange) {
    && (suite.hmac(a.Prk(suite), a.FirstInput(suite)) == suite.hmac(b.Prk(suite), b.FirstInput(suite)) ==>
          a.Prk(suite) == b.Prk(suite) && a.FirstInput(suite) == b.FirstInput(suite))
    && (suite.hmac(a.Salt(suite), a.sharedKey) == suite.hmac(b.Salt(suite), b.sharedKey) ==>
          a.Salt(suite) == b.Salt(suite) && a.sharedKey == b.sharedKey)
    && (suite.hmac(a.secret, a.SaltInput()) == suite.hmac(b.secret, b.SaltInput()) ==>
          a.secret == b.secret && a.SaltInput() == b.SaltInput())
    && (suite.hash(a.TranscriptInput()) == suite.hash(b.TranscriptInput()) ==> a.TranscriptInput() == b.TranscriptInput())
  }

  lemma EqualParts(a: bytes, b: bytes, c: bytes, d: bytes)
    requires |a| == |c| && a + b == c + d
    ensures a == c && b == d
  {
    assert (a + b)[..|a|] == a && (c + d)[..|c|] == c;
    assert (a + b)[|a|..] == b && (c + d)[|c|..] == d;
  }

  lemma TranscriptBinds(a: Exchange, b: Exchange)
    requires a.Sized() && b.Sized() && a.TranscriptInput() == b.TranscriptInput()
    ensures a.id == b.id && a.clientPublic == b.clientPublic && a.serverPublic == b.serverPublic
  {
    var l := TRANSCRIPT_LABEL;
    EqualParts(l + a.id + a.clientPublic + a.clientNonce + a.serverPublic, a.serverNonce,
               l + b.id + b.clientPublic + b.clientNonce + b.serverPublic, b.serverNonce);
    EqualParts(l + a.id + a.clientPublic + a.clientNonce, a.serverPublic,
               l + b.id + b.clientPublic + b.clientNonce, b.serverPublic);
    EqualParts(l + a.id + a.clientPublic, a.clientNonce, l + b.id + b.clientPublic, b.clientNonce);
    EqualParts(l + a.id, a.clientPublic, l + b.id, b.clientPublic);
    EqualParts(l, a.id, l, b.id);
  }

  /** The keys bind all that the handshake is about: two handshakes with the same client key
      agree on the shared key, the secret, the identifier, the public keys and the nonces,
      unless `hmac` or `hash` collides on these very handshakes. */
  lemma KeysBind(suite: Suite, a: Exchange, b: Exchange)
    requires suite.Laws() && a.Sized() && b.Sized() && NoClash(suite, a, b)
    requires a.Keys(suite).0 == b.Keys(suite).0
    ensures a == b
  {
    FirstKey(suite, a);
    FirstKey(suite, b);
    var l := HKDF_INFO_LABEL;
    EqualParts(l + suite.hash(a.TranscriptInput()), [1], l + suite.hash(b.TranscriptInput()), [1]);
    EqualParts(l, suite.hash(a.TranscriptInput()), l, suite.hash(b.TranscriptInput()));
    TranscriptBinds(a, b);
    EqualParts(HKDF_SALT_LABEL + a.clientNonce, a.serverNonce, HKDF_SALT_LABEL + b.clientNonce, b.serverNonce);
    EqualParts(HKDF_SALT_LABEL, a.clientNonce, HKDF_SALT_LABEL, b.clientNonce);
  }

  lemma FirstKey(suite: Suite, x: Exchange)
    ensures x.Keys(suite).0 == suite.hmac(x.Prk(suite), x.FirstInput(suite))
  {
    FirstTwo(suite, x.Prk(suite), HKDF_INFO_LABEL + suite.hash(x.TranscriptInput()));
  }

  /** The bytes are the ASCII codes of the text. */
  predicate Spells(codes: bytes, text: string) {
    |codes| == |text| && forall i | 0 <= i < |text| :: codes[i] == text[i] as int
  }

  lemma Labels()
    ensures Spells(CLIENT_AUTHENTICATION_LABEL, "udpfile-v2 client authentication")
    ensures Spells(TRANSCRIPT_LABEL, "udpfile-v2 X25519 RSA-PSS handshake")
    ensures Spells(HKDF_SALT_LABEL, "udpfile-v2 HKDF salt")
    ensures Spells(HKDF_INFO_LABEL, "udpfile-v2 AES-256-GCM keys")
  {}

  /** What is authenticated under the secret and what the salt is made of are never the same. */
  lemma PurposesDiffer(id: bytes, publicKey: bytes, nonce: bytes, x: Exchange)
    ensures CLIENT_AUTHENTICATION_LABEL + id + publicKey + nonce != x.SaltInput()
  {
    assert (CLIENT_AUTHENTICATION_LABEL + id + publicKey + nonce)[11] == 99;
    assert x.SaltInput()[11] == 72;
  }

  // ----- the two ends -----

  datatype ClientState = ClientState(id: RequestID, privateKey: bytes, nonce: bytes, secret: bytes)

  /** An RSA identity: its key and how many bits the modulus has. */
  datatype Identity = Identity(key: bytes, bits: nat)

  predicate GoodSize(bits: nat) {
    2048 <= bits <= 4096
  }

  /** `NewClientHandshake`, the private key and nonce being its randomness. */
  function NewClient(suite: Suite, id: RequestID, sharedSecret: bytes, privateKey: bytes, nonce: Block)
    : Result<(ClientState, bytes)>
  {
    if |sharedSecret| != 32 then Err("shared secret must be exactly 32 bytes")
    else
      var publicKey := suite.public(privateKey);
      var authentication := ClientAuthentication(suite, sharedSecret, id, publicKey, nonce);
      var packet :- Encode(_ => true, id, ClientHello(publicKey, nonce, authentication));
      Ok((ClientState(id, privateKey, nonce, sharedSecret), packet))
  }

  /** `AcceptClientHandshake`; private key, nonce and signature salt are its randomness. */
  function Accept(suite: Suite, hello: bytes, sharedSecret: bytes, identity: Identity,
                  privateKey: bytes, nonce: Block, salt: bytes): Result<(bytes, Endpoint)>
  {
    if |sharedSecret| != 32 then Err("shared secret must be exactly 32 bytes")
    else if !GoodSize(identity.bits) then Err("server RSA identity must be between 2048 and 4096 bits")
    else
      var (id, p) :- Decode(_ => true, ClientHelloType, hello);
      if !p.ClientHello? then Err("unexpected packet type")
      else if p.authentication != ClientAuthentication(suite, sharedSecret, id, p.publicKey, p.nonce) then
        Err("client authentication failed")
      else
        match suite.ecdh(privateKey, p.publicKey)
        case None => Err("complete server ECDH")
        case Some(sharedKey) =>
          var publicKey := suite.public(privateKey);
          var transcript := Transcript(suite, id, p.publicKey, p.nonce, publicKey, nonce);
          var reply :- Encode(_ => true, id, ServerHello(publicKey, nonce, suite.sign(identity.key, transcript, salt)));
          var (clientKey, serverKey) := DirectionalKeys(suite, sharedKey, sharedSecret, p.nonce, nonce, transcript);
          Ok((reply, Endpoint(id, serverKey, clientKey, 0, NOTHING_SEEN)))
  }

  /** `Complete`, against a pinned public identity. */
  function Complete(suite: Suite, client: ClientState, reply: bytes, pinned: Identity): Result<Endpoint> {
    if !GoodSize(pinned.bits) then Err("server RSA public key must be between 2048 and 4096 bits")
    else
      var (id, p) :- Decode(_ => true, ServerHelloType, reply);
      if !p.ServerHello? then Err("unexpected packet type")
      else if id != client.id then Err("server hello request ID does not match")
      else
        var transcript := Transcript(suite, id, suite.public(client.privateKey), client.nonce, p.publicKey, p.nonce);
        if !suite.verify(pinned.key, transcript, p.signature) then Err("server RSA signature verification failed")
        else
          match suite.ecdh(client.privateKey, p.publicKey)
          case None => Err("complete client ECDH")
          case Some(sharedKey) =>
            var (clientKey, serverKey) :=
              DirectionalKeys(suite, sharedKey, client.secret, client.nonce, p.nonce, transcript);
            Ok(Endpoint(id, clientKey, serverKey, 0, NOTHING_SEEN))
  }

  /** The server accepts a hello exactly when it has a usable secret and identity, the hello
      decodes, its sender knew the secret, and the exchange succeeds. It then replies with its
      own key and nonce under a signature over everything the two hellos said, and keeps the
      derived keys. */
  lemma AcceptIff(suite: Suite, hello: bytes, secret: bytes, identity: Identity, privateKey: bytes, nonce: Block, salt: bytes)
    requires suite.Laws()
    ensures var r := Accept(suite, hello, secret, identity, privateKey, nonce, salt);
            var d := Decode(_ => true, ClientHelloType, hello);
            && (r.Ok? <==>
                  && |secret| == 32 && 2048 <= identity.bits <= 4096 && d.Ok? && d.value.1.ClientHello?
                  && d.value.1.authentication
                     == suite.hmac(secret, CLIENT_AUTHENTICATION_LABEL + d.value.0 + d.value.1.publicKey + d.value.1.nonce)
                  && suite.ecdh(privateKey, d.value.1.publicKey).Some?)
            && (r.Ok? ==>
                  var (id, p) := d.value;
                  var (reply, server) := r.value;
                  var x := Exchange(suite.ecdh(privateKey, p.publicKey).value, secret, id, p.publicKey, p.nonce,
                                    suite.public(privateKey), nonce);
                  && Decode(_ => true, ServerHelloType, reply)
                     == Ok((id, ServerHello(suite.public(privateKey), nonce,
                                            suite.sign(identity.key, suite.hash(x.TranscriptInput()), salt))))
                  && server.id == id && (server.inboundKey, server.outboundKey) == x.Keys(suite))
  {
    var d := Decode(_ => true, ClientHelloType, hello);
    if d.Ok? && d.value.1.ClientHello? {
      var (id, p) := d.value;
      var transcript := Transcript(suite, id, p.publicKey, p.nonce, suite.public(privateKey), nonce);
      ReplyArrives(suite, id, privateKey, nonce, suite.sign(identity.key, transcript, salt));
    }
  }

  /** The client completes exactly when the pinned identity is usable, the reply decodes, is for
      this request and carries that identity's signature over everything the two hellos said,
      and the exchange succeeds; it then keeps the derived keys. */
  lemma CompleteIff(suite: Suite, client: ClientState, reply: bytes, pinned: Identity)
    ensures var r := Complete(suite, client, reply, pinned);
            var d := Decode(_ => true, ServerHelloType, reply);
            && (r.Ok? <==>
                  && 2048 <= pinned.bits <= 4096 && d.Ok? && d.value.1.ServerHello? && d.value.0 == client.id
                  && suite.verify(pinned.key,
                       suite.hash(TRANSCRIPT_LABEL + client.id + suite.public(client.privateKey) + client.nonce
                                  + d.value.1.publicKey + d.value.1.nonce),
                       d.value.1.signature)
                  && suite.ecdh(client.privateKey, d.value.1.publicKey).Some?)
            && (r.Ok? ==>
                  var p := d.value.1;
                  var x := Exchange(suite.ecdh(client.privateKey, p.publicKey).value, client.secret, client.id,
                                    suite.public(client.privateKey), client.nonce, p.publicKey, p.nonce);
                  r.value.id == client.id && (r.value.outboundKey, r.value.inboundKey) == x.Keys(suite))
  {}

  /** What the server reads in the client's hello is what the client put there. */
  lemma HelloArrives(suite: Suite, id: RequestID, sharedSecret: bytes, privateKey: bytes, nonce: Block)
    requires suite.Laws() && |sharedSecret| == 32
    ensures var r := NewClient(suite, id, sharedSecret, privateKey, nonce);
            && r.Ok? && r.value.0 == ClientState(id, privateKey, nonce, sharedSecret)
            && Decode(_ => true, ClientHelloType, r.value.1)
               == Ok((id, ClientHello(suite.public(privateKey), nonce,
                                      ClientAuthentication(suite, sharedSecret, id, suite.public(privateKey), nonce))))
  {
    var publicKey := suite.public(privateKey);
    DecodeInvertsEncode(_ => true, id,
      ClientHello(publicKey, nonce, ClientAuthentication(suite, sharedSecret, id, publicKey, nonce)));
  }

  /** A client needs no more than a secret of the right size to say hello. */
  lemma NewClientIff(suite: Suite, id: RequestID, sharedSecret: bytes, privateKey: bytes, nonce: Block)
    requires suite.Laws()
    ensures NewClient(suite, id, sharedSecret, privateKey, nonce).Ok? <==> |sharedSecret| == 32
  {
    if |sharedSecret| == 32 {
      HelloArrives(suite, id, sharedSecret, privateKey, nonce);
    }
  }

  lemma ReplyArrives(suite: Suite, id: RequestID, privateKey: bytes, nonce: Block, signature: bytes)
    requires suite.Laws() && 1 <= |signature| <= 512
    ensures var reply := Encode(_ => true, id, ServerHello(suite.public(privateKey), nonce, signature));
            reply.Ok? && Decode(_ => true, ServerHelloType, reply.value)
                         == Ok((id, ServerHello(suite.public(privateKey), nonce, signature)))
  {
    DecodeInvertsEncode(_ => true, id, ServerHello(suite.public(privateKey), nonce, signature));
  }

  /** Handshake agreement: the server accepts an honest hello exactly when the key exchange
      itself succeeds; then the client that pinned its identity completes with the reply, and
      the two sessions mirror each other: either end's outbound key is the other's inbound
      key, so both directions start in the initial state of a channel. */
  lemma HandshakeAgrees(suite: Suite, id: RequestID, sharedSecret: bytes,
                        clientPrivate: bytes, clientNonce: Block,
                        identity: Identity, serverPrivate: bytes, serverNonce: Block, salt: bytes)
    requires suite.Laws() && |sharedSecret| == 32 && GoodSize(identity.bits)
    ensures NewClient(suite, id, sharedSecret, clientPrivate, clientNonce).Ok?
    ensures var (client, hello) := NewClient(suite, id, sharedSecret, clientPrivate, clientNonce).value;
            var accepted := Accept(suite, hello, sharedSecret, identity, serverPrivate, serverNonce, salt);
            && (accepted.Ok? <==> suite.ecdh(clientPrivate, suite.public(serverPrivate)).Some?)
            && (accepted.Ok? ==>
                  var (reply, server) := accepted.value;
                  var completed := Complete(suite, client, reply, Identity(suite.publicIdentity(identity.key), identity.bits));
                  completed.Ok? && Mirrored(completed.value, server))
  {
    HelloArrives(suite, id, sharedSecret, clientPrivate, clientNonce);
    var publicKey := suite.public(serverPrivate);
    var transcript := Transcript(suite, id, suite.public(clientPrivate), clientNonce, publicKey, serverNonce);
    ReplyArrives(suite, id, serverPrivate, serverNonce, suite.sign(identity.key, transcript, salt));
  }

  ghost predicate Mirrored(a: Endpoint, b: Endpoint) {
    Channel.Initial(Channel.State(a, b, [], [])) && Channel.Initial(Channel.State(b, a, [], []))
  }
}
