/** internal/protocol/protocol.go: the datagrams byte by byte. Together with the laws that make
    encoding and decoding inverses, this fixes what every encoder and decoder does. */
module Layout {
  import opened Bytes
  import opened Codec

  // ----- big-endian integers -----

  lemma Digits2(n: U16)
    ensures ToBE(n, 2) == [n / 0x100, n % 0x100]
  {
    assert ToBE(n, 1) == ToBE(n / 0x100, 0) + [n % 0x100];
    assert ToBE(n / 0x100, 1) == ToBE(n / 0x1_0000, 0) + [n / 0x100 % 0x100];
  }

  lemma Digits4(n: U32)
    ensures ToBE(n, 4) == [n / 0x100_0000, n / 0x1_0000 % 0x100, n / 0x100 % 0x100, n % 0x100]
  {
    Digits2(n / 0x1_0000);
    assert ToBE(n, 4) == ToBE(n / 0x100 / 0x100, 2) + [n / 0x100 % 0x100] + [n % 0x100];
  }

  lemma LastFour(n: nat)
    ensures ToBE(n, 8)
         == ToBE(n / 0x100 / 0x100 / 0x100 / 0x100, 4)
            + [n / 0x100 / 0x100 / 0x100 % 0x100, n / 0x100 / 0x100 % 0x100, n / 0x100 % 0x100, n % 0x100]
  {
    var a := n / 0x100;
    var b := a / 0x100;
    var c := b / 0x100;
    assert ToBE(n, 8) == ToBE(a, 7) + [n % 0x100];
    assert ToBE(a, 7) == ToBE(b, 6) + [a % 0x100];
    assert ToBE(b, 6) == ToBE(c, 5) + [b % 0x100];
    assert ToBE(c, 5) == ToBE(c / 0x100, 4) + [c % 0x100];
  }

  lemma LowBytes(n: U64)
    ensures n / 0x100 / 0x100 / 0x100 / 0x100 == n / 0x1_0000_0000
    ensures var low := n % 0x1_0000_0000;
            && low / 0x100_0000 == n / 0x100 / 0x100 / 0x100 % 0x100 && low / 0x1_0000 % 0x100 == n / 0x100 / 0x100 % 0x100
            && low / 0x100 % 0x100 == n / 0x100 % 0x100 && low % 0x100 == n % 0x100
  {
    var high, low := n / 0x1_0000_0000, n % 0x1_0000_0000;
    var a, b, c := low / 0x100, low / 0x100 / 0x100, low / 0x100 / 0x100 / 0x100;
    assert n / 0x100 == high * 0x100_0000 + a && n % 0x100 == low % 0x100;
    assert n / 0x100 / 0x100 == high * 0x1_0000 + b && n / 0x100 % 0x100 == a % 0x100;
    assert n / 0x100 / 0x100 / 0x100 == high * 0x100 + c && n / 0x100 / 0x100 % 0x100 == b % 0x100;
    assert b == low / 0x1_0000 && c == low / 0x100_0000 && c < 0x100;
  }

  lemma Digits8(n: U64)
    ensures ToBE(n, 8) == ToBE(n / 0x1_0000_0000, 4) + ToBE(n % 0x1_0000_0000, 4)
  {
    LastFour(n);
    LowBytes(n);
    Digits4(n % 0x1_0000_0000);
  }

  // ----- the datagrams -----

  /** What a `uint32` and a `uint64` field hold, most significant byte first. */
  function Four(n: U32): bytes {
    [n / 0x100_0000, n / 0x1_0000 % 0x100, n / 0x100 % 0x100, n % 0x100]
  }

  function Eight(n: U64): bytes {
    Four(n / 0x1_0000_0000) + Four(n % 0x1_0000_0000)
  }

  /** The type bytes, and the fields of each payload in their order. */
  predicate Spelled(p: Packet, t: byte, payload: bytes) {
    match p
    case ClientHello(publicKey, nonce, authentication) => t == 1 && payload == publicKey + nonce + authentication
    case ServerHello(publicKey, nonce, signature) =>
      t == 2 && payload == publicKey + nonce + [|signature| / 0x100 % 0x100, |signature| % 0x100] + signature
    case Secure(text) => t == 3 && payload == text
    case Request(path) => t == 4 && payload == path
    case MetaPacket(m) =>
      t == 5 && payload == Eight(m.size) + Four(m.chunks) + [m.chunkSize / 0x100, m.chunkSize % 0x100] + m.sha256
    case Get(index) => t == 6 && payload == Four(index)
    case Data(index, data) => t == 7 && payload == Four(index) + data
    case Error(message) =>
      && t == 8
      && (message == [] ==> SpellsUnknown(payload))
      && (0 < |message| <= 1164 ==> payload == message)
      && (|message| > 1164 ==> payload == message[..1164])
    case Done => t == 9 && payload == []
  }

  predicate SpellsUnknown(payload: bytes) {
    |payload| == 20 && forall i | 0 <= i < 20 :: payload[i] == "unknown server error"[i] as int
  }

  /** What an encoder accepts. */
  predicate Encodable(utf8: bytes -> bool, p: Packet) {
    match p
    case ClientHello(publicKey, nonce, authentication) => |publicKey| == |nonce| == |authentication| == 32
    case ServerHello(publicKey, nonce, signature) => |publicKey| == |nonce| == 32 && 1 <= |signature| <= 512
    case Secure(text) => 24 <= |text| <= 1210
    case Request(path) => 1 <= |path| <= 1024 && utf8(path)
    case Data(_, data) => |data| <= 1120
    case _ => true
  }

  /** Every packet an encoder accepts is the four letters UDF2, the version 2, its type, the
      identifier and its fields, integers big-endian. */
  lemma DatagramBytes(utf8: bytes -> bool, id: RequestID, p: Packet)
    ensures Encode(utf8, id, p).Ok? <==> Encodable(utf8, p)
    ensures Encode(utf8, id, p).Ok? ==>
              var d := Encode(utf8, id, p).value;
              && |d| >= 22 && d[..5] == [85, 68, 70, 50, 2] && d[6..22] == id
              && Spelled(p, d[5], d[22..])
  {
    PayloadIff(utf8, p);
    if Encode(utf8, id, p).Ok? {
      PayloadBytes(utf8, p);
      var payload := Payload(utf8, p).value;
      var d := Frame(TypeOf(p), id, payload);
      assert d[..5] == [85, 68, 70, 50, 2] && d[6..22] == id && d[22..] == payload;
    }
  }

  lemma PayloadIff(utf8: bytes -> bool, p: Packet)
    ensures Payload(utf8, p).Ok? && 22 + |Payload(utf8, p).value| <= 1232 <==> Encodable(utf8, p)
  {}

  lemma PayloadBytes(utf8: bytes -> bool, p: Packet)
    requires Payload(utf8, p).Ok?
    ensures Spelled(p, TypeByte(TypeOf(p)), Payload(utf8, p).value)
  {
    match p
    case ServerHello(publicKey, nonce, signature) => ReplyBytes(utf8, publicKey, nonce, signature);
    case MetaPacket(m) => MetaBytes(m);
    case Get(index) => Digits4(index);
    case Data(index, _) => Digits4(index);
    case _ =>
  }

  lemma ReplyBytes(utf8: bytes -> bool, publicKey: bytes, nonce: bytes, signature: bytes)
    ensures var payload := Payload(utf8, ServerHello(publicKey, nonce, signature));
            && (payload.Ok? <==> |publicKey| == |nonce| == 32 && 1 <= |signature| <= 512)
            && (payload.Ok? ==>
                  && |payload.value| == 66 + |signature|
                  && payload.value == publicKey + nonce + [|signature| / 0x100 % 0x100, |signature| % 0x100] + signature)
  {
    if |signature| <= 512 {
      Digits2(|signature|);
    }
  }

  lemma MetaBytes(m: Meta)
    ensures ToBE(m.size, 8) == Eight(m.size) && ToBE(m.chunks, 4) == Four(m.chunks)
    ensures ToBE(m.chunkSize, 2) == [m.chunkSize / 0x100, m.chunkSize % 0x100]
  {
    Digits8(m.size);
    Digits4(m.size / 0x1_0000_0000);
    Digits4(m.size % 0x1_0000_0000);
    Digits4(m.chunks);
    Digits2(m.chunkSize);
  }
}
