/** internal/protocol/protocol.go: the nine packet types and their datagrams. */
module Codec {
  import opened Bytes

  const VERSION: byte := 2
  const MAX_DATAGRAM_SIZE := 1232
  const CHUNK_SIZE := 1120
  const HEADER_SIZE := 22
  const MAX_INNER_SIZE := MAX_DATAGRAM_SIZE - HEADER_SIZE - 8 - 16
  const MAX_REQUEST_PATH := 1024
  const MAX_ERROR := MAX_INNER_SIZE - HEADER_SIZE

  const MAGIC: bytes := [0x55, 0x44, 0x46, 0x32]
  const UNKNOWN_ERROR: bytes :=
    [117, 110, 107, 110, 111, 119, 110, 32, 115, 101, 114, 118, 101, 114, 32, 101, 114, 114, 111, 114]

  datatype Type = ClientHelloType | ServerHelloType | SecureType | RequestType | MetaType
                | GetType | DataType | ErrorType | DoneType

  type RequestID = id: bytes | |id| == 16 witness seq(16, _ => 0)
  type Block = b: bytes | |b| == 32 witness seq(32, _ => 0)

  datatype Meta = Meta(size: U64, chunks: U32, chunkSize: U16, sha256: Block)

  datatype Packet =
    | ClientHello(publicKey: bytes, nonce: bytes, authentication: bytes)
    | ServerHello(publicKey: bytes, nonce: bytes, signature: bytes)
    | Secure(payload: bytes)
    | Request(path: bytes)
    | MetaPacket(meta: Meta)
    | Get(index: U32)
    | Data(index: U32, data: bytes)
    | Error(message: bytes)
    | Done

  function TypeByte(t: Type): byte {
    match t
    case ClientHelloType => 1
    case ServerHelloType => 2
    case SecureType => 3
    case RequestType => 4
    case MetaType => 5
    case GetType => 6
    case DataType => 7
    case ErrorType => 8
    case DoneType => 9
  }

  function TypeOfByte(b: byte): Option<Type> {
    match b
    case 1 => Some(ClientHelloType)
    case 2 => Some(ServerHelloType)
    case 3 => Some(SecureType)
    case 4 => Some(RequestType)
    case 5 => Some(MetaType)
    case 6 => Some(GetType)
    case 7 => Some(DataType)
    case 8 => Some(ErrorType)
    case 9 => Some(DoneType)
    case _ => None
  }

  function TypeOf(p: Packet): Type {
    match p
    case ClientHello(_, _, _) => ClientHelloType
    case ServerHello(_, _, _) => ServerHelloType
    case Secure(_) => SecureType
    case Request(_) => RequestType
    case MetaPacket(_) => MetaType
    case Get(_) => GetType
    case Data(_, _) => DataType
    case Error(_) => ErrorType
    case Done => DoneType
  }

  /** The types that travel inside an encrypted packet. */
  predicate IsInner(t: Type) {
    TypeByte(t) >= TypeByte(RequestType)
  }

  // ----- framing -----

  function Frame(t: Type, id: RequestID, payload: bytes): (d: bytes)
    ensures |d| == HEADER_SIZE + |payload|
  {
    MAGIC + [VERSION, TypeByte(t)] + id + payload
  }

  function EncodeFrame(t: Type, id: RequestID, payload: bytes): Result<bytes> {
    if HEADER_SIZE + |payload| > MAX_DATAGRAM_SIZE then Err("datagram exceeds 1232 bytes")
    else Ok(Frame(t, id, payload))
  }

  function DecodeFrame(d: bytes): Result<(Type, RequestID, bytes)> {
    if |d| < HEADER_SIZE || |d| > MAX_DATAGRAM_SIZE then Err("invalid datagram length")
    else if d[0..4] != MAGIC || d[4] != VERSION then Err("invalid protocol header")
    else
      match TypeOfByte(d[5])
      case None => Err("unknown packet type")
      case Some(t) => Ok((t, d[6..22], d[22..]))
  }

  function Header(d: bytes): Result<(Type, RequestID)> {
    var (t, id, _) :- DecodeFrame(d);
    Ok((t, id))
  }

  // ----- payloads -----

  /** The payload each typed encoder builds, or its complaint. `utf8` is `utf8.Valid`. */
  function Payload(utf8: bytes -> bool, p: Packet): Result<bytes> {
    match p
    case ClientHello(publicKey, nonce, authentication) =>
      if |publicKey| != 32 || |nonce| != 32 || |authentication| != 32 then
        Err("invalid client hello field length")
      else Ok(publicKey + nonce + authentication)
    case ServerHello(publicKey, nonce, signature) =>
      if |publicKey| != 32 || |nonce| != 32 || |signature| == 0 || |signature| > 512 then
        Err("invalid server hello field length")
      else Ok(publicKey + nonce + ToBE(|signature|, 2) + signature)
    case Secure(payload) =>
      if |payload| < 8 + 16 then Err("encrypted payload is too short") else Ok(payload)
    case Request(path) =>
      if path == [] then Err("requested path is empty")
      else if !utf8(path) then Err("requested path is not valid UTF-8")
      else if |path| > MAX_REQUEST_PATH then Err("requested path is longer than 1024 bytes")
      else Ok(path)
    case MetaPacket(m) =>
      Ok(ToBE(m.size, 8) + ToBE(m.chunks, 4) + ToBE(m.chunkSize, 2) + m.sha256)
    case Get(index) => Ok(ToBE(index, 4))
    case Data(index, data) =>
      if |data| > CHUNK_SIZE then Err("chunk exceeds 1120 bytes") else Ok(ToBE(index, 4) + data)
    case Error(message) => Ok(SentMessage(message))
    case Done => Ok([])
  }

  /** `EncodeError` replaces the empty message and cuts a long one. */
  function SentMessage(message: bytes): bytes {
    var m := if message == [] then UNKNOWN_ERROR else message;
    if |m| > MAX_ERROR then m[..MAX_ERROR] else m
  }

  function Encode(utf8: bytes -> bool, id: RequestID, p: Packet): Result<bytes> {
    var payload :- Payload(utf8, p);
    EncodeFrame(TypeOf(p), id, payload)
  }

  /** The count `DecodeMeta` recomputes, in wrapping `uint64` arithmetic. */
  function WrappedChunks(size: U64, chunkSize: U16): nat
    requires chunkSize > 0
  {
    if size == 0 then 0 else (size + chunkSize - 1) % Pow64() / chunkSize
  }

  function Pow64(): int { 0x1_0000_0000_0000_0000 }

  function ReadMeta(payload: bytes): Meta
    requires |payload| == 46
  {
    Meta(Decode64(payload[0..8]), Decode32(payload[8..12]), Decode16(payload[12..14]), payload[14..46])
  }

  /** What each typed decoder makes of the payload of its own type. */
  function Unpack(utf8: bytes -> bool, t: Type, payload: bytes): Result<Packet> {
    match t
    case ClientHelloType =>
      if |payload| != 96 then Err("invalid client hello length")
      else Ok(ClientHello(payload[0..32], payload[32..64], payload[64..96]))
    case ServerHelloType =>
      if |payload| < 67 then Err("invalid server hello length")
      else
        var n := Decode16(payload[64..66]);
        if n == 0 || n > 512 || |payload| != 66 + n then Err("invalid server hello signature length")
        else Ok(ServerHello(payload[0..32], payload[32..64], payload[66..]))
    case SecureType =>
      if |payload| < 8 + 16 then Err("encrypted payload is too short") else Ok(Secure(payload))
    case RequestType =>
      if payload == [] || |payload| > MAX_REQUEST_PATH || !utf8(payload) then Err("invalid requested path")
      else Ok(Request(payload))
    case MetaType =>
      if |payload| != 46 then Err("invalid metadata length")
      else
        var m := ReadMeta(payload);
        if m.chunkSize == 0 || m.chunkSize > CHUNK_SIZE then Err("invalid metadata chunk size")
        else if WrappedChunks(m.size, m.chunkSize) != m.chunks then Err("inconsistent metadata chunk count")
        else Ok(MetaPacket(m))
    case GetType =>
      if |payload| != 4 then Err("invalid chunk request length") else Ok(Get(Decode32(payload)))
    case DataType =>
      if |payload| < 4 || |payload| - 4 > CHUNK_SIZE then Err("invalid chunk data length")
      else Ok(Data(Decode32(payload[0..4]), payload[4..]))
    case ErrorType => Ok(Error(payload))
    case DoneType =>
      if payload != [] then Err("invalid completion packet length") else Ok(Done)
  }

  /** The typed decoder for `want`. */
  function Decode(utf8: bytes -> bool, want: Type, d: bytes): Result<(RequestID, Packet)> {
    var (t, id, payload) :- DecodeFrame(d);
    if t != want then Err("unexpected packet type")
    else
      var p :- Unpack(utf8, t, payload);
      Ok((id, p))
  }

  /** `EncodeSecure`; no UTF-8 check is involved. */
  function EncodeSecure(id: RequestID, payload: bytes): Result<bytes> {
    Encode(_ => true, id, Secure(payload))
  }

  function DecodeSecure(d: bytes): Result<(RequestID, bytes)> {
    var (id, p) :- Decode(_ => true, SecureType, d);
    Ok((id, if p.Secure? then p.payload else []))
  }

  /** The associated data of a sealed packet: its own header and sequence. */
  function SecureAssociatedData(id: RequestID, sequence: U64): (ad: bytes)
    ensures |ad| == HEADER_SIZE + 8
  {
    Frame(SecureType, id, []) + ToBE(sequence, 8)
  }

  // ----- laws -----

  /** The decoder refuses a meta the (unchecking) encoder let through exactly when its
      chunk size or count is off. */
  predicate MetaAccepted(m: Meta) {
    0 < m.chunkSize <= CHUNK_SIZE && WrappedChunks(m.size, m.chunkSize) == m.chunks
  }

  /** What comes out at the other end: an error message as `EncodeError` rewrote it. */
  function Received(p: Packet): Packet {
    if p.Error? then Error(SentMessage(p.message)) else p
  }

  lemma FrameParts(t: Type, id: RequestID, payload: bytes)
    requires HEADER_SIZE + |payload| <= MAX_DATAGRAM_SIZE
    ensures DecodeFrame(Frame(t, id, payload)) == Ok((t, id, payload))
  {
    var d := Frame(t, id, payload);
    assert d[0..4] == MAGIC;
    assert d[6..22] == id;
    assert d[22..] == payload;
  }

  lemma PartsFrame(d: bytes)
    requires DecodeFrame(d).Ok?
    ensures var (t, id, payload) := DecodeFrame(d).value; Frame(t, id, payload) == d
  {
    var (t, id, payload) := DecodeFrame(d).value;
    assert d == d[0..4] + [d[4], d[5]] + d[6..22] + d[22..];
    assert TypeByte(t) == d[5];
  }

  lemma MetaFields(m: Meta)
    ensures var s := ToBE(m.size, 8) + ToBE(m.chunks, 4) + ToBE(m.chunkSize, 2) + m.sha256;
            |s| == 46 && ReadMeta(s) == m
  {
    var a, b, c := ToBE(m.size, 8), ToBE(m.chunks, 4), ToBE(m.chunkSize, 2);
    var s := a + b + c + m.sha256;
    assert s[0..8] == a && s[8..12] == b && s[12..14] == c && s[14..46] == m.sha256;
    Widths();
    FromToBE(m.size, 8);
    FromToBE(m.chunks, 4);
    FromToBE(m.chunkSize, 2);
  }

  lemma FieldsMeta(s: bytes)
    requires |s| == 46
    ensures var m := ReadMeta(s); ToBE(m.size, 8) + ToBE(m.chunks, 4) + ToBE(m.chunkSize, 2) + m.sha256 == s
  {
    ToFromBE(s[0..8]);
    ToFromBE(s[8..12]);
    ToFromBE(s[12..14]);
    assert s == s[0..8] + s[8..12] + s[12..14] + s[14..46];
  }

  lemma PackUnpack(utf8: bytes -> bool, p: Packet)
    requires Payload(utf8, p).Ok?
    ensures p.MetaPacket? && !MetaAccepted(p.meta) ==> Unpack(utf8, TypeOf(p), Payload(utf8, p).value).Err?
    ensures !(p.MetaPacket? && !MetaAccepted(p.meta)) ==> Unpack(utf8, TypeOf(p), Payload(utf8, p).value) == Ok(Received(p))
  {
    Widths();
    match p
    case ClientHello(publicKey, nonce, authentication) =>
      var s := publicKey + nonce + authentication;
      assert s[0..32] == publicKey && s[32..64] == nonce && s[64..96] == authentication;
    case ServerHello(publicKey, nonce, signature) => PackServerHello(utf8, publicKey, nonce, signature);
    case MetaPacket(m) => MetaFields(m);
    case Get(index) => FromToBE(index, 4);
    case Data(index, data) =>
      var s := ToBE(index, 4) + data;
      assert s[0..4] == ToBE(index, 4) && s[4..] == data;
      FromToBE(index, 4);
    case _ =>
  }

  lemma PackServerHello(utf8: bytes -> bool, publicKey: bytes, nonce: bytes, signature: bytes)
    requires Payload(utf8, ServerHello(publicKey, nonce, signature)).Ok?
    ensures Unpack(utf8, ServerHelloType, Payload(utf8, ServerHello(publicKey, nonce, signature)).value)
         == Ok(ServerHello(publicKey, nonce, signature))
  {
    var s := Payload(utf8, ServerHello(publicKey, nonce, signature)).value;
    Widths();
    assert s[0..32] == publicKey && s[32..64] == nonce && s[66..] == signature;
    assert s[64..66] == ToBE(|signature|, 2);
    FromToBE(|signature|, 2);
  }

  lemma UnpackPack(utf8: bytes -> bool, t: Type, payload: bytes)
    requires Unpack(utf8, t, payload).Ok?
    ensures var p := Unpack(utf8, t, payload).value;
            TypeOf(p) == t && (t != ErrorType ==> Payload(utf8, p) == Ok(payload))
            && (p.MetaPacket? ==> MetaAccepted(p.meta))
  {
    match t
    case ClientHelloType =>
      assert payload == payload[0..32] + payload[32..64] + payload[64..96];
    case ServerHelloType =>
      ToFromBE(payload[64..66]);
      assert payload == payload[0..32] + payload[32..64] + payload[64..66] + payload[66..];
    case MetaType => FieldsMeta(payload);
    case GetType => ToFromBE(payload);
    case DataType =>
      ToFromBE(payload[0..4]);
      assert payload == payload[0..4] + payload[4..];
    case _ =>
  }

  /** Decoding inverts encoding: every packet an encoder emits comes back, except a meta
      whose counts disagree; an error message comes back as it was sent. */
  lemma DecodeInvertsEncode(utf8: bytes -> bool, id: RequestID, p: Packet)
    requires Encode(utf8, id, p).Ok?
    ensures var d := Encode(utf8, id, p).value;
            if p.MetaPacket? && !MetaAccepted(p.meta) then Decode(utf8, MetaType, d).Err?
            else Decode(utf8, TypeOf(p), d) == Ok((id, Received(p)))
    ensures p.Error? ==> (Received(p) == p <==> 1 <= |p.message| <= MAX_ERROR)
  {
    FrameParts(TypeOf(p), id, Payload(utf8, p).value);
    PackUnpack(utf8, p);
  }

  /** Encoding inverts decoding on every accepted datagram; for an error datagram, exactly
      when its message is one `EncodeError` would not rewrite. */
  lemma EncodeInvertsDecode(utf8: bytes -> bool, t: Type, d: bytes)
    requires Decode(utf8, t, d).Ok?
    ensures var (id, p) := Decode(utf8, t, d).value;
            TypeOf(p) == t &&
            (Encode(utf8, id, p) == Ok(d) <==> (t == ErrorType ==> 1 <= |p.message| <= MAX_ERROR))
  {
    PartsFrame(d);
    var (t', id, payload) := DecodeFrame(d).value;
    UnpackPack(utf8, t, payload);
    if t == ErrorType && !(1 <= |payload| <= MAX_ERROR) {
      var sent := SentMessage(payload);
      assert |sent| != |payload|;
      assert |Frame(t, id, sent)| != |d|;
    }
  }

  /** No datagram satisfies two typed decoders. */
  lemma DecodersAreDisjoint(utf8: bytes -> bool, t: Type, u: Type, d: bytes)
    requires Decode(utf8, t, d).Ok? && Decode(utf8, u, d).Ok?
    ensures t == u && Header(d) == Ok((t, Decode(utf8, t, d).value.0))
  {}

  /** Every inner packet leaves room for the encryption overhead, and only the fixed-size
      and bounded payloads reach an encoder's output. */
  lemma EncodedSizes(utf8: bytes -> bool, id: RequestID, p: Packet)
    requires Encode(utf8, id, p).Ok?
    ensures var d := Encode(utf8, id, p).value;
            HEADER_SIZE <= |d| <= MAX_DATAGRAM_SIZE && (IsInner(TypeOf(p)) ==> |d| <= MAX_INNER_SIZE)
    ensures Header(Encode(utf8, id, p).value) == Ok((TypeOf(p), id))
  {
    FrameParts(TypeOf(p), id, Payload(utf8, p).value);
  }

  /** The ceiling a chunk count is meant to be. */
  function CeilDiv(size: nat, chunkSize: nat): nat
    requires chunkSize > 0
  {
    (size + chunkSize - 1) / chunkSize
  }

  /** `DecodeMeta`'s `uint64` sum wraps near 2^64: an accepted meta counts its chunks
      correctly exactly when the sum stays in range. */
  lemma AcceptedMetaIsConsistent(m: Meta)
    requires MetaAccepted(m)
    ensures m.chunks == CeilDiv(m.size, m.chunkSize) <==> m.size + m.chunkSize - 1 < Pow64()
  {
    var sum := m.size + m.chunkSize - 1;
    if sum >= Pow64() {
      assert sum % Pow64() == sum - Pow64();
      DivSmall(sum - Pow64(), m.chunkSize);
      DivPositive(sum, m.chunkSize);
    } else if m.size == 0 {
      DivSmall(sum, m.chunkSize);
    }
  }

  lemma DivSmall(a: nat, b: nat)
    requires a < b
    ensures a / b == 0
  {}

  lemma DivPositive(a: nat, b: nat)
    requires 0 < b <= a
    ensures a / b >= 1
  {}

  /** The concrete case: 2^64-1 bytes in no chunks passes the check. */
  lemma WrappingMetaIsAccepted(sha256: Block)
    ensures var m := Meta(0xffff_ffff_ffff_ffff, 0, 1120, sha256);
            MetaAccepted(m) && m.chunks != CeilDiv(m.size, m.chunkSize)
  {}
}
