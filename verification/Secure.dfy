/** internal/secure/session.go: sealing and opening packets. AES-GCM is a parameter known
    only through its laws. */
module Secure {
  import opened Bytes
  import opened Codec
  import opened Replay
  import opened Words

  const NONCE_SIZE := 12
  const OVERHEAD := 16

  datatype Aead = Aead(
    seal: (bytes, bytes, bytes, bytes) -> bytes,
    open: (bytes, bytes, bytes, bytes) -> Option<bytes>)
  {
    /** Arguments: key, nonce, text, associated data. Opening inverts sealing, and nothing
        else opens: the tag is a function of the other three and the text. */
    ghost predicate Laws() {
      && (forall k, n, p, a :: |seal(k, n, p, a)| == |p| + OVERHEAD)
      && (forall k, n, p, a :: open(k, n, seal(k, n, p, a), a) == Some(p))
      && (forall k, n, c, a :: open(k, n, c, a).Some? ==> c == seal(k, n, open(k, n, c, a).value, a))
    }
  }

  /** `sequenceNonce` */
  function SequenceNonce(sequence: U64): (nonce: bytes)
    ensures |nonce| == NONCE_SIZE
  {
    seq(NONCE_SIZE - 8, _ => 0) + ToBE(sequence, 8)
  }

  /** One end of a session as a value: its two keys, how many packets it has sealed, and
      what it has accepted. */
  datatype Endpoint = Endpoint(id: RequestID, outboundKey: bytes, inboundKey: bytes, sealed: nat, seen: Seen)

  predicate BelongsTo(id: RequestID, inner: bytes) {
    Header(inner).Ok? && Header(inner).value.1 == id && IsInner(Header(inner).value.0)
  }

  /** The datagram that carries `inner` under a given sequence. */
  function Wire(aead: Aead, key: bytes, id: RequestID, sequence: U64, inner: bytes): Result<bytes> {
    EncodeSecure(id, ToBE(sequence, 8)
                     + aead.seal(key, SequenceNonce(sequence), inner, SecureAssociatedData(id, sequence)))
  }

  function SealStep(aead: Aead, e: Endpoint, inner: bytes): (Endpoint, Result<bytes>) {
    if Header(inner).Err? then (e, Err("validate inner packet"))
    else if !BelongsTo(e.id, inner) then (e, Err("inner packet does not belong to secure session"))
    else if |inner| > MAX_INNER_SIZE then (e, Err("inner packet is too large for encrypted transport"))
    else if e.sealed >= MAX_UINT32 then (e, Err("encrypted session reached its packet limit"))
    else (e.(sealed := e.sealed + 1), Wire(aead, e.outboundKey, e.id, e.sealed + 1, inner))
  }

  function OpenStep(aead: Aead, e: Endpoint, d: bytes): (Endpoint, Result<bytes>) {
    match DecodeSecure(d)
    case Err(error) => (e, Err(error))
    case Ok((id, payload)) =>
      if id != e.id then (e, Err("encrypted packet request ID does not match session"))
      else if |payload| < 8 + OVERHEAD then (e, Err("encrypted packet is too short"))
      else
        var sequence := Decode64(payload[0..8]);
        if sequence == 0 || sequence > MAX_UINT32 then (e, Err("encrypted packet sequence is invalid"))
        else
          match aead.open(e.inboundKey, SequenceNonce(sequence), payload[8..], SecureAssociatedData(e.id, sequence))
          case None => (e, Err("encrypted packet authentication failed"))
          case Some(plaintext) =>
            if !e.seen.Fresh(sequence) then (e, Err("encrypted packet replay detected"))
            else
              var e' := e.(seen := e.seen.Accept(sequence));
              if Header(plaintext).Err? then (e', Err("decrypted packet is malformed"))
              else if !BelongsTo(e.id, plaintext) then
                (e', Err("decrypted packet does not belong to secure session"))
              else (e', Ok(plaintext))
  }

  /** The session object: a counter on the way out, a bitmap on the way in. */
  class Session {
    const id: RequestID
    const aead: Aead
    const outboundKey: bytes
    const inboundKey: bytes
    var outboundSequence: nat
    var inboundSequence: nat
    const inboundSeen: array<Word>
    ghost var accepted: set<nat>

    ghost predicate Valid()
      reads this, inboundSeen
    {
      && inboundSeen.Length == WINDOW_WORDS
      && View().seen.Valid()
      && Represents(inboundSeen[..], View().seen)
    }

    ghost function View(): Endpoint
      reads this
    {
      Endpoint(id, outboundKey, inboundKey, outboundSequence, Seen(inboundSequence, accepted))
    }

    constructor (id: RequestID, aead: Aead, outboundKey: bytes, inboundKey: bytes)
      ensures Valid() && fresh(inboundSeen)
      ensures this.aead == aead
      ensures View() == Endpoint(id, outboundKey, inboundKey, 0, NOTHING_SEEN)
    {
      this.id, this.aead, this.outboundKey, this.inboundKey := id, aead, outboundKey, inboundKey;
      outboundSequence, inboundSequence := 0, 0;
      inboundSeen := new Word[4](_ => 0);
      accepted := {};
      new;
      forall d: nat | d < WINDOW ensures !BitOf(inboundSeen[..], d) {
        BitZero(d % 64);
      }
    }

    method AcceptInboundSequence(sequence: nat) returns (ok: bool)
      requires Valid()
      modifies this`inboundSequence, this`accepted, inboundSeen
      ensures Valid()
      ensures ok == old(View().seen).Fresh(sequence)
      ensures View() == old(View()).(seen := old(View().seen).Accept(sequence))
    {
      if sequence > inboundSequence {
        ShiftReplayWindow(inboundSeen, sequence - inboundSequence);
        inboundSequence := sequence;
        ghost var shifted := inboundSeen[..];
        BitMask(inboundSeen[0], 0);
        inboundSeen[0] := OrWord(inboundSeen[0], 1);
        accepted := accepted + {sequence};
        assert forall d: nat :: d < WINDOW ==> (BitOf(inboundSeen[..], d) <==> d == 0 || BitOf(shifted, d));
        return true;
      }
      var distance := inboundSequence - sequence;
      if distance >= WINDOW {
        return false;
      }
      var word, bit := distance / 64, distance % 64;
      var mask := Shl(1, bit);
      BitMask(inboundSeen[word], bit);
      assert BitOf(inboundSeen[..], distance) == Bit(inboundSeen[word], bit);
      if And(inboundSeen[word], mask) != 0 {
        return false;
      }
      ghost var was := inboundSeen[..];
      inboundSeen[word] := OrWord(inboundSeen[word], mask);
      accepted := accepted + {sequence};
      assert forall d: nat :: d < WINDOW ==> (BitOf(inboundSeen[..], d) <==> d == distance || BitOf(was, d));
      return true;
    }

    method Seal(innerPacket: bytes) returns (r: Result<bytes>)
      requires Valid()
      modifies this`outboundSequence
      ensures Valid()
      ensures (View(), r) == SealStep(aead, old(View()), innerPacket)
    {
      if Header(innerPacket).Err? {
        return Err("validate inner packet");
      }
      var (packetType, innerID) := Header(innerPacket).value;
      if innerID != id || !IsInner(packetType) {
        return Err("inner packet does not belong to secure session");
      }
      if |innerPacket| > MAX_INNER_SIZE {
        return Err("inner packet is too large for encrypted transport");
      }
      if outboundSequence >= MAX_UINT32 {
        return Err("encrypted session reached its packet limit");
      }
      outboundSequence := outboundSequence + 1;
      var sequence: U64 := outboundSequence;
      var ciphertext := aead.seal(outboundKey, SequenceNonce(sequence), innerPacket, SecureAssociatedData(id, sequence));
      r := EncodeSecure(id, ToBE(sequence, 8) + ciphertext);
    }

    method Open(encryptedPacket: bytes) returns (r: Result<bytes>)
      requires Valid()
      modifies this`inboundSequence, this`accepted, inboundSeen
      ensures Valid()
      ensures (View(), r) == OpenStep(aead, old(View()), encryptedPacket)
    {
      var decoded := DecodeSecure(encryptedPacket);
      if decoded.Err? {
        return Err(decoded.error);
      }
      var (packetID, payload) := decoded.value;
      if packetID != id {
        return Err("encrypted packet request ID does not match session");
      }
      if |payload| < 8 + OVERHEAD {
        return Err("encrypted packet is too short");
      }
      var sequence := Decode64(payload[0..8]);
      if sequence == 0 || sequence > MAX_UINT32 {
        return Err("encrypted packet sequence is invalid");
      }
      var plaintext := aead.open(inboundKey, SequenceNonce(sequence), payload[8..], SecureAssociatedData(id, sequence));
      if plaintext.None? {
        return Err("encrypted packet authentication failed");
      }
      var ok := AcceptInboundSequence(sequence);
      if !ok {
        return Err("encrypted packet replay detected");
      }
      if Header(plaintext.value).Err? {
        return Err("decrypted packet is malformed");
      }
      var (packetType, innerID) := Header(plaintext.value).value;
      if innerID != id || !IsInner(packetType) {
        return Err("decrypted packet does not belong to secure session");
      }
      return Ok(plaintext.value);
    }
  }

  // ----- laws of one sealed packet -----

  /** A packet the sealing end emits fits a datagram and authenticates its own first 30 bytes. */
  lemma WireShape(aead: Aead, key: bytes, id: RequestID, sequence: U64, inner: bytes)
    requires aead.Laws() && |inner| <= MAX_INNER_SIZE
    ensures Wire(aead, key, id, sequence, inner).Ok?
    ensures var d := Wire(aead, key, id, sequence, inner).value;
            |d| == HEADER_SIZE + 8 + |inner| + OVERHEAD <= MAX_DATAGRAM_SIZE
            && d[..HEADER_SIZE + 8] == SecureAssociatedData(id, sequence)
            && DecodeSecure(d) == Ok((id, d[HEADER_SIZE..]))
            && d[HEADER_SIZE..HEADER_SIZE + 8] == ToBE(sequence, 8)
  {
    var text := aead.seal(key, SequenceNonce(sequence), inner, SecureAssociatedData(id, sequence));
    var payload := ToBE(sequence, 8) + text;
    assert |text| == |inner| + OVERHEAD;
    var d := Frame(SecureType, id, payload);
    DecodeInvertsEncode(_ => true, id, Codec.Secure(payload));
    FrameParts(SecureType, id, payload);
    assert d[HEADER_SIZE..] == payload;
    assert d[..HEADER_SIZE + 8] == Frame(SecureType, id, []) + ToBE(sequence, 8);
  }

  /** The bytes of that datagram: the frame's header, the sequence big-endian, and the inner
      packet sealed with the sequence as nonce, authenticating the 30 bytes before it. */
  lemma WireBytes(aead: Aead, key: bytes, id: RequestID, sequence: U64, inner: bytes)
    requires aead.Laws() && |inner| <= MAX_INNER_SIZE
    ensures Wire(aead, key, id, sequence, inner).Ok?
    ensures var d := Wire(aead, key, id, sequence, inner).value;
            && |d| >= 30 && d[..6] == [85, 68, 70, 50, 2, 3] && d[6..22] == id && d[22..30] == ToBE(sequence, 8)
            && d[30..] == aead.seal(key, [0, 0, 0, 0] + ToBE(sequence, 8), inner, d[..30])
  {
    WireShape(aead, key, id, sequence, inner);
    var d := Wire(aead, key, id, sequence, inner).value;
    var text := aead.seal(key, SequenceNonce(sequence), inner, SecureAssociatedData(id, sequence));
    assert d == Frame(SecureType, id, ToBE(sequence, 8) + text);
    assert d[30..] == text;
    assert SequenceNonce(sequence) == [0, 0, 0, 0] + ToBE(sequence, 8);
  }

  // ----- exactly what is sealed and opened -----

  /** A well-formed packet of this session, of a type that travels inside one. */
  ghost predicate Inner(id: RequestID, inner: bytes) {
    && Header(inner).Ok? && Header(inner).value.1 == id
    && Header(inner).value.0 in {RequestType, MetaType, GetType, DataType, ErrorType, DoneType}
  }

  lemma BelongsIff(id: RequestID, inner: bytes)
    ensures Inner(id, inner) <==> BelongsTo(id, inner)
  {}

  /** A packet is sealed exactly when it belongs inside the session, fits, and fewer than 2^32-1
      were sealed before; nothing else spends a sequence. */
  lemma SealsIff(aead: Aead, e: Endpoint, inner: bytes)
    requires aead.Laws()
    ensures var (e', r) := SealStep(aead, e, inner);
            && (r.Ok? <==> Inner(e.id, inner) && |inner| <= 1186 && e.sealed < 0xffff_ffff)
            && e' == (if r.Ok? then e.(sealed := e.sealed + 1) else e)
            && (r.Ok? ==> r == Wire(aead, e.outboundKey, e.id, e.sealed + 1, inner))
  {
    BelongsIff(e.id, inner);
    if |inner| <= 1186 && e.sealed < 0xffff_ffff {
      WireFits(aead, e.outboundKey, e.id, e.sealed + 1, inner);
    }
  }

  lemma WireFits(aead: Aead, key: bytes, id: RequestID, sequence: U64, inner: bytes)
    requires aead.Laws() && |inner| <= 1186
    ensures Wire(aead, key, id, sequence, inner).Ok?
  {
    WireShape(aead, key, id, sequence, inner);
  }

  /** What a secure datagram for this session authenticates as, under which sequence. */
  ghost predicate Authentic(aead: Aead, e: Endpoint, d: bytes, sequence: U64, inner: bytes) {
    && |d| >= 46 && DecodeSecure(d) == Ok((e.id, d[22..]))
    && 1 <= sequence <= 0xffff_ffff && d[22..30] == ToBE(sequence, 8)
    && aead.open(e.inboundKey, [0, 0, 0, 0] + ToBE(sequence, 8), d[30..], d[..30]) == Some(inner)
  }

  lemma SecureParts(d: bytes)
    requires DecodeSecure(d).Ok?
    ensures var (id, payload) := DecodeSecure(d).value;
            && d == Frame(SecureType, id, payload) && |d| >= 46 && payload == d[22..]
            && payload[0..8] == d[22..30] && payload[8..] == d[30..]
            && var sequence := Decode64(payload[0..8]);
               && ToBE(sequence, 8) == d[22..30] && SecureAssociatedData(id, sequence) == d[..30]
               && SequenceNonce(sequence) == [0, 0, 0, 0] + ToBE(sequence, 8)
  {
    PartsFrame(d);
    var (id, payload) := DecodeSecure(d).value;
    assert d[22..] == payload;
    ToFromBE(payload[0..8]);
    assert payload[0..8] == d[22..30];
    assert d[..30] == d[..22] + d[22..30];
    assert d[..22] == Frame(SecureType, id, []);
  }

  lemma SequenceIs(sequence: U64, s: bytes)
    requires s == ToBE(sequence, 8)
    ensures Decode64(s) == sequence
  {
    Widths();
    FromToBE(sequence, 8);
  }

  /** An authentic datagram is opened exactly when its sequence is above the highest accepted, or
      less than 256 below it and not accepted yet, and it holds a packet of this session; such a
      sequence is accepted from then on even if the packet does not belong. */
  lemma OpensAuthentic(aead: Aead, e: Endpoint, d: bytes, sequence: U64, inner: bytes)
    requires Authentic(aead, e, d, sequence, inner)
    ensures var (e', r) := OpenStep(aead, e, d);
            var highest, accepted := e.seen.highest, e.seen.accepted;
            if sequence > highest || (highest - sequence < 256 && sequence !in accepted)
            then && e' == e.(seen := Seen(if sequence > highest then sequence else highest, accepted + {sequence}))
                 && (r == Ok(inner) <==> Inner(e.id, inner)) && (r.Ok? ==> r == Ok(inner))
            else e' == e && r.Err?
  {
    BelongsIff(e.id, inner);
    Reads(aead, e, d, sequence);
    OpensUnder(aead, e, d, sequence, inner);
  }

  /** What the code reads off a datagram that carries a given sequence. */
  lemma Reads(aead: Aead, e: Endpoint, d: bytes, sequence: U64)
    requires |d| >= 46 && DecodeSecure(d) == Ok((e.id, d[22..])) && d[22..30] == ToBE(sequence, 8)
    ensures Decode64(d[22..][0..8]) == sequence && d[22..][8..] == d[30..]
    ensures SecureAssociatedData(e.id, sequence) == d[..30] && SequenceNonce(sequence) == [0, 0, 0, 0] + ToBE(sequence, 8)
  {
    SecureParts(d);
    SequenceIs(sequence, d[22..30]);
  }

  lemma OpensUnder(aead: Aead, e: Endpoint, d: bytes, sequence: U64, inner: bytes)
    requires |d| >= 46 && DecodeSecure(d) == Ok((e.id, d[22..])) && 1 <= sequence <= 0xffff_ffff
    requires Decode64(d[22..][0..8]) == sequence && d[22..][8..] == d[30..] && SecureAssociatedData(e.id, sequence) == d[..30]
    requires aead.open(e.inboundKey, SequenceNonce(sequence), d[30..], d[..30]) == Some(inner)
    ensures var (e', r) := OpenStep(aead, e, d);
            if e.seen.Fresh(sequence)
            then e' == e.(seen := e.seen.Accept(sequence)) && (r.Ok? <==> BelongsTo(e.id, inner)) && (r.Ok? ==> r == Ok(inner))
            else e' == e && r.Err?
  {}

  /** No other datagram is opened, and none changes anything. */
  lemma OnlyAuthentic(aead: Aead, e: Endpoint, d: bytes)
    requires forall sequence: U64, inner: bytes :: !Authentic(aead, e, d, sequence, inner)
    ensures OpenStep(aead, e, d).0 == e && OpenStep(aead, e, d).1.Err?
  {
    if DecodeSecure(d).Ok? && DecodeSecure(d).value.0 == e.id {
      SecureParts(d);
      var sequence := Decode64(DecodeSecure(d).value.1[0..8]);
      var opening := aead.open(e.inboundKey, SequenceNonce(sequence), d[30..], d[..30]);
      if 1 <= sequence <= 0xffff_ffff && opening.Some? {
        assert Authentic(aead, e, d, sequence, opening.value);
        assert false;
      }
    }
  }
}
