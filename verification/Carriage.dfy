/** Why the transfer may speak of sealed packets: a typed packet, encoded, sealed, carried as
    a datagram, opened and decoded, arrives as itself, and whether it is opened depends on
    nothing but its sequence. */
module Carriage {
  import opened Bytes
  import opened Codec
  import opened Secure
  import opened Channel
  import R = Receiver

  /** A packet that travels inside a session and survives its own codec. */
  predicate Carried(utf8: bytes -> bool, id: RequestID, p: Packet) {
    && IsInner(TypeOf(p)) && Encode(utf8, id, p).Ok?
    && Received(p) == p && (p.MetaPacket? ==> MetaAccepted(p.meta))
  }

  lemma InnerBelongs(utf8: bytes -> bool, id: RequestID, p: Packet)
    requires Carried(utf8, id, p)
    ensures var inner := Encode(utf8, id, p).value;
            BelongsTo(id, inner) && |inner| <= MAX_INNER_SIZE && Decode(utf8, TypeOf(p), inner) == Ok((id, p))
  {
    EncodedSizes(utf8, id, p);
    DecodeInvertsEncode(utf8, id, p);
  }

  /** Sealing a packet spends the next sequence and yields its wire form. */
  lemma PacketIsSealed(aead: Aead, utf8: bytes -> bool, sender: Endpoint, p: Packet)
    requires Carried(utf8, sender.id, p) && sender.sealed < MAX_UINT32
    ensures var inner := Encode(utf8, sender.id, p).value;
            SealStep(aead, sender, inner)
            == (sender.(sealed := sender.sealed + 1), Wire(aead, sender.outboundKey, sender.id, sender.sealed + 1, inner))
  {
    InnerBelongs(utf8, sender.id, p);
    SealsWire(aead, sender, Encode(utf8, sender.id, p).value);
  }

  /** The wire form fits a datagram; opening it hands on the very packet, or, when its
      sequence is not fresh, changes nothing. */
  lemma PacketTravels(aead: Aead, utf8: bytes -> bool, receiver: Endpoint, sequence: U64, p: Packet)
    requires aead.Laws() && Carried(utf8, receiver.id, p) && 1 <= sequence <= MAX_UINT32
    ensures Wire(aead, receiver.inboundKey, receiver.id, sequence, Encode(utf8, receiver.id, p).value).Ok?
    ensures var inner := Encode(utf8, receiver.id, p).value;
            OpenStep(aead, receiver, Wire(aead, receiver.inboundKey, receiver.id, sequence, inner).value)
            == if receiver.seen.Fresh(sequence) then (receiver.(seen := receiver.seen.Accept(sequence)), Ok(inner))
               else (receiver, Err("encrypted packet replay detected"))
    ensures Decode(utf8, TypeOf(p), Encode(utf8, receiver.id, p).value) == Ok((receiver.id, p))
  {
    InnerBelongs(utf8, receiver.id, p);
    OpensWire(aead, receiver, sequence, Encode(utf8, receiver.id, p).value);
  }

  /** The receive loop does with the bytes of a packet what it does with the packet. */
  lemma LoopReadsPacket(utf8: bytes -> bool, id: RequestID, v: R.View, p: Packet, room: nat)
    requires Carried(utf8, id, p)
    ensures R.HandleInner(v, Encode(utf8, id, p).value, room) == R.Handle(v, p, room)
  {
    InnerBelongs(utf8, id, p);
    EncodedSizes(utf8, id, p);
    if p.Data? || p.Error? {
      DecodeInvertsEncode(_ => true, id, p);
    }
  }
}
