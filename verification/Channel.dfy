/** One direction of a session over whole runs: a sender that seals, a receiver that opens,
    and a network that may deliver anything except a forgery, in any order, any number of
    times. */
module Channel {
  import opened Bytes
  import opened Codec
  import opened Replay
  import opened Secure

  /** Opening a genuine packet depends on nothing but its sequence. */
  lemma OpensWire(aead: Aead, e: Endpoint, sequence: U64, inner: bytes)
    requires aead.Laws() && |inner| <= MAX_INNER_SIZE
    requires 1 <= sequence <= MAX_UINT32 && BelongsTo(e.id, inner)
    ensures Wire(aead, e.inboundKey, e.id, sequence, inner).Ok?
    ensures OpenStep(aead, e, Wire(aead, e.inboundKey, e.id, sequence, inner).value)
         == if e.seen.Fresh(sequence) then (e.(seen := e.seen.Accept(sequence)), Ok(inner))
            else (e, Err("encrypted packet replay detected"))
  {
    WireShape(aead, e.inboundKey, e.id, sequence, inner);
    var d := Wire(aead, e.inboundKey, e.id, sequence, inner).value;
    var text := aead.seal(e.inboundKey, SequenceNonce(sequence), inner, SecureAssociatedData(e.id, sequence));
    var payload := d[HEADER_SIZE..];
    assert payload == ToBE(sequence, 8) + text;
    assert payload[0..8] == ToBE(sequence, 8) && payload[8..] == text;
    Widths();
    FromToBE(sequence, 8);
  }

  lemma SealsWire(aead: Aead, e: Endpoint, inner: bytes)
    requires BelongsTo(e.id, inner) && |inner| <= MAX_INNER_SIZE && e.sealed < MAX_UINT32
    ensures SealStep(aead, e, inner)
         == (e.(sealed := e.sealed + 1), Wire(aead, e.outboundKey, e.id, e.sealed + 1, inner))
  {}

  ghost predicate IsWire(aead: Aead, e: Endpoint, d: bytes, sequence: U64, inner: bytes) {
    Wire(aead, e.inboundKey, e.id, sequence, inner) == Ok(d)
  }

  /** Nothing but a genuine packet has any effect: a datagram that fails authentication
      leaves the replay state as it was. */
  lemma OnlyWiresCount(aead: Aead, e: Endpoint, d: bytes) returns (sequence: U64, inner: bytes)
    requires aead.Laws()
    requires OpenStep(aead, e, d).0 != e || OpenStep(aead, e, d).1.Ok?
    ensures IsWire(aead, e, d, sequence, inner)
    ensures 1 <= sequence <= MAX_UINT32 && e.seen.Fresh(sequence)
    ensures OpenStep(aead, e, d).0 == e.(seen := e.seen.Accept(sequence))
    ensures OpenStep(aead, e, d).1 == Ok(inner) || !BelongsTo(e.id, inner)
  {
    var (id, payload) := DecodeSecure(d).value;
    SecureInverts(d);
    sequence := Decode64(payload[0..8]);
    ToFromBE(payload[0..8]);
    var nonce, ad := SequenceNonce(sequence), SecureAssociatedData(e.id, sequence);
    inner := aead.open(e.inboundKey, nonce, payload[8..], ad).value;
    assert payload[8..] == aead.seal(e.inboundKey, nonce, inner, ad);
    assert payload == payload[0..8] + payload[8..];
  }

  lemma SecureInverts(d: bytes)
    requires DecodeSecure(d).Ok?
    ensures EncodeSecure(DecodeSecure(d).value.0, DecodeSecure(d).value.1) == Ok(d)
    ensures |DecodeSecure(d).value.1| >= 8
  {
    EncodeInvertsDecode(_ => true, SecureType, d);
  }

  /** Distinct sequences never share a nonce. */
  lemma NoncesAreDistinct(p: U64, q: U64)
    ensures SequenceNonce(p) == SequenceNonce(q) ==> p == q
  {
    var zeros: bytes := seq(NONCE_SIZE - 8, _ => 0);
    assert SequenceNonce(p)[NONCE_SIZE - 8..] == ToBE(p, 8);
    assert SequenceNonce(q)[NONCE_SIZE - 8..] == ToBE(q, 8);
    Widths();
    FromToBE(p, 8);
    FromToBE(q, 8);
  }

  /** `inners[k]` is the packet sealed under sequence k + 1; `handed` logs what the
      receiver handed on, oldest first. */
  datatype State = State(sender: Endpoint, receiver: Endpoint, inners: seq<bytes>, handed: seq<(nat, bytes)>)

  datatype Action = SealPacket(inner: bytes) | Deliver(datagram: bytes)

  /** Ideal authenticity: a datagram that is some packet's sealed form was sealed by the sender. */
  ghost predicate Genuine(aead: Aead, s: State, d: bytes) {
    forall sequence: U64, inner: bytes :: IsWire(aead, s.receiver, d, sequence, inner) ==>
      1 <= sequence <= |s.inners| && s.inners[sequence - 1] == inner
  }

  ghost predicate Enabled(aead: Aead, s: State, a: Action) {
    a.Deliver? ==> Genuine(aead, s, a.datagram)
  }

  function Next(aead: Aead, s: State, a: Action): State {
    match a
    case SealPacket(inner) =>
      var (sender, r) := SealStep(aead, s.sender, inner);
      if r.Ok? then s.(sender := sender, inners := s.inners + [inner]) else s.(sender := sender)
    case Deliver(d) =>
      var (receiver, r) := OpenStep(aead, s.receiver, d);
      var s' := s.(receiver := receiver);
      if r.Ok? then s'.(handed := s.handed + [(Decode64(DecodeSecure(d).value.1[0..8]), r.value)]) else s'
  }

  /** The state after a whole run. */
  function Run(aead: Aead, s: State, actions: seq<Action>): State {
    if actions == [] then s else Next(aead, Run(aead, s, actions[..|actions| - 1]), actions[|actions| - 1])
  }

  ghost predicate Admissible(aead: Aead, s: State, actions: seq<Action>) {
    forall k | 0 <= k < |actions| :: Enabled(aead, Run(aead, s, actions[..k]), actions[k])
  }

  ghost predicate Initial(s: State) {
    && s.inners == [] && s.handed == []
    && s.sender.sealed == 0 && s.receiver.seen == NOTHING_SEEN
    && s.sender.id == s.receiver.id && s.sender.outboundKey == s.receiver.inboundKey
  }

  ghost predicate Inv(s: State) {
    && s.sender.id == s.receiver.id && s.sender.outboundKey == s.receiver.inboundKey
    && |s.inners| == s.sender.sealed <= MAX_UINT32
    && (forall p <- s.inners :: BelongsTo(s.sender.id, p) && |p| <= MAX_INNER_SIZE)
    && LogMatches(s.receiver.seen, s.inners, s.handed)
  }

  /** The log holds each accepted sequence once, with the packet sealed under it. */
  ghost predicate LogMatches(seen: Seen, inners: seq<bytes>, handed: seq<(nat, bytes)>) {
    && seen.Valid()
    && (forall q <- seen.accepted :: q <= |inners|)
    && (forall k | 0 <= k < |handed| :: handed[k].0 in seen.accepted && 1 <= handed[k].0 <= |inners|
                                     && handed[k].1 == inners[handed[k].0 - 1])
    && seen.accepted == Logged(handed)
    && (forall j, k | 0 <= j < k < |handed| :: handed[j].0 != handed[k].0)
  }

  function Logged(handed: seq<(nat, bytes)>): set<nat> {
    if handed == [] then {} else Logged(handed[..|handed| - 1]) + {handed[|handed| - 1].0}
  }

  lemma {:induction false} LoggedAt(handed: seq<(nat, bytes)>, q: nat) returns (k: nat)
    requires q in Logged(handed)
    ensures k < |handed| && handed[k].0 == q
  {
    var n := |handed| - 1;
    if handed[n].0 == q {
      k := n;
    } else {
      k := LoggedAt(handed[..n], q);
    }
  }

  /** A seal either changes nothing or appends one packet. */
  lemma SealShape(aead: Aead, s: State, inner: bytes)
    requires aead.Laws()
    ensures Next(aead, s, SealPacket(inner)) == s
         || (BelongsTo(s.sender.id, inner) && |inner| <= MAX_INNER_SIZE && s.sender.sealed < MAX_UINT32
             && Next(aead, s, SealPacket(inner))
                == s.(sender := s.sender.(sealed := s.sender.sealed + 1), inners := s.inners + [inner]))
  {
    if BelongsTo(s.sender.id, inner) && |inner| <= MAX_INNER_SIZE && s.sender.sealed < MAX_UINT32 {
      SealsWire(aead, s.sender, inner);
      WireIsMade(aead, s.sender.outboundKey, s.sender.id, s.sender.sealed + 1, inner);
    }
  }

  lemma WireIsMade(aead: Aead, key: bytes, id: RequestID, sequence: U64, inner: bytes)
    requires aead.Laws() && |inner| <= MAX_INNER_SIZE
    ensures Wire(aead, key, id, sequence, inner).Ok?
  {
    WireShape(aead, key, id, sequence, inner);
  }

  lemma AppendKeepsInv(s: State, inner: bytes)
    requires Inv(s) && s.sender.sealed < MAX_UINT32
    requires BelongsTo(s.sender.id, inner) && |inner| <= MAX_INNER_SIZE
    ensures Inv(s.(sender := s.sender.(sealed := s.sender.sealed + 1), inners := s.inners + [inner]))
  {}

  /** The sequence a datagram carries in clear is the one it was sealed under. */
  lemma WireSequence(aead: Aead, e: Endpoint, d: bytes, q: U64, inner: bytes)
    requires aead.Laws() && IsWire(aead, e, d, q, inner) && |inner| <= MAX_INNER_SIZE
    ensures DecodeSecure(d).Ok? && |DecodeSecure(d).value.1| >= 8 && Decode64(DecodeSecure(d).value.1[0..8]) == q
  {
    WireShape(aead, e.inboundKey, e.id, q, inner);
    assert DecodeSecure(d).value.1[0..8] == ToBE(q, 8);
    Widths();
    FromToBE(q, 8);
  }

  /** A genuine delivery either changes nothing or records one fresh sequence. */
  lemma DeliverShape(aead: Aead, s: State, d: bytes)
    requires aead.Laws() && Inv(s) && Genuine(aead, s, d)
    ensures Next(aead, s, Deliver(d)) == s
         || exists q: nat :: 1 <= q <= |s.inners| && s.receiver.seen.Fresh(q)
                          && Next(aead, s, Deliver(d)) == Recorded(s, q)
  {
    var (receiver, r) := OpenStep(aead, s.receiver, d);
    if receiver != s.receiver || r.Ok? {
      var q, inner := OnlyWiresCount(aead, s.receiver, d);
      assert 1 <= q <= |s.inners| && s.inners[q - 1] == inner;
      DeliversOne(aead, s, d, q, inner);
    }
  }

  lemma DeliversOne(aead: Aead, s: State, d: bytes, q: U64, inner: bytes)
    requires aead.Laws() && IsWire(aead, s.receiver, d, q, inner)
    requires 1 <= q <= |s.inners| && s.inners[q - 1] == inner && BelongsTo(s.receiver.id, inner) && |inner| <= MAX_INNER_SIZE
    requires OpenStep(aead, s.receiver, d).0 == s.receiver.(seen := s.receiver.seen.Accept(q))
    requires OpenStep(aead, s.receiver, d).1 == Ok(inner)
    ensures Next(aead, s, Deliver(d)) == Recorded(s, q)
  {
    WireSequence(aead, s.receiver, d, q, inner);
  }

  function Recorded(s: State, q: nat): State
    requires 1 <= q <= |s.inners|
  {
    s.(receiver := s.receiver.(seen := s.receiver.seen.Accept(q)), handed := s.handed + [(q, s.inners[q - 1])])
  }

  lemma RecordKeepsLog(seen: Seen, inners: seq<bytes>, handed: seq<(nat, bytes)>, q: nat)
    requires LogMatches(seen, inners, handed)
    requires 1 <= q <= |inners| && seen.Fresh(q)
    ensures LogMatches(seen.Accept(q), inners, handed + [(q, inners[q - 1])])
  {
    var longer := handed + [(q, inners[q - 1])];
    assert longer[..|handed|] == handed;
    assert q !in seen.accepted;
  }

  lemma StepKeepsInv(aead: Aead, s: State, a: Action)
    requires aead.Laws() && Inv(s) && Enabled(aead, s, a)
    ensures Inv(Next(aead, s, a))
  {
    match a
    case SealPacket(inner) =>
      SealShape(aead, s, inner);
      if Next(aead, s, a) != s {
        AppendKeepsInv(s, inner);
      }
    case Deliver(d) =>
      DeliverShape(aead, s, d);
      if Next(aead, s, a) != s {
        var q: nat :| 1 <= q <= |s.inners| && s.receiver.seen.Fresh(q) && Next(aead, s, a) == Recorded(s, q);
        RecordKeepsLog(s.receiver.seen, s.inners, s.handed, q);
      }
  }

  lemma {:induction false} RunKeepsInv(aead: Aead, s: State, actions: seq<Action>)
    requires aead.Laws() && Initial(s) && Admissible(aead, s, actions)
    ensures Inv(Run(aead, s, actions))
  {
    if actions != [] {
      var n := |actions| - 1;
      var before := actions[..n];
      forall k | 0 <= k < n ensures Enabled(aead, Run(aead, s, before[..k]), before[k]) {
        assert before[..k] == actions[..k];
      }
      RunKeepsInv(aead, s, before);
      var t := Run(aead, s, before);
      assert Enabled(aead, t, actions[n]);
      StepKeepsInv(aead, t, actions[n]);
    }
  }

  /** Each entry of the log is the packet sealed under its sequence; no sequence occurs twice. */
  ghost predicate OncePerSequence(inners: seq<bytes>, handed: seq<(nat, bytes)>) {
    && (forall k | 0 <= k < |handed| :: 1 <= handed[k].0 <= |inners| && handed[k].1 == inners[handed[k].0 - 1])
    && (forall j, k | 0 <= j < k < |handed| :: handed[j].0 != handed[k].0)
  }

  lemma LogIsOnce(seen: Seen, inners: seq<bytes>, handed: seq<(nat, bytes)>)
    requires LogMatches(seen, inners, handed)
    ensures OncePerSequence(inners, handed)
  {}

  /** Exactly-once opening: over any run, what the receiver handed on is what was sealed
      under that sequence, and no sequence is handed on twice. */
  lemma OpensExactlyOnce(aead: Aead, s: State, actions: seq<Action>)
    requires aead.Laws() && Initial(s) && Admissible(aead, s, actions)
    ensures var t := Run(aead, s, actions);
            |t.inners| == t.sender.sealed <= 0xffff_ffff && OncePerSequence(t.inners, t.handed)
  {
    RunKeepsInv(aead, s, actions);
    var t := Run(aead, s, actions);
    LogIsOnce(t.receiver.seen, t.inners, t.handed);
  }

  /** The first arrival of a sealed packet opens exactly when fewer than 256 sequences
      separate it from the highest accepted; any later arrival is refused and changes nothing. */
  lemma ArrivalOpensIff(aead: Aead, s: State, sequence: U64)
    requires aead.Laws() && Inv(s) && 1 <= sequence <= |s.inners|
    ensures Wire(aead, s.sender.outboundKey, s.sender.id, sequence, s.inners[sequence - 1]).Ok?
    ensures var d := Wire(aead, s.sender.outboundKey, s.sender.id, sequence, s.inners[sequence - 1]).value;
            var first := !exists k :: 0 <= k < |s.handed| && s.handed[k].0 == sequence;
            var (receiver, r) := OpenStep(aead, s.receiver, d);
            && (r == Ok(s.inners[sequence - 1]) <==> first && s.receiver.seen.highest < sequence + 256)
            && (r.Err? ==> receiver == s.receiver)
  {
    OpensWire(aead, s.receiver, sequence, s.inners[sequence - 1]);
    if sequence in Logged(s.handed) {
      var k := LoggedAt(s.handed, sequence);
    }
  }
}
