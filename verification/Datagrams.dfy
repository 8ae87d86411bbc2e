/** The download over datagrams: the two ends encode, seal, open and decode, and the network
    carries bytes. Every run of it is a run of the system of sealed packets, and every run of
    that system is a run of this one, so what was proved there holds of the bytes. */
module Datagrams {
  import opened Bytes
  import opened Codec
  import opened Replay
  import opened Secure
  import opened Channel
  import opened Carriage
  import T = Transfer
  import C = Chunks
  import R = Receiver
  import W = SendWindow
  import P = Progress
  import Completion
  import Handshake

  /** What the handshake has settled: the identifier and the two directions' keys. */
  datatype Link = Link(aead: Aead, utf8: bytes -> bool, id: RequestID, clientKey: bytes, serverKey: bytes) {
    ghost predicate Valid() {
      aead.Laws()
    }
  }

  /** The client's and the server's session and variables, and every datagram ever sent. */
  datatype Wired = Wired(
    client: Endpoint,
    stage: T.Stage,
    view: R.View,
    server: Endpoint,
    phase: T.Phase,
    running: bool,
    announcement: Option<Packet>,
    pending: Option<nat>,
    sent: set<nat>,
    toServer: set<bytes>,
    toClient: set<bytes>)

  function Start(k: Link): Wired {
    Wired(Endpoint(k.id, k.clientKey, k.serverKey, 0, NOTHING_SEEN), T.AwaitingMeta, R.Start(T.NO_META),
          Endpoint(k.id, k.serverKey, k.clientKey, 0, NOTHING_SEEN), T.Connected, false, None, None, {}, {}, {})
  }

  /** A step that receives nothing, or one that receives a datagram. */
  datatype Event =
    | Local(a: T.Action)
    | ClientHears(toClient: bytes, room: nat)
    | ServerHears(toServer: bytes, readable: bool, sendable: bool)

  /** Ideal authenticity: a datagram that would open was sent. Any other may come from anywhere. */
  ghost predicate Authentic(k: Link, e: Endpoint, sent: set<bytes>, d: bytes) {
    forall sequence: U64, inner: bytes :: IsWire(k.aead, e, d, sequence, inner) ==> d in sent
  }

  ghost predicate Enabled(w: T.World, k: Link, b: Wired, event: Event)
    requires w.Valid()
  {
    match event
    case Local(a) =>
      (match a
       case ClientRequests(_) => b.stage.AwaitingMeta?
       case ClientTimesOut(room) => b.stage.Receiving? && b.client.sealed + room <= MAX_UINT32
       case ClientReceives(_, _) => false
       case ClientSignsOff(_) => b.stage.Finishing?
       case ClientGivesUp => !b.stage.Finished? && !b.stage.Aborted?
       case ServerReceives(_, _, _) => false
       case ServerRecords => b.pending.Some?
       case PrepareEnds(succeeds) => b.running && (succeeds ==> w.Prepared().Some?)
       case PrepareAnnounces(_) => b.announcement.Some?
       case ServerExpires => b.phase != T.Gone && b.pending.None?)
    case ClientHears(d, room) =>
      && (b.stage.AwaitingMeta? || b.stage.Receiving? || b.stage.Finishing?)
      && Authentic(k, b.client, b.toClient, d) && b.client.sealed + room <= MAX_UINT32
    case ServerHears(d, _, _) =>
      b.phase != T.Gone && b.pending.None? && Authentic(k, b.server, b.toServer, d)
  }

  // ----- sending -----

  /** Encode, seal, write. */
  function ClientSends(k: Link, b: Wired, p: Packet, sendable: bool): (Wired, bool) {
    if Encode(k.utf8, k.id, p).Err? || !sendable then (b, false)
    else
      var (e, r) := SealStep(k.aead, b.client, Encode(k.utf8, k.id, p).value);
      if r.Ok? then (b.(client := e, toServer := b.toServer + {r.value}), true) else (b, false)
  }

  /** On the server a failed write has used up its sequence, and nothing ends. */
  function ServerSends(k: Link, b: Wired, p: Packet, sendable: bool): (Wired, bool) {
    if Encode(k.utf8, k.id, p).Err? then (b, false)
    else
      var (e, r) := SealStep(k.aead, b.server, Encode(k.utf8, k.id, p).value);
      if r.Err? || !sendable then (b.(server := e), false)
      else (b.(server := e, toClient := b.toClient + {r.value}), true)
  }

  /** One burst of chunk requests. */
  function SealGets(k: Link, e: Endpoint, indices: seq<U32>): (Endpoint, set<bytes>)
    decreases |indices|, 0
  {
    if indices == [] then (e, {}) else SealMore(k, e, indices[..|indices| - 1], indices[|indices| - 1])
  }

  function SealMore(k: Link, e: Endpoint, before: seq<U32>, last: U32): (Endpoint, set<bytes>)
    decreases |before|, 1
  {
    var (e1, sealed) := SealGets(k, e, before);
    if Encode(k.utf8, k.id, Get(last)).Err? then (e1, sealed)
    else
      var (e2, r) := SealStep(k.aead, e1, Encode(k.utf8, k.id, Get(last)).value);
      (e2, if r.Ok? then sealed + {r.value} else sealed)
  }

  // ----- the client -----

  function Abort(b: Wired, reason: T.Reason): Wired {
    b.(stage := T.Aborted(reason))
  }

  function TakeEffect(w: T.World, k: Link, b: Wired, e: R.Effect, reason: T.Reason): Wired {
    var (client, sealed) := SealGets(k, b.client, e.requests);
    var b' := b.(view := e.view, client := client, toServer := b.toServer + sealed);
    if e.outcome.Failed? then Abort(b', reason) else b'.(stage := T.Concluded(w, e.view, b.stage))
  }

  /** `exchangeWithRetry` and `receiveChunks` on a packet the session has opened. */
  function ClientReads(w: T.World, k: Link, b: Wired, inner: bytes, room: nat): Wired {
    if b.stage.Receiving? then
      var e := R.HandleInner(b.view, inner, room);
      TakeEffect(w, k, b, e, T.HandleReason(e))
    else if Header(inner).Err? then b
    else
      var t := Header(inner).value.0;
      match b.stage
      case AwaitingMeta =>
        if t == ErrorType then Abort(b, T.ServerReported)
        else if t != MetaType then b
        else ClientTakesMeta(w, k, b, inner, room)
      case Finishing => if t == ErrorType || t == DoneType then b.(stage := T.Finished) else b
      case _ => b
  }

  /** `awaitMeta`'s handler, and the check after it. */
  function ClientTakesMeta(w: T.World, k: Link, b: Wired, inner: bytes, room: nat): Wired {
    var decoded := Decode(k.utf8, MetaType, inner);
    if decoded.Err? || !decoded.value.1.MetaPacket? then Abort(b, T.BadMeta)
    else
      var m := decoded.value.1.meta;
      if m.size > w.maxArchive then Abort(b, T.TooLarge)
      else TakeEffect(w, k, b.(stage := T.Receiving), R.Fill(R.Start(m), room), T.SendFailed)
  }

  // ----- the server -----

  function ServerHandlesGet(w: T.World, k: Link, b: Wired, index: U32, readable: bool, sendable: bool): Wired
    requires w.Valid()
  {
    if b.phase != T.Ready || w.Prepared().None? then b
    else
      var m := w.Prepared().value;
      if index >= m.chunks || !W.WithinWindow(W.Base(b.sent, m.chunks), index) then b
      else if !readable then ServerSends(k, b, Error(T.READ_ERROR), sendable).0
      else
        var (b', ok) := ServerSends(k, b, Data(index, C.ChunkOf(w.archive, m, index)), sendable);
        if ok then b'.(pending := Some(index)) else b'
  }

  /** `handleSecure` after opening, and the handlers. */
  function ServerReads(w: T.World, k: Link, b: Wired, inner: bytes, readable: bool, sendable: bool): Wired
    requires w.Valid()
  {
    if Header(inner).Err? || Decode(k.utf8, Header(inner).value.0, inner).Err? then b
    else
      match Decode(k.utf8, Header(inner).value.0, inner).value.1
      case Request(_) =>
        (match b.phase
         case Connected => b.(phase := T.Preparing, running := true)
         case Ready => if w.Prepared().Some? then ServerSends(k, b, MetaPacket(w.Prepared().value), sendable).0 else b
         case _ => b)
      case Get(index) => ServerHandlesGet(w, k, b, index, readable, sendable)
      case Done => ServerSends(k, b, Done, sendable).0.(phase := T.Gone)
      case _ => b
  }

  // ----- the steps -----

  function LocalStep(w: T.World, k: Link, b: Wired, a: T.Action): Wired
    requires w.Valid() && (a.ServerRecords? ==> b.pending.Some?) && (a.PrepareAnnounces? ==> b.announcement.Some?)
    requires a.PrepareEnds? && a.succeeds ==> w.Prepared().Some?
  {
    match a
    case ClientRequests(sendable) =>
      var (b', ok) := ClientSends(k, b, Request(w.path), sendable);
      if ok then b' else Abort(b, T.SendFailed)
    case ClientTimesOut(room) => TakeEffect(w, k, b, R.Retransmit(b.view, room), T.SendFailed)
    case ClientSignsOff(sendable) =>
      var (b', ok) := ClientSends(k, b, Done, sendable);
      if ok then b' else b.(stage := T.Finished)
    case ClientGivesUp => if b.stage.Finishing? then b.(stage := T.Finished) else Abort(b, T.Interrupted)
    case ServerRecords => b.(sent := b.sent + {b.pending.value}, pending := None)
    case PrepareEnds(succeeds) =>
      var b' := b.(running := false);
      if !succeeds then
        b'.(phase := if b.phase == T.Preparing then T.Gone else b.phase, announcement := Some(Error(T.READ_ERROR)))
      else if b.phase == T.Preparing then
        b'.(phase := T.Ready, announcement := Some(MetaPacket(w.Prepared().value)))
      else b'
    case PrepareAnnounces(sendable) => ServerSends(k, b.(announcement := None), b.announcement.value, sendable).0
    case ServerExpires => b.(phase := T.Gone)
    case _ => b
  }

  function Step(w: T.World, k: Link, b: Wired, event: Event): Wired
    requires w.Valid()
    requires event.Local? ==>
               && (event.a.ServerRecords? ==> b.pending.Some?)
               && (event.a.PrepareAnnounces? ==> b.announcement.Some?)
               && (event.a.PrepareEnds? && event.a.succeeds ==> w.Prepared().Some?)
  {
    match event
    case Local(a) => LocalStep(w, k, b, a)
    case ClientHears(d, room) =>
      var (client, r) := OpenStep(k.aead, b.client, d);
      if r.Ok? then ClientReads(w, k, b.(client := client), r.value, room) else b.(client := client)
    case ServerHears(d, readable, sendable) =>
      var (server, r) := OpenStep(k.aead, b.server, d);
      if r.Ok? then ServerReads(w, k, b.(server := server), r.value, readable, sendable) else b.(server := server)
  }

  ghost predicate Runs(w: T.World, k: Link, b: Wired, events: seq<Event>)
    requires w.Valid()
    decreases |events|
  {
    events != [] ==> Enabled(w, k, b, events[0]) && Runs(w, k, Step(w, k, b, events[0]), events[1..])
  }

  ghost function Run(w: T.World, k: Link, b: Wired, events: seq<Event>): Wired
    requires w.Valid() && Runs(w, k, b, events)
    decreases |events|
  {
    if events == [] then b else Run(w, k, Step(w, k, b, events[0]), events[1..])
  }

  // ----- what a state of sealed packets looks like in bytes -----

  /** The datagram of a sealed packet. */
  function Datagram(k: Link, key: bytes, p: T.Sealed): Result<bytes> {
    var inner :- Encode(k.utf8, k.id, p.packet);
    if p.sequence <= MAX_UINT32 then Wire(k.aead, key, k.id, p.sequence, inner) else Err("out of range")
  }

  /** `d` is the datagram of `p`, and a packet that can be carried. */
  ghost predicate Bears(k: Link, key: bytes, d: bytes, p: T.Sealed) {
    1 <= p.sequence <= MAX_UINT32 && Carried(k.utf8, k.id, p.packet) && Datagram(k, key, p) == Ok(d)
  }

  /** The datagram of a packet that can be carried. */
  function Named(k: Link, key: bytes, p: T.Sealed): Option<bytes> {
    if 1 <= p.sequence <= MAX_UINT32 && Carried(k.utf8, k.id, p.packet) && Datagram(k, key, p).Ok?
    then Some(Datagram(k, key, p).value) else None
  }

  /** Names for the datagrams of either direction, as far as it has any. */
  datatype Names = Names(up: T.Sealed -> Option<bytes>, down: T.Sealed -> Option<bytes>)

  /** They are the right names; needed of one packet at a time. */
  ghost predicate Right(k: Link, n: Names) {
    && (forall p {:trigger n.up(p), Named(k, k.clientKey, p)} :: n.up(p) == Named(k, k.clientKey, p))
    && (forall p {:trigger n.down(p), Named(k, k.serverKey, p)} :: n.down(p) == Named(k, k.serverKey, p))
  }

  ghost predicate Sure(k: Link, n: Names) {
    k.Valid() && Right(k, n)
  }

  /** The datagrams of some packets. */
  ghost function Post(named: T.Sealed -> Option<bytes>, packets: set<T.Sealed>): set<bytes> {
    set p | p in packets && named(p).Some? :: named(p).value
  }

  ghost predicate AllNamed(named: T.Sealed -> Option<bytes>, packets: set<T.Sealed>) {
    forall p <- packets :: named(p).Some?
  }

  /** The datagrams are those of the packets. */
  ghost predicate Net(named: T.Sealed -> Option<bytes>, datagrams: set<bytes>, packets: set<T.Sealed>) {
    datagrams == Post(named, packets) && AllNamed(named, packets)
  }

  ghost predicate Ends(k: Link, b: Wired, s: T.System) {
    && b.client == Endpoint(k.id, k.clientKey, k.serverKey, s.client.sealed, s.client.seen)
    && b.server == Endpoint(k.id, k.serverKey, k.clientKey, s.server.sealed, s.server.seen)
    && b.stage == s.client.stage && b.view == s.client.view
    && b.phase == s.server.phase && b.running == s.server.running && b.announcement == s.server.announcement
    && b.pending == s.server.pending && b.sent == s.server.sent
    && (b.announcement.Some? ==> Carried(k.utf8, k.id, b.announcement.value))
  }

  ghost predicate Shows(k: Link, n: Names, b: Wired, s: T.System) {
    Ends(k, b, s) && Net(n.up, b.toServer, s.toServer) && Net(n.down, b.toClient, s.toClient)
  }

  // ----- sending agrees -----

  lemma PostOfBoth(named: T.Sealed -> Option<bytes>, p1: set<T.Sealed>, p2: set<T.Sealed>)
    ensures Post(named, p1 + p2) == Post(named, p1) + Post(named, p2)
    ensures AllNamed(named, p1) && AllNamed(named, p2) ==> AllNamed(named, p1 + p2)
  {
    forall d <- Post(named, p1 + p2) ensures d in Post(named, p1) + Post(named, p2) {}
  }

  lemma NetsJoin(named: T.Sealed -> Option<bytes>, d1: set<bytes>, p1: set<T.Sealed>, d2: set<bytes>, p2: set<T.Sealed>)
    requires Net(named, d1, p1) && Net(named, d2, p2)
    ensures Net(named, d1 + d2, p1 + p2)
  {
    PostOfBoth(named, p1, p2);
  }

  lemma OneNet(named: T.Sealed -> Option<bytes>, d: bytes, p: T.Sealed)
    requires named(p) == Some(d)
    ensures Net(named, {d}, {p}) && Post(named, {p}) == {d}
  {}

  /** Sealing a packet makes its datagram, under the next sequence. */
  lemma SealAgrees(k: Link, e: Endpoint, p: Packet) returns (d: bytes)
    requires k.Valid() && e.id == k.id && Carried(k.utf8, k.id, p) && e.sealed < MAX_UINT32
    ensures Named(k, e.outboundKey, T.Sealed(e.sealed + 1, p)) == Some(d)
    ensures SealStep(k.aead, e, Encode(k.utf8, k.id, p).value) == (e.(sealed := e.sealed + 1), Ok(d))
  {
    var inner := Encode(k.utf8, k.id, p).value;
    PacketIsSealed(k.aead, k.utf8, e, p);
    InnerBelongs(k.utf8, k.id, p);
    WireShape(k.aead, e.outboundKey, k.id, e.sealed + 1, inner);
    d := Wire(k.aead, e.outboundKey, k.id, e.sealed + 1, inner).value;
  }

  lemma UpNet(k: Link, n: Names, d: bytes, p: T.Sealed)
    requires Right(k, n) && Named(k, k.clientKey, p) == Some(d)
    ensures n.up(p) == Some(d) && Net(n.up, {d}, {p}) && Post(n.up, {p}) == {d}
  {
    assert n.up(p) == Named(k, k.clientKey, p);
    OneNet(n.up, d, p);
  }

  lemma DownNet(k: Link, n: Names, d: bytes, p: T.Sealed)
    requires Right(k, n) && Named(k, k.serverKey, p) == Some(d)
    ensures n.down(p) == Some(d) && Net(n.down, {d}, {p}) && Post(n.down, {p}) == {d}
  {
    assert n.down(p) == Named(k, k.serverKey, p);
    OneNet(n.down, d, p);
  }

  lemma SealRefuses(k: Link, e: Endpoint, p: Packet)
    requires e.id == k.id && Carried(k.utf8, k.id, p) && e.sealed >= MAX_UINT32
    ensures SealStep(k.aead, e, Encode(k.utf8, k.id, p).value).0 == e
    ensures SealStep(k.aead, e, Encode(k.utf8, k.id, p).value).1.Err?
  {}

  /** What sending comes to, at either end. */
  lemma ClientSendShape(k: Link, b: Wired, p: Packet, sendable: bool) returns (d: bytes)
    requires k.Valid() && b.client.id == k.id && b.client.outboundKey == k.clientKey && Carried(k.utf8, k.id, p)
    ensures b.client.sealed >= MAX_UINT32 || !sendable ==> ClientSends(k, b, p, sendable) == (b, false)
    ensures b.client.sealed < MAX_UINT32 && sendable ==>
              && Named(k, k.clientKey, T.Sealed(b.client.sealed + 1, p)) == Some(d)
              && ClientSends(k, b, p, sendable)
                 == (b.(client := b.client.(sealed := b.client.sealed + 1), toServer := b.toServer + {d}), true)
  {
    d := [];
    if b.client.sealed < MAX_UINT32 {
      d := SealAgrees(k, b.client, p);
    } else {
      SealRefuses(k, b.client, p);
    }
  }

  lemma ServerSendShape(k: Link, b: Wired, p: Packet, sendable: bool) returns (d: bytes)
    requires k.Valid() && b.server.id == k.id && b.server.outboundKey == k.serverKey && Carried(k.utf8, k.id, p)
    ensures b.server.sealed >= MAX_UINT32 ==> ServerSends(k, b, p, sendable) == (b, false)
    ensures b.server.sealed < MAX_UINT32 && !sendable ==>
              ServerSends(k, b, p, sendable) == (b.(server := b.server.(sealed := b.server.sealed + 1)), false)
    ensures b.server.sealed < MAX_UINT32 && sendable ==>
              && Named(k, k.serverKey, T.Sealed(b.server.sealed + 1, p)) == Some(d)
              && ServerSends(k, b, p, sendable)
                 == (b.(server := b.server.(sealed := b.server.sealed + 1), toClient := b.toClient + {d}), true)
  {
    d := [];
    if b.server.sealed < MAX_UINT32 {
      d := SealAgrees(k, b.server, p);
    } else {
      SealRefuses(k, b.server, p);
    }
  }

  lemma ClientSendAgrees(k: Link, n: Names, b: Wired, s: T.System, p: Packet, sendable: bool)
    requires Sure(k, n) && Shows(k, n, b, s) && Carried(k.utf8, k.id, p)
    ensures Shows(k, n, ClientSends(k, b, p, sendable).0, T.ClientSends(s, p, sendable).0)
    ensures ClientSends(k, b, p, sendable).1 == T.ClientSends(s, p, sendable).1
  {
    var d := ClientSendShape(k, b, p, sendable);
    if s.client.sealed < MAX_UINT32 && sendable {
      UpNet(k, n, d, T.Sealed(s.client.sealed + 1, p));
      ClientPutsOne(k, n, b, s, d, T.Sealed(s.client.sealed + 1, p));
    }
  }

  lemma ClientPutsOne(k: Link, n: Names, b: Wired, s: T.System, d: bytes, p: T.Sealed)
    requires Shows(k, n, b, s) && Net(n.up, {d}, {p})
    ensures Shows(k, n, b.(client := b.client.(sealed := p.sequence), toServer := b.toServer + {d}),
                  s.(client := s.client.(sealed := p.sequence), toServer := s.toServer + {p}))
  {
    NetsJoin(n.up, b.toServer, s.toServer, {d}, {p});
  }

  /** Datagrams and packets put on the network together. */
  lemma ClientPuts(k: Link, n: Names, b: Wired, s: T.System, view: R.View, sealed: nat, stage: T.Stage,
                   datagrams: set<bytes>, packets: set<T.Sealed>)
    requires Shows(k, n, b, s) && Net(n.up, datagrams, packets)
    ensures Shows(k, n, b.(view := view, stage := stage, client := b.client.(sealed := sealed), toServer := b.toServer + datagrams),
                  s.(client := s.client.(view := view, stage := stage, sealed := sealed), toServer := s.toServer + packets))
  {
    NetsJoin(n.up, b.toServer, s.toServer, datagrams, packets);
  }

  lemma ServerPutsOne(k: Link, n: Names, b: Wired, s: T.System, d: bytes, p: T.Sealed)
    requires Shows(k, n, b, s) && Net(n.down, {d}, {p})
    ensures Shows(k, n, b.(server := b.server.(sealed := p.sequence), toClient := b.toClient + {d}),
                  s.(server := s.server.(sealed := p.sequence), toClient := s.toClient + {p}))
  {
    NetsJoin(n.down, b.toClient, s.toClient, {d}, {p});
  }

  lemma ServerSendAgrees(k: Link, n: Names, b: Wired, s: T.System, p: Packet, sendable: bool)
    requires Sure(k, n) && Shows(k, n, b, s) && Carried(k.utf8, k.id, p)
    ensures Shows(k, n, ServerSends(k, b, p, sendable).0, T.ServerSends(s, p, sendable).0)
    ensures ServerSends(k, b, p, sendable).1 == T.ServerSends(s, p, sendable).1
  {
    var d := ServerSendShape(k, b, p, sendable);
    if s.server.sealed < MAX_UINT32 && sendable {
      DownNet(k, n, d, T.Sealed(s.server.sealed + 1, p));
      ServerPutsOne(k, n, b, s, d, T.Sealed(s.server.sealed + 1, p));
    }
  }

  lemma GetIsCarried(k: Link, index: U32)
    ensures Carried(k.utf8, k.id, Get(index))
  {}

  lemma GetsSnoc(sealed: nat, indices: seq<U32>)
    requires indices != []
    ensures T.Gets(sealed, indices)
         == T.Gets(sealed, indices[..|indices| - 1]) + {T.Sealed(sealed + |indices|, Get(indices[|indices| - 1]))}
  {
    var before, last := indices[..|indices| - 1], T.Sealed(sealed + |indices|, Get(indices[|indices| - 1]));
    forall p <- T.Gets(sealed, indices) ensures p in T.Gets(sealed, before) + {last} {
      var i: nat :| i < |indices| && p == T.Sealed(sealed + 1 + i, Get(indices[i]));
      if i < |before| {
        assert before[i] == indices[i];
      }
    }
    forall p <- T.Gets(sealed, before) ensures p in T.Gets(sealed, indices) {
      var i: nat :| i < |before| && p == T.Sealed(sealed + 1 + i, Get(before[i]));
      assert before[i] == indices[i];
    }
    assert last == T.Sealed(sealed + 1 + (|indices| - 1), Get(indices[|indices| - 1]));
  }

  lemma SealsOneMore(k: Link, n: Names, e: Endpoint, before: seq<U32>, last: U32, e1: Endpoint, datagrams: set<bytes>,
                     p: T.Sealed)
    requires Sure(k, n) && SealGets(k, e, before) == (e1, datagrams)
    requires e1.id == k.id && e1.sealed < MAX_UINT32 && e1.outboundKey == k.clientKey
    requires p.sequence == e1.sealed + 1 && p.packet == Get(last)
    ensures n.up(p).Some? && SealMore(k, e, before, last) == (e1.(sealed := e1.sealed + 1), datagrams + Post(n.up, {p}))
  {
    GetIsCarried(k, last);
    var d := SealAgrees(k, e1, Get(last));
    assert p == T.Sealed(e1.sealed + 1, Get(last));
    UpNet(k, n, d, p);
  }

  /** The datagrams of a burst, one after the other. */
  ghost function Requested(named: T.Sealed -> Option<bytes>, sealed: nat, indices: seq<U32>): set<bytes> {
    if indices == [] then {}
    else
      Requested(named, sealed, indices[..|indices| - 1])
      + Post(named, {T.Sealed(sealed + |indices|, Get(indices[|indices| - 1]))})
  }

  lemma {:induction false} GetsAgree(k: Link, n: Names, e: Endpoint, indices: seq<U32>)
    requires Sure(k, n) && e.id == k.id && e.outboundKey == k.clientKey && e.sealed + |indices| <= MAX_UINT32
    ensures SealGets(k, e, indices) == (e.(sealed := e.sealed + |indices|), Requested(n.up, e.sealed, indices))
  {
    if indices != [] {
      var before, last := indices[..|indices| - 1], indices[|indices| - 1];
      GetsAgree(k, n, e, before);
      SealsOneMore(k, n, e, before, last, e.(sealed := e.sealed + |before|), Requested(n.up, e.sealed, before),
                   T.Sealed(e.sealed + |indices|, Get(last)));
    }
  }

  lemma GetsAreNamed(k: Link, n: Names, e: Endpoint, indices: seq<U32>)
    requires Sure(k, n) && e.id == k.id && e.outboundKey == k.clientKey && e.sealed + |indices| <= MAX_UINT32
    ensures forall i | 0 <= i < |indices| :: n.up(T.Sealed(e.sealed + 1 + i, Get(indices[i]))).Some?
  {
    forall i | 0 <= i < |indices| ensures n.up(T.Sealed(e.sealed + 1 + i, Get(indices[i]))).Some? {
      GetIsCarried(k, indices[i]);
      var d := SealAgrees(k, e.(sealed := e.sealed + i), Get(indices[i]));
      UpNet(k, n, d, T.Sealed(e.sealed + i + 1, Get(indices[i])));
    }
  }

  lemma {:induction false} RequestedArePosted(named: T.Sealed -> Option<bytes>, sealed: nat, indices: seq<U32>)
    requires forall i | 0 <= i < |indices| :: named(T.Sealed(sealed + 1 + i, Get(indices[i]))).Some?
    ensures Net(named, Requested(named, sealed, indices), T.Gets(sealed, indices))
  {
    if indices == [] {
      assert T.Gets(sealed, []) == {};
    } else {
      var before, last := indices[..|indices| - 1], T.Sealed(sealed + |indices|, Get(indices[|indices| - 1]));
      assert forall i | 0 <= i < |before| :: before[i] == indices[i];
      RequestedArePosted(named, sealed, before);
      GetsSnoc(sealed, indices);
      assert named(T.Sealed(sealed + 1 + (|indices| - 1), Get(indices[|indices| - 1]))).Some?;
      OneNet(named, named(last).value, last);
      NetsJoin(named, Requested(named, sealed, before), T.Gets(sealed, before), Post(named, {last}), {last});
    }
  }

  lemma EffectAgrees(w: T.World, k: Link, n: Names, b: Wired, s: T.System, e: R.Effect, reason: T.Reason)
    requires Sure(k, n) && Shows(k, n, b, s) && s.client.sealed + |e.requests| <= MAX_UINT32
    ensures Shows(k, n, TakeEffect(w, k, b, e, reason), T.TakeEffect(w, s, e, reason))
  {
    var packets := T.Gets(s.client.sealed, e.requests);
    var datagrams := Requested(n.up, s.client.sealed, e.requests);
    GetsAgree(k, n, b.client, e.requests);
    GetsAreNamed(k, n, b.client, e.requests);
    RequestedArePosted(n.up, s.client.sealed, e.requests);
    var stage := if e.outcome.Failed? then T.Aborted(reason) else T.Concluded(w, e.view, b.stage);
    ClientPuts(k, n, b, s, e.view, s.client.sealed + |e.requests|, stage, datagrams, packets);
  }

  // ----- reading agrees -----

  lemma PacketIsRead(k: Link, p: Packet)
    requires Carried(k.utf8, k.id, p)
    ensures var inner := Encode(k.utf8, k.id, p).value;
            Header(inner) == Ok((TypeOf(p), k.id)) && Decode(k.utf8, TypeOf(p), inner) == Ok((k.id, p))
  {
    InnerBelongs(k.utf8, k.id, p);
    EncodedSizes(k.utf8, k.id, p);
  }

  lemma ClientReadAgrees(w: T.World, k: Link, n: Names, b: Wired, s: T.System, p: Packet, room: nat)
    requires Sure(k, n) && Shows(k, n, b, s) && Carried(k.utf8, k.id, p) && s.client.sealed + room <= MAX_UINT32
    ensures Shows(k, n, ClientReads(w, k, b, Encode(k.utf8, k.id, p).value, room), T.ClientHandles(w, s, p, room))
  {
    var inner := Encode(k.utf8, k.id, p).value;
    PacketIsRead(k, p);
    if s.client.stage.Receiving? {
      LoopReadsPacket(k.utf8, k.id, s.client.view, p, room);
      var e := R.Handle(s.client.view, p, room);
      EffectAgrees(w, k, n, b, s, e, T.HandleReason(e));
    } else if s.client.stage.AwaitingMeta? && p.MetaPacket? && p.meta.size <= w.maxArchive {
      var e := R.Fill(R.Start(p.meta), room);
      EffectAgrees(w, k, n, b.(stage := T.Receiving), s.(client := s.client.(stage := T.Receiving)), e, T.SendFailed);
    }
  }

  /** The packets a server says can all be carried. */
  lemma ServerPacketsAreCarried(w: T.World, k: Link)
    requires w.Valid()
    ensures Carried(k.utf8, k.id, Done) && Carried(k.utf8, k.id, Error(T.READ_ERROR))
    ensures w.Prepared().Some? ==> Carried(k.utf8, k.id, MetaPacket(w.Prepared().value))
  {
    C.PreparedMetaIsAccepted(|w.archive|, w.sum(w.archive));
  }

  lemma DataIsCarried(w: T.World, k: Link, index: U32)
    requires w.Valid() && w.Prepared().Some? && index < w.Prepared().value.chunks
    ensures Carried(k.utf8, k.id, Data(index, C.ChunkOf(w.archive, w.Prepared().value, index)))
  {
    C.LengthsAgree(w.Prepared().value, index);
  }

  lemma GetReadAgrees(w: T.World, k: Link, n: Names, b: Wired, s: T.System, index: U32, readable: bool, sendable: bool)
    requires w.Valid() && Sure(k, n) && Shows(k, n, b, s)
    ensures Shows(k, n, ServerHandlesGet(w, k, b, index, readable, sendable),
                  T.ServerHandlesGet(w, s, index, readable, sendable))
  {
    if b.phase == T.Ready && w.Prepared().Some? {
      var m := w.Prepared().value;
      if index < m.chunks && W.WithinWindow(W.Base(b.sent, m.chunks), index) {
        if !readable {
          ServerPacketsAreCarried(w, k);
          ServerSendAgrees(k, n, b, s, Error(T.READ_ERROR), sendable);
        } else {
          DataIsCarried(w, k, index);
          DataAgrees(k, n, b, s, index, Data(index, C.ChunkOf(w.archive, m, index)), sendable);
        }
      }
    }
  }

  lemma DataAgrees(k: Link, n: Names, b: Wired, s: T.System, index: U32, p: Packet, sendable: bool)
    requires Sure(k, n) && Shows(k, n, b, s) && Carried(k.utf8, k.id, p)
    ensures var (b', ok) := ServerSends(k, b, p, sendable);
            var (s', done) := T.ServerSends(s, p, sendable);
            && ok == done
            && Shows(k, n, if ok then b'.(pending := Some(index)) else b',
                     if ok then s'.(server := s'.server.(pending := Some(index))) else s')
  {
    ServerSendAgrees(k, n, b, s, p, sendable);
  }

  lemma ServerReadAgrees(w: T.World, k: Link, n: Names, b: Wired, s: T.System, p: Packet, readable: bool, sendable: bool)
    requires w.Valid() && Sure(k, n) && Shows(k, n, b, s) && Carried(k.utf8, k.id, p)
    ensures Shows(k, n, ServerReads(w, k, b, Encode(k.utf8, k.id, p).value, readable, sendable),
                  T.ServerHandles(w, s, p, readable, sendable))
  {
    PacketIsRead(k, p);
    ServerPacketsAreCarried(w, k);
    match p
    case Request(_) =>
      if s.server.phase == T.Ready && w.Prepared().Some? {
        ServerSendAgrees(k, n, b, s, MetaPacket(w.Prepared().value), sendable);
      }
    case Get(index) => GetReadAgrees(w, k, n, b, s, index, readable, sendable);
    case Done => ServerSendAgrees(k, n, b, s, Done, sendable);
    case _ =>
  }

  // ----- each step agrees -----

  /** `event` does with datagrams what `a` does with sealed packets. */
  ghost predicate InBytes(k: Link, a: T.Action, event: Event) {
    match a
    case ClientReceives(p, room) =>
      event.ClientHears? && event.room == room && Bears(k, k.serverKey, event.toClient, p)
    case ServerReceives(p, readable, sendable) =>
      event.ServerHears? && event.readable == readable && event.sendable == sendable && Bears(k, k.clientKey, event.toServer, p)
    case _ => event == Local(a)
  }

  /** A genuine datagram opens exactly when its packet does. */
  lemma OpenAgrees(k: Link, e: Endpoint, d: bytes, p: T.Sealed)
    requires k.Valid() && e.id == k.id && Bears(k, e.inboundKey, d, p)
    ensures OpenStep(k.aead, e, d)
         == if e.seen.Fresh(p.sequence)
            then (e.(seen := e.seen.Accept(p.sequence)), Ok(Encode(k.utf8, k.id, p.packet).value))
            else (e, Err("encrypted packet replay detected"))
  {
    PacketTravels(k.aead, k.utf8, e, p.sequence, p.packet);
  }

  lemma ClientHearAgrees(w: T.World, k: Link, n: Names, b: Wired, s: T.System, d: bytes, p: T.Sealed, room: nat)
    requires w.Valid() && Sure(k, n) && Shows(k, n, b, s) && Bears(k, k.serverKey, d, p) && s.client.sealed + room <= MAX_UINT32
    ensures Shows(k, n, Step(w, k, b, ClientHears(d, room)),
                  if !s.client.seen.Fresh(p.sequence) then s
                  else T.ClientHandles(w, T.ClientOpens(s, p.sequence), p.packet, room))
  {
    OpenAgrees(k, b.client, d, p);
    if s.client.seen.Fresh(p.sequence) {
      ClientReadAgrees(w, k, n, b.(client := b.client.(seen := b.client.seen.Accept(p.sequence))),
                       T.ClientOpens(s, p.sequence), p.packet, room);
    }
  }

  lemma ServerHearAgrees(w: T.World, k: Link, n: Names, b: Wired, s: T.System, d: bytes, p: T.Sealed, readable: bool, sendable: bool)
    requires w.Valid() && Sure(k, n) && Shows(k, n, b, s) && Bears(k, k.clientKey, d, p)
    ensures Shows(k, n, Step(w, k, b, ServerHears(d, readable, sendable)),
                  if !s.server.seen.Fresh(p.sequence) then s
                  else T.ServerHandles(w, T.ServerOpens(s, p.sequence), p.packet, readable, sendable))
  {
    OpenAgrees(k, b.server, d, p);
    if s.server.seen.Fresh(p.sequence) {
      ServerReadAgrees(w, k, n, b.(server := b.server.(seen := b.server.seen.Accept(p.sequence))),
                       T.ServerOpens(s, p.sequence), p.packet, readable, sendable);
    }
  }

  /** The client asks for a path that can be asked for. */
  ghost predicate Askable(w: T.World, k: Link) {
    Encode(k.utf8, k.id, Request(w.path)).Ok?
  }

  lemma LocalAgrees(w: T.World, k: Link, n: Names, b: Wired, s: T.System, a: T.Action)
    requires w.Valid() && Sure(k, n) && Askable(w, k) && Shows(k, n, b, s) && T.Enabled(w, s, a)
    requires !a.ClientReceives? && !a.ServerReceives?
    ensures Shows(k, n, LocalStep(w, k, b, a), T.Step(w, s, a))
  {
    ServerPacketsAreCarried(w, k);
    match a
    case ClientRequests(sendable) => ClientSendAgrees(k, n, b, s, Request(w.path), sendable);
    case ClientTimesOut(room) => EffectAgrees(w, k, n, b, s, R.Retransmit(b.view, room), T.SendFailed);
    case ClientSignsOff(sendable) => ClientSendAgrees(k, n, b, s, Done, sendable);
    case PrepareAnnounces(sendable) =>
      ServerSendAgrees(k, n, b.(announcement := None), s.(server := s.server.(announcement := None)),
                       b.announcement.value, sendable);
    case _ =>
  }

  /** The datagram of a packet on the network. */
  lemma DatagramOf(k: Link, n: Names, b: Wired, s: T.System, fromClient: bool, p: T.Sealed) returns (d: bytes)
    requires Right(k, n) && Shows(k, n, b, s) && p in if fromClient then s.toServer else s.toClient
    ensures d in if fromClient then b.toServer else b.toClient
    ensures Bears(k, if fromClient then k.clientKey else k.serverKey, d, p)
  {
    if fromClient {
      assert n.up(p) == Named(k, k.clientKey, p);
      d := n.up(p).value;
    } else {
      assert n.down(p) == Named(k, k.serverKey, p);
      d := n.down(p).value;
    }
  }

  lemma PacketOf(k: Link, n: Names, b: Wired, s: T.System, fromClient: bool, d: bytes) returns (p: T.Sealed)
    requires Right(k, n) && Shows(k, n, b, s) && d in if fromClient then b.toServer else b.toClient
    ensures p in if fromClient then s.toServer else s.toClient
    ensures Bears(k, if fromClient then k.clientKey else k.serverKey, d, p)
  {
    if fromClient {
      p :| p in s.toServer && n.up(p) == Some(d);
      assert n.up(p) == Named(k, k.clientKey, p);
    } else {
      p :| p in s.toClient && n.down(p) == Some(d);
      assert n.down(p) == Named(k, k.serverKey, p);
    }
  }

  /** The same step, of sealed packets and of bytes, leads to the same place. */
  lemma StepAgrees(w: T.World, k: Link, n: Names, b: Wired, s: T.System, a: T.Action, event: Event)
    requires w.Valid() && Sure(k, n) && Askable(w, k) && Shows(k, n, b, s) && T.Enabled(w, s, a)
    requires InBytes(k, a, event) && Enabled(w, k, b, event)
    ensures Shows(k, n, Step(w, k, b, event), T.Step(w, s, a))
  {
    match a
    case ClientReceives(p, room) => ClientHearAgrees(w, k, n, b, s, event.toClient, p, room);
    case ServerReceives(p, readable, sendable) => ServerHearAgrees(w, k, n, b, s, event.toServer, p, readable, sendable);
    case _ => LocalAgrees(w, k, n, b, s, a);
  }

  /** Every step of sealed packets is possible in bytes. */
  lemma StepInBytes(w: T.World, k: Link, n: Names, b: Wired, s: T.System, a: T.Action) returns (event: Event)
    requires w.Valid() && Right(k, n) && Shows(k, n, b, s) && T.Enabled(w, s, a)
    ensures InBytes(k, a, event) && Enabled(w, k, b, event)
  {
    match a
    case ClientReceives(p, room) =>
      var d := DatagramOf(k, n, b, s, false, p);
      event := ClientHears(d, room);
    case ServerReceives(p, readable, sendable) =>
      var d := DatagramOf(k, n, b, s, true, p);
      event := ServerHears(d, readable, sendable);
    case _ => event := Local(a);
  }

  /** Anything else on the wire opens nothing and changes nothing. */
  lemma OthersAreRefused(k: Link, e: Endpoint, sent: set<bytes>, d: bytes)
    requires k.Valid() && Authentic(k, e, sent, d) && d !in sent
    ensures OpenStep(k.aead, e, d).0 == e && OpenStep(k.aead, e, d).1.Err?
  {
    if OpenStep(k.aead, e, d).0 != e || OpenStep(k.aead, e, d).1.Ok? {
      var sequence, inner := OnlyWiresCount(k.aead, e, d);
      assert false;
    }
  }

  /** So every step of bytes is a step of sealed packets, or changes nothing. */
  lemma EventAgrees(w: T.World, k: Link, n: Names, b: Wired, s: T.System, event: Event) returns (actions: seq<T.Action>)
    requires w.Valid() && Sure(k, n) && Askable(w, k) && Shows(k, n, b, s) && Enabled(w, k, b, event)
    ensures |actions| <= 1 && T.Runs(w, s, actions) && Shows(k, n, Step(w, k, b, event), T.Run(w, s, actions))
  {
    if event.ClientHears? && event.toClient !in b.toClient {
      OthersAreRefused(k, b.client, b.toClient, event.toClient);
      actions := [];
    } else if event.ServerHears? && event.toServer !in b.toServer {
      OthersAreRefused(k, b.server, b.toServer, event.toServer);
      actions := [];
    } else {
      var a := ActionOf(w, k, n, b, s, event);
      StepAgrees(w, k, n, b, s, a, event);
      P.Single(w, s, a);
      actions := [a];
    }
  }

  lemma ActionOf(w: T.World, k: Link, n: Names, b: Wired, s: T.System, event: Event) returns (a: T.Action)
    requires w.Valid() && Right(k, n) && Shows(k, n, b, s) && Enabled(w, k, b, event)
    requires (event.ClientHears? ==> event.toClient in b.toClient) && (event.ServerHears? ==> event.toServer in b.toServer)
    ensures T.Enabled(w, s, a) && InBytes(k, a, event)
  {
    match event
    case Local(action) => a := action;
    case ClientHears(d, room) =>
      var p := PacketOf(k, n, b, s, false, d);
      a := T.ClientReceives(p, room);
    case ServerHears(d, readable, sendable) =>
      var p := PacketOf(k, n, b, s, true, d);
      a := T.ServerReceives(p, readable, sendable);
  }

  // ----- every run agrees -----

  lemma {:induction false} RunAgrees(w: T.World, k: Link, n: Names, b: Wired, s: T.System, events: seq<Event>)
    returns (actions: seq<T.Action>)
    requires w.Valid() && Sure(k, n) && Askable(w, k) && Shows(k, n, b, s) && Runs(w, k, b, events)
    ensures T.Runs(w, s, actions) && Shows(k, n, Run(w, k, b, events), T.Run(w, s, actions))
    decreases |events|
  {
    if events == [] {
      actions := [];
    } else {
      var first := EventAgrees(w, k, n, b, s, events[0]);
      var rest := RunAgrees(w, k, n, Step(w, k, b, events[0]), T.Run(w, s, first), events[1..]);
      P.Concat(w, s, first, rest);
      actions := first + rest;
    }
  }

  lemma {:induction false} RunInBytes(w: T.World, k: Link, n: Names, b: Wired, s: T.System, actions: seq<T.Action>)
    returns (events: seq<Event>)
    requires w.Valid() && Sure(k, n) && Askable(w, k) && Shows(k, n, b, s) && T.Runs(w, s, actions)
    ensures |events| == |actions| && Runs(w, k, b, events) && Shows(k, n, Run(w, k, b, events), T.Run(w, s, actions))
    decreases |actions|
  {
    if actions == [] {
      events := [];
    } else {
      var event := StepInBytes(w, k, n, b, s, actions[0]);
      StepAgrees(w, k, n, b, s, actions[0], event);
      var rest := RunInBytes(w, k, n, Step(w, k, b, event), T.Step(w, s, actions[0]), actions[1..]);
      events := [event] + rest;
      assert events[1..] == rest;
    }
  }

  function NamesOf(k: Link): Names {
    Names(p => Named(k, k.clientKey, p), p => Named(k, k.serverKey, p))
  }

  lemma StartShows(k: Link, n: Names)
    ensures Shows(k, n, Start(k), T.INITIAL)
  {}

  lemma NamesAreRight(k: Link)
    ensures Right(k, NamesOf(k))
  {}

  /** End-to-end safety, in bytes: whatever datagrams arrive, sent by the two ends or made by
      anyone who cannot forge one, the bytes written are the archive cut at the next chunk to
      write, all of it once the loop is passed, and no check ever fails. */
  lemma BytesAreSafe(w: T.World, k: Link, events: seq<Event>)
    requires w.Valid() && k.Valid() && Askable(w, k) && Runs(w, k, Start(k), events)
    ensures var b := Run(w, k, Start(k), events);
            && (b.view.meta.size == |w.archive| || b.view == R.Start(T.NO_META))
            && b.view.written == w.archive[..C.PrefixSize(b.view.meta, b.view.nextWrite)]
            && (b.stage.Finishing? || b.stage.Finished? ==> b.view.written == w.archive)
            && (b.stage.Aborted? ==> T.Excusable(b.stage.reason))
  {
    var n := NamesOf(k);
    NamesAreRight(k);
    StartShows(k, n);
    var actions := RunAgrees(w, k, n, Start(k), T.INITIAL, events);
    T.DownloadIsSafe(w, actions);
  }

  lemma {:induction false} Concat(w: T.World, k: Link, b: Wired, first: seq<Event>, rest: seq<Event>)
    requires w.Valid() && Runs(w, k, b, first) && Runs(w, k, Run(w, k, b, first), rest)
    ensures Runs(w, k, b, first + rest) && Run(w, k, b, first + rest) == Run(w, k, Run(w, k, b, first), rest)
    decreases |first|
  {
    if first == [] {
      assert first + rest == rest;
    } else {
      assert (first + rest)[1..] == first[1..] + rest;
      Concat(w, k, Step(w, k, b, first[0]), first[1..], rest);
    }
  }

  /** And progress: however a run of datagrams has gone, while the client is receiving and the
      session lives, it can be continued to a finished download of the whole archive. */
  lemma BytesCanComplete(w: T.World, k: Link, before: seq<Event>) returns (events: seq<Event>)
    requires w.Valid() && k.Valid() && Askable(w, k) && Runs(w, k, Start(k), before)
    requires var b := Run(w, k, Start(k), before);
             && b.stage.Receiving? && b.phase != T.Gone
             && b.client.sealed + P.MissingChunks(b.view) <= MAX_UINT32
             && b.server.sealed + P.MissingChunks(b.view) <= MAX_UINT32
    ensures Runs(w, k, Start(k), before + events)
    ensures var b := Run(w, k, Start(k), before + events); b.stage.Finishing? && b.view.written == w.archive
    ensures |events| <= 2 + 3 * P.MissingChunks(Run(w, k, Start(k), before).view)
  {
    var n := NamesOf(k);
    NamesAreRight(k);
    StartShows(k, n);
    var actions := RunAgrees(w, k, n, Start(k), T.INITIAL, before);
    var s := T.Run(w, T.INITIAL, actions);
    T.RunKeepsInv(w, T.INITIAL, actions);
    T.RunKeepsPhase(w, T.INITIAL, actions);
    var more := P.CanAlwaysComplete(w, s);
    events := RunInBytes(w, k, n, Run(w, k, Start(k), before), s, more);
    Concat(w, k, Start(k), before, events);
  }

  /** The same before the client has its meta, while the archive is one it accepts. */
  lemma AwaitingBytesCanComplete(w: T.World, k: Link, before: seq<Event>) returns (events: seq<Event>)
    requires w.Valid() && k.Valid() && Askable(w, k) && Runs(w, k, Start(k), before)
    requires w.Prepared().Some? && |w.archive| <= w.maxArchive
    requires var b := Run(w, k, Start(k), before);
             && b.stage.AwaitingMeta? && b.phase != T.Gone
             && b.client.sealed + Completion.RequestsDue(b.phase) + w.Prepared().value.chunks <= MAX_UINT32
             && b.server.sealed + 1 + w.Prepared().value.chunks <= MAX_UINT32
    ensures Runs(w, k, Start(k), before + events)
    ensures var b := Run(w, k, Start(k), before + events); b.stage.Finishing? && b.view.written == w.archive
  {
    var n := NamesOf(k);
    NamesAreRight(k);
    StartShows(k, n);
    var actions := RunAgrees(w, k, n, Start(k), T.INITIAL, before);
    var s := T.Run(w, T.INITIAL, actions);
    T.RunKeepsInv(w, T.INITIAL, actions);
    var more := Completion.AwaitingCompletes(w, s);
    events := RunInBytes(w, k, n, Run(w, k, Start(k), before), s, more);
    Concat(w, k, Start(k), before, events);
  }

  /** And this is where an honest handshake leaves the two ends. */
  lemma HandshakeStarts(suite: Handshake.Suite, aead: Aead, utf8: bytes -> bool, id: RequestID, sharedSecret: bytes,
                        clientPrivate: bytes, clientNonce: Block,
                        identity: Handshake.Identity, serverPrivate: bytes, serverNonce: Block, salt: bytes) returns (k: Link)
    requires suite.Laws() && |sharedSecret| == 32 && Handshake.GoodSize(identity.bits)
    requires suite.ecdh(clientPrivate, suite.public(serverPrivate)).Some?
    ensures k.aead == aead && k.utf8 == utf8 && k.id == id
    ensures Handshake.NewClient(suite, id, sharedSecret, clientPrivate, clientNonce).Ok?
    ensures var (client, hello) := Handshake.NewClient(suite, id, sharedSecret, clientPrivate, clientNonce).value;
            var accepted := Handshake.Accept(suite, hello, sharedSecret, identity, serverPrivate, serverNonce, salt);
            && accepted.Ok? && accepted.value.1 == Start(k).server
            && Handshake.Complete(suite, client, accepted.value.0, Handshake.Identity(suite.publicIdentity(identity.key), identity.bits))
               == Ok(Start(k).client)
  {
    Handshake.HandshakeAgrees(suite, id, sharedSecret, clientPrivate, clientNonce, identity, serverPrivate, serverNonce, salt);
    var (client, hello) := Handshake.NewClient(suite, id, sharedSecret, clientPrivate, clientNonce).value;
    var (reply, server) := Handshake.Accept(suite, hello, sharedSecret, identity, serverPrivate, serverNonce, salt).value;
    k := Link(aead, utf8, id, server.inboundKey, server.outboundKey);
    Handshake.HelloArrives(suite, id, sharedSecret, clientPrivate, clientNonce);
  }
}
