/** The whole download: one client, one server session and a network that loses, duplicates
    and reorders packets, as a transition system over sealed packets. */
module Transfer {
  import opened Bytes
  import opened Codec
  import opened Replay
  import C = Chunks
  import R = Receiver
  import W = SendWindow

  /** What a run does not change: the prepared archive, its checksum function, the path the
      client asks for and the size it accepts. */
  datatype World = World(archive: bytes, sum: bytes -> Block, path: bytes, maxArchive: nat) {
    ghost predicate Valid() {
      |archive| < 0x8000_0000_0000_0000
    }

    /** The meta of the archive, when it has one. */
    function Prepared(): Option<Meta>
      requires |archive| < 0x8000_0000_0000_0000
    {
      C.PreparedMeta(|archive|, sum(archive))
    }
  }

  /** A sealed packet: what authenticity leaves observable of a datagram. */
  datatype Sealed = Sealed(sequence: nat, packet: Packet)

  datatype Reason = Interrupted | SendFailed | ServerReported | TooLarge
                  | BadMeta | BadChunk | WrongLength | WrongChecksum

  datatype Stage = AwaitingMeta | Receiving | Finishing | Finished | Aborted(reason: Reason)

  datatype Client = Client(stage: Stage, view: R.View, sealed: nat, seen: Seen)

  datatype Phase = Connected | Preparing | Ready | Gone

  /** `pending` is a chunk already on the network whose sending is not yet recorded;
      `announcement` is a packet the preparing goroutine has still to send. */
  datatype Server = Server(
    phase: Phase,
    running: bool,
    announcement: Option<Packet>,
    pending: Option<nat>,
    sent: set<nat>,
    sealed: nat,
    seen: Seen)

  datatype System = System(client: Client, server: Server, toServer: set<Sealed>, toClient: set<Sealed>)

  const ZEROS: Block := [0, 0, 0, 0, 0, 0, 0, 0, 0, 0, 0, 0, 0, 0, 0, 0, 0, 0, 0, 0, 0, 0, 0, 0, 0, 0, 0, 0, 0, 0, 0, 0]

  const NO_META := Meta(0, 0, 1, ZEROS)

  const INITIAL := System(
    Client(AwaitingMeta, R.Start(NO_META), 0, NOTHING_SEEN),
    Server(Connected, false, None, None, {}, 0, NOTHING_SEEN),
    {}, {})

  /** One atomic step. `room` is how many requests the client can still send; `sendable`
      and `readable` say whether the operating system plays along. */
  datatype Action =
    | ClientRequests(sendable: bool)
    | ClientTimesOut(room: nat)
    | ClientReceives(fromServer: Sealed, room: nat)
    | ClientSignsOff(sendable: bool)
    | ClientGivesUp
    | ServerReceives(fromClient: Sealed, readable: bool, sendable: bool)
    | ServerRecords
    | PrepareEnds(succeeds: bool)
    | PrepareAnnounces(sendable: bool)
    | ServerExpires

  predicate Enabled(w: World, s: System, a: Action)
    requires |w.archive| < 0x8000_0000_0000_0000
  {
    match a
    case ClientRequests(_) => s.client.stage.AwaitingMeta?
    case ClientTimesOut(room) => s.client.stage.Receiving? && s.client.sealed + room <= MAX_UINT32
    case ClientReceives(p, room) =>
      (s.client.stage.AwaitingMeta? || s.client.stage.Receiving? || s.client.stage.Finishing?)
      && p in s.toClient && s.client.sealed + room <= MAX_UINT32
    case ClientSignsOff(_) => s.client.stage.Finishing?
    case ClientGivesUp => !s.client.stage.Finished? && !s.client.stage.Aborted?
    case ServerReceives(p, _, _) => s.server.phase != Gone && s.server.pending.None? && p in s.toServer
    case ServerRecords => s.server.pending.Some?
    case PrepareEnds(succeeds) => s.server.running && (succeeds ==> w.Prepared().Some?)
    case PrepareAnnounces(_) => s.server.announcement.Some?
    case ServerExpires => s.server.phase != Gone && s.server.pending.None?
  }

  // ----- the client's steps -----

  /** The requests of one burst, under consecutive sequences. */
  function Gets(sealed: nat, indices: seq<U32>): set<Sealed> {
    set k: nat | k < |indices| :: Sealed(sealed + 1 + k, Get(indices[k]))
  }

  function ClientSends(s: System, p: Packet, sendable: bool): (System, bool) {
    if s.client.sealed >= MAX_UINT32 || !sendable then (s, false)
    else (s.(client := s.client.(sealed := s.client.sealed + 1),
             toServer := s.toServer + {Sealed(s.client.sealed + 1, p)}), true)
  }

  function Abort(s: System, reason: Reason): System {
    s.(client := s.client.(stage := Aborted(reason)))
  }

  /** The loop's exit and the two checks after it. */
  function Concluded(w: World, v: R.View, stage: Stage): Stage {
    if v.nextWrite < v.meta.chunks then stage
    else if v.received != v.meta.size then Aborted(WrongLength)
    else if w.sum(v.written) != v.meta.sha256 then Aborted(WrongChecksum)
    else Finishing
  }

  function Conclude(w: World, s: System): System {
    s.(client := s.client.(stage := Concluded(w, s.client.view, s.client.stage)))
  }

  /** Takes over a receiver step: its requests go out, its variables replace the old. */
  function TakeEffect(w: World, s: System, e: R.Effect, reason: Reason): System {
    var s' := s.(client := s.client.(view := e.view, sealed := s.client.sealed + |e.requests|),
                 toServer := s.toServer + Gets(s.client.sealed, e.requests));
    if e.outcome.Failed? then Abort(s', reason) else Conclude(w, s')
  }

  function HandleReason(e: R.Effect): Reason {
    if e.outcome == R.Failed("server error") then ServerReported
    else if e.outcome == R.Failed(R.SEND_ERROR) then SendFailed
    else BadChunk
  }

  function ClientHandles(w: World, s: System, p: Packet, room: nat): System {
    match s.client.stage
    case AwaitingMeta =>
      (match p
       case Error(_) => Abort(s, ServerReported)
       case MetaPacket(m) =>
         if !MetaAccepted(m) then Abort(s, BadMeta)
         else if m.size > w.maxArchive then Abort(s, TooLarge)
         else TakeEffect(w, s.(client := s.client.(stage := Receiving)), R.Fill(R.Start(m), room), SendFailed)
       case _ => s)
    case Receiving =>
      var e := R.Handle(s.client.view, p, room);
      TakeEffect(w, s, e, HandleReason(e))
    case Finishing =>
      if p.Done? || p.Error? then s.(client := s.client.(stage := Finished)) else s
    case _ => s
  }

  // ----- the server's steps -----

  function ServerSends(s: System, p: Packet, sendable: bool): (System, bool) {
    if s.server.sealed >= MAX_UINT32 then (s, false)
    else
      var s' := s.(server := s.server.(sealed := s.server.sealed + 1));
      if !sendable then (s', false)
      else (s'.(toClient := s.toClient + {Sealed(s.server.sealed + 1, p)}), true)
  }

  const READ_ERROR: bytes := [114, 101, 97, 100]

  function ServerHandles(w: World, s: System, p: Packet, readable: bool, sendable: bool): System
    requires |w.archive| < 0x8000_0000_0000_0000
  {
    match p
    case Request(_) =>
      (match s.server.phase
       case Connected => s.(server := s.server.(phase := Preparing, running := true))
       case Ready => if w.Prepared().Some? then ServerSends(s, MetaPacket(w.Prepared().value), sendable).0 else s
       case _ => s)
    case Get(index) => ServerHandlesGet(w, s, index, readable, sendable)
    case Done =>
      var s' := ServerSends(s, Done, sendable).0;
      s'.(server := s'.server.(phase := Gone))
    case _ => s
  }

  function ServerHandlesGet(w: World, s: System, index: U32, readable: bool, sendable: bool): System
    requires |w.archive| < 0x8000_0000_0000_0000
  {
    if s.server.phase != Ready || w.Prepared().None? then s
    else
      var m := w.Prepared().value;
      if index >= m.chunks || !W.WithinWindow(W.Base(s.server.sent, m.chunks), index) then s
      else if !readable then ServerSends(s, Error(READ_ERROR), sendable).0
      else
        var (s', ok) := ServerSends(s, Data(index, C.ChunkOf(w.archive, m, index)), sendable);
        if ok then s'.(server := s'.server.(pending := Some(index))) else s'
  }

  function ClientOpens(s: System, sequence: nat): System {
    s.(client := s.client.(seen := s.client.seen.Accept(sequence)))
  }

  function ServerOpens(s: System, sequence: nat): System {
    s.(server := s.server.(seen := s.server.seen.Accept(sequence)))
  }

  function Step(w: World, s: System, a: Action): System
    requires |w.archive| < 0x8000_0000_0000_0000 && Enabled(w, s, a)
  {
    match a
    case ClientRequests(sendable) =>
      var (s', ok) := ClientSends(s, Request(w.path), sendable);
      if ok then s' else Abort(s, SendFailed)
    case ClientTimesOut(room) => TakeEffect(w, s, R.Retransmit(s.client.view, room), SendFailed)
    case ClientReceives(p, room) =>
      if !s.client.seen.Fresh(p.sequence) then s
      else ClientHandles(w, ClientOpens(s, p.sequence), p.packet, room)
    case ClientSignsOff(sendable) =>
      var (s', ok) := ClientSends(s, Done, sendable);
      if ok then s' else s.(client := s.client.(stage := Finished))
    case ClientGivesUp =>
      if s.client.stage.Finishing? then s.(client := s.client.(stage := Finished)) else Abort(s, Interrupted)
    case ServerReceives(p, readable, sendable) =>
      if !s.server.seen.Fresh(p.sequence) then s
      else ServerHandles(w, ServerOpens(s, p.sequence), p.packet, readable, sendable)
    case ServerRecords =>
      s.(server := s.server.(sent := s.server.sent + {s.server.pending.value}, pending := None))
    case PrepareEnds(succeeds) =>
      var server := s.server.(running := false);
      s.(server :=
        if succeeds then
          if s.server.phase == Preparing
          then server.(phase := Ready, announcement := Some(MetaPacket(w.Prepared().value)))
          else server
        else server.(phase := if s.server.phase == Preparing then Gone else s.server.phase,
                     announcement := Some(Error(READ_ERROR))))
    case PrepareAnnounces(sendable) =>
      ServerSends(s.(server := s.server.(announcement := None)), s.server.announcement.value, sendable).0
    case ServerExpires => s.(server := s.server.(phase := Gone))
  }

  /** A run: every action is enabled where it is taken. */
  ghost predicate Runs(w: World, s: System, actions: seq<Action>)
    requires |w.archive| < 0x8000_0000_0000_0000
    decreases |actions|
  {
    actions != [] ==> Enabled(w, s, actions[0]) && Runs(w, Step(w, s, actions[0]), actions[1..])
  }

  function Run(w: World, s: System, actions: seq<Action>): System
    requires |w.archive| < 0x8000_0000_0000_0000 && Runs(w, s, actions)
    decreases |actions|
  {
    if actions == [] then s else Run(w, Step(w, s, actions[0]), actions[1..])
  }

  // ----- the invariant -----

  /** The chunks the network may carry or the client may hold. */
  function Served(sent: set<nat>, pending: Option<nat>): set<nat> {
    if pending.Some? then sent + {pending.value} else sent
  }

  /** One direction: sequences are in use, unique, and ahead of nothing unsent. */
  ghost predicate DirectionInv(packets: set<Sealed>, sealed: nat, seen: Seen) {
    && sealed <= MAX_UINT32
    && (forall p <- packets :: 1 <= p.sequence <= sealed)
    && (forall p, q | p in packets && q in packets && p.sequence == q.sequence :: p == q)
    && seen.Valid() && seen.highest <= sealed
  }

  ghost predicate IsChunk(w: World, index: nat, data: bytes)
    requires |w.archive| < 0x8000_0000_0000_0000
  {
    w.Prepared().Some? && index < w.Prepared().value.chunks && data == C.ChunkOf(w.archive, w.Prepared().value, index)
  }

  /** What the server can have said. */
  ghost predicate Truthful(w: World, served: set<nat>, p: Packet)
    requires |w.archive| < 0x8000_0000_0000_0000
  {
    match p
    case MetaPacket(m) => w.Prepared() == Some(m)
    case Data(index, data) => IsChunk(w, index, data) && index in served
    case Error(_) => true
    case Done => true
    case _ => false
  }

  /** What the client can have asked. */
  ghost predicate Asked(w: World, nextRequest: nat, p: Packet) {
    match p
    case Request(path) => path == w.path
    case Get(index) => index < nextRequest
    case Done => true
    case _ => false
  }

  ghost predicate NetworkInv(w: World, s: System)
    requires |w.archive| < 0x8000_0000_0000_0000
  {
    && DirectionInv(s.toServer, s.client.sealed, s.server.seen)
    && DirectionInv(s.toClient, s.server.sealed, s.client.seen)
    && (forall p <- s.toClient :: Truthful(w, Served(s.server.sent, s.server.pending), p.packet))
    && (forall p <- s.toServer :: Asked(w, s.client.view.nextRequest, p.packet))
  }

  ghost predicate ServerInv(w: World, s: System)
    requires |w.archive| < 0x8000_0000_0000_0000
  {
    && (s.server.phase == Ready ==> w.Prepared().Some?)
    && (s.server.phase == Preparing ==> s.server.running)
    && (s.server.announcement.Some? ==>
          (s.server.announcement.value.Error? || s.server.announcement.value.MetaPacket?)
          && Truthful(w, Served(s.server.sent, s.server.pending), s.server.announcement.value))
    && (forall i <- Served(s.server.sent, s.server.pending) :: w.Prepared().Some? && i < w.Prepared().value.chunks)
  }

  /** The receiver works for the archive's meta, and holds nothing but its chunks. */
  ghost predicate Honest(w: World, served: set<nat>, v: R.View)
    requires |w.archive| < 0x8000_0000_0000_0000
  {
    && w.Prepared() == Some(v.meta)
    && R.Sound(v)
    && (forall k <- v.stored :: k in served && IsChunk(w, k, v.stored[k]))
  }

  /** Ways a download may end that do not put the data in doubt. */
  predicate Excusable(reason: Reason) {
    reason == Interrupted || reason == SendFailed || reason == ServerReported || reason == TooLarge
  }

  ghost predicate ClientInv(w: World, s: System)
    requires |w.archive| < 0x8000_0000_0000_0000
  {
    && (s.client.view == R.Start(NO_META) || Honest(w, Served(s.server.sent, s.server.pending), s.client.view))
    && (s.client.stage.Receiving? ==> Honest(w, Served(s.server.sent, s.server.pending), s.client.view) && R.AtLoopHead(s.client.view) && s.client.view.nextWrite < s.client.view.meta.chunks)
    && (s.client.stage.Finishing? || s.client.stage.Finished? ==>
          Honest(w, Served(s.server.sent, s.server.pending), s.client.view) && s.client.view.nextWrite == s.client.view.meta.chunks)
    && (s.client.stage.AwaitingMeta? ==> s.client.view == R.Start(NO_META))
    && (s.client.stage.Aborted? ==> Excusable(s.client.stage.reason))
  }

  ghost predicate Inv(w: World, s: System)
    requires |w.archive| < 0x8000_0000_0000_0000
  {
    NetworkInv(w, s) && ServerInv(w, s) && ClientInv(w, s)
  }

  // ----- what the receiver has written -----

  lemma {:induction false} StoredIsJoined(w: World, m: Meta, stored: map<nat, bytes>, n: nat)
    requires w.Valid() && w.Prepared() == Some(m) && n <= m.chunks
    requires forall k: nat :: k < n ==> k in stored && IsChunk(w, k, stored[k])
    ensures R.StoredPrefix(stored, n) == C.Joined(w.archive, m, n)
  {
    if n > 0 {
      StoredIsJoined(w, m, stored, n - 1);
      assert IsChunk(w, n - 1, stored[n - 1]);
    }
  }

  lemma WrittenIsPrefix(w: World, served: set<nat>, v: R.View)
    requires w.Valid() && Honest(w, served, v)
    ensures && v.written == w.archive[..C.PrefixSize(v.meta, v.nextWrite)]
            && (v.nextWrite == v.meta.chunks ==> v.written == w.archive && v.received == v.meta.size)
  {
    StoredIsJoined(w, v.meta, v.stored, v.nextWrite);
    C.JoinedIsPrefix(w.archive, v.meta, v.nextWrite);
  }

  // ----- the invariant is kept -----

  lemma SendKeeps(packets: set<Sealed>, sealed: nat, seen: Seen, p: Packet)
    requires DirectionInv(packets, sealed, seen) && sealed < MAX_UINT32
    ensures DirectionInv(packets + {Sealed(sealed + 1, p)}, sealed + 1, seen)
  {}

  lemma GetsKeep(packets: set<Sealed>, sealed: nat, seen: Seen, indices: seq<U32>)
    requires DirectionInv(packets, sealed, seen) && sealed + |indices| <= MAX_UINT32
    ensures DirectionInv(packets + Gets(sealed, indices), sealed + |indices|, seen)
  {}

  lemma AcceptKeeps(packets: set<Sealed>, sealed: nat, seen: Seen, p: Sealed)
    requires DirectionInv(packets, sealed, seen) && p in packets
    ensures DirectionInv(packets, sealed, seen.Accept(p.sequence))
  {}

  /** Saying something truthful, or failing to, keeps the invariant. */
  lemma ServerSendsKeeps(w: World, s: System, p: Packet, sendable: bool)
    requires w.Valid() && Inv(w, s) && Truthful(w, Served(s.server.sent, s.server.pending), p)
    ensures Inv(w, ServerSends(s, p, sendable).0)
  {
    if s.server.sealed < MAX_UINT32 {
      SendKeeps(s.toClient, s.server.sealed, s.client.seen, p);
    }
  }

  lemma ClientSendsKeeps(w: World, s: System, p: Packet, sendable: bool)
    requires w.Valid() && Inv(w, s) && Asked(w, s.client.view.nextRequest, p)
    ensures Inv(w, ClientSends(s, p, sendable).0)
  {
    if s.client.sealed < MAX_UINT32 {
      SendKeeps(s.toServer, s.client.sealed, s.server.seen, p);
    }
  }

  lemma AskedGrows(w: World, packets: set<Sealed>, next: nat, more: nat)
    requires next <= more && forall p <- packets :: Asked(w, next, p.packet)
    ensures forall p <- packets :: Asked(w, more, p.packet)
  {}

  /** The state a receiver step leaves before the loop looks at it again. */
  function Burst(s: System, e: R.Effect): System {
    s.(client := s.client.(view := e.view, sealed := s.client.sealed + |e.requests|),
       toServer := s.toServer + Gets(s.client.sealed, e.requests))
  }

  /** And after the loop has looked: still receiving, or every check passed. */
  function AfterBurst(s: System, e: R.Effect): System {
    var t := Burst(s, e);
    t.(client := t.client.(stage := if e.view.nextWrite < e.view.meta.chunks then Receiving else Finishing))
  }

  lemma BurstKeepsNetwork(w: World, s: System, e: R.Effect)
    requires w.Valid() && NetworkInv(w, s)
    requires s.client.sealed + |e.requests| <= MAX_UINT32
    requires s.client.view.nextRequest <= e.view.nextRequest
    requires forall i <- e.requests :: i < e.view.nextRequest
    ensures NetworkInv(w, Burst(s, e))
  {
    GetsKeep(s.toServer, s.client.sealed, s.server.seen, e.requests);
    AskedGrows(w, s.toServer, s.client.view.nextRequest, e.view.nextRequest);
    forall p <- Gets(s.client.sealed, e.requests) ensures Asked(w, e.view.nextRequest, p.packet) {
      assert p.packet.index in e.requests;
    }
  }

  /** A receiver step that stays honest keeps the invariant, and the checks after the loop
      cannot fail. */
  lemma TakeEffectKeeps(w: World, s: System, e: R.Effect, reason: Reason)
    requires w.Valid() && NetworkInv(w, s) && ServerInv(w, s) && s.client.stage.Receiving?
    requires s.client.sealed + |e.requests| <= MAX_UINT32
    requires s.client.view.nextRequest <= e.view.nextRequest
    requires forall i <- e.requests :: i < e.view.nextRequest
    requires Honest(w, Served(s.server.sent, s.server.pending), e.view)
    requires e.outcome.Waiting? ==> R.AtLoopHead(e.view)
    requires e.outcome.Failed? ==> Excusable(reason)
    ensures Inv(w, TakeEffect(w, s, e, reason))
    ensures e.outcome.Waiting? ==> TakeEffect(w, s, e, reason) == AfterBurst(s, e)
  {
    BurstKeepsNetwork(w, s, e);
    WrittenIsPrefix(w, Served(s.server.sent, s.server.pending), e.view);
  }

  lemma TimeoutKeeps(w: World, s: System, room: nat)
    requires w.Valid() && Inv(w, s) && Enabled(w, s, ClientTimesOut(room))
    ensures Inv(w, Step(w, s, ClientTimesOut(room)))
  {
    var e := R.Retransmit(s.client.view, room);
    R.MissingExact(s.client.view, s.client.view.nextWrite);
    forall i <- e.requests ensures i < e.view.nextRequest {
      assert i in R.Missing(s.client.view, s.client.view.nextWrite);
    }
    TakeEffectKeeps(w, s, e, SendFailed);
  }

  lemma MetaKeeps(w: World, s: System, m: Meta, room: nat)
    requires w.Valid() && Inv(w, s) && s.client.stage.AwaitingMeta?
    requires s.client.sealed + room <= MAX_UINT32
    requires Truthful(w, Served(s.server.sent, s.server.pending), MetaPacket(m))
    ensures Inv(w, ClientHandles(w, s, MetaPacket(m), room))
  {
    if MetaAccepted(m) && m.size <= w.maxArchive {
      R.StartIsSound(m, room);
      R.FillKeeps(R.Start(m), room);
      TakeEffectKeeps(w, s.(client := s.client.(stage := Receiving)), R.Fill(R.Start(m), room), SendFailed);
    }
  }

  /** A truthful chunk stored keeps the receiver honest. */
  lemma HandleStaysHonest(w: World, served: set<nat>, v: R.View, p: Packet, room: nat)
    requires w.Valid() && Honest(w, served, v) && R.AtLoopHead(v)
    requires Truthful(w, served, p)
    ensures Honest(w, served, R.Handle(v, p, room).view)
    ensures R.Handle(v, p, room).outcome.Failed? ==> Excusable(HandleReason(R.Handle(v, p, room)))
  {
    if p.Data? && v.nextWrite <= p.index < v.nextRequest && p.index !in v.buffered {
      assert |p.data| == C.ExpectedLength(v.meta, p.index);
      StoredStaysHonest(w, served, v, p.index, p.data, room);
    }
  }

  lemma StoredStaysHonest(w: World, served: set<nat>, v: R.View, index: U32, data: bytes, room: nat)
    requires w.Valid() && Honest(w, served, v)
    requires v.nextWrite <= index < v.nextRequest && index !in v.buffered
    requires index in served && IsChunk(w, index, data)
    ensures Honest(w, served, R.Fill(R.Drain(R.Store(v, index, data)), room).view)
  {
    var stored := R.Store(v, index, data);
    R.StoreKeeps(v, index, data);
    assert Honest(w, served, stored);
    R.DrainKeeps(stored);
    R.FillKeeps(R.Drain(stored), room);
  }

  lemma ReceivingKeeps(w: World, s: System, p: Packet, room: nat)
    requires w.Valid() && Inv(w, s) && s.client.stage.Receiving?
    requires s.client.sealed + room <= MAX_UINT32
    requires Truthful(w, Served(s.server.sent, s.server.pending), p)
    ensures Inv(w, ClientHandles(w, s, p, room))
    ensures var e := R.Handle(s.client.view, p, room);
            e.outcome.Waiting? ==> ClientHandles(w, s, p, room) == AfterBurst(s, e)
  {
    var e := R.Handle(s.client.view, p, room);
    R.HandleKeeps(s.client.view, p, room);
    HandleStaysHonest(w, Served(s.server.sent, s.server.pending), s.client.view, p, room);
    TakeEffectKeeps(w, s, e, HandleReason(e));
  }

  lemma ClientOpensKeeps(w: World, s: System, p: Sealed)
    requires w.Valid() && Inv(w, s) && p in s.toClient
    ensures Inv(w, ClientOpens(s, p.sequence))
    ensures Truthful(w, Served(s.server.sent, s.server.pending), p.packet)
  {
    AcceptKeeps(s.toClient, s.server.sealed, s.client.seen, p);
  }

  lemma ClientReceivesKeeps(w: World, s: System, p: Sealed, room: nat)
    requires w.Valid() && Inv(w, s) && Enabled(w, s, ClientReceives(p, room))
    ensures Inv(w, Step(w, s, ClientReceives(p, room)))
  {
    if s.client.seen.Fresh(p.sequence) {
      var t := ClientOpens(s, p.sequence);
      ClientOpensKeeps(w, s, p);
      match s.client.stage
      case AwaitingMeta =>
        if p.packet.MetaPacket? {
          MetaKeeps(w, t, p.packet.meta, room);
        }
      case Receiving => ReceivingKeeps(w, t, p.packet, room);
      case _ =>
    }
  }

  lemma GetKeeps(w: World, s: System, index: U32, readable: bool, sendable: bool)
    requires w.Valid() && Inv(w, s) && s.server.pending.None?
    ensures Inv(w, ServerHandlesGet(w, s, index, readable, sendable))
  {
    if s.server.phase == Ready {
      var m := w.Prepared().value;
      if index < m.chunks {
        if !readable {
          ServerSendsKeeps(w, s, Error(READ_ERROR), sendable);
        } else {
          var data := C.ChunkOf(w.archive, m, index);
          if sendable && s.server.sealed < MAX_UINT32 {
            DataKeeps(w, s, index, data);
          }
        }
      }
    }
  }

  /** Serving a chunk: the packet appears and the chunk is pending, at once. */
  lemma DataKeeps(w: World, s: System, index: U32, data: bytes)
    requires w.Valid() && Inv(w, s) && s.server.pending.None? && s.server.sealed < MAX_UINT32
    requires IsChunk(w, index, data)
    ensures var s' := ServerSends(s, Data(index, data), true).0;
            Inv(w, s'.(server := s'.server.(pending := Some(index))))
  {
    SendKeeps(s.toClient, s.server.sealed, s.client.seen, Data(index, data));
    var served := Served(s.server.sent, Some(index as nat));
    assert served == s.server.sent + {index};
    ServedGrows(w, s, served);
  }

  lemma ServedGrows(w: World, s: System, more: set<nat>)
    requires w.Valid() && Served(s.server.sent, s.server.pending) <= more
    ensures forall p <- s.toClient :: Truthful(w, Served(s.server.sent, s.server.pending), p.packet) ==> Truthful(w, more, p.packet)
    ensures Honest(w, Served(s.server.sent, s.server.pending), s.client.view) ==> Honest(w, more, s.client.view)
    ensures forall p: Packet :: Truthful(w, Served(s.server.sent, s.server.pending), p) ==> Truthful(w, more, p)
  {}

  lemma ServerReceivesKeeps(w: World, s: System, p: Sealed, readable: bool, sendable: bool)
    requires w.Valid() && Inv(w, s) && Enabled(w, s, ServerReceives(p, readable, sendable))
    ensures Inv(w, Step(w, s, ServerReceives(p, readable, sendable)))
  {
    if s.server.seen.Fresh(p.sequence) {
      var t := ServerOpens(s, p.sequence);
      AcceptKeeps(s.toServer, s.client.sealed, s.server.seen, p);
      assert Inv(w, t);
      ServerHandlesKeeps(w, t, p.packet, readable, sendable);
    }
  }

  lemma ServerHandlesKeeps(w: World, t: System, packet: Packet, readable: bool, sendable: bool)
    requires w.Valid() && Inv(w, t) && t.server.pending.None?
    ensures Inv(w, ServerHandles(w, t, packet, readable, sendable))
  {
    match packet
    case Request(_) =>
      if t.server.phase == Ready {
        ServerSendsKeeps(w, t, MetaPacket(w.Prepared().value), sendable);
      }
    case Get(index) => GetKeeps(w, t, index, readable, sendable);
    case Done => ServerSendsKeeps(w, t, Done, sendable);
    case _ =>
  }

  /** Recording a sent chunk moves it from pending to sent; what was served stays served. */
  lemma RecordKeeps(w: World, s: System)
    requires w.Valid() && Inv(w, s) && Enabled(w, s, ServerRecords)
    ensures Inv(w, Step(w, s, ServerRecords))
  {
    var s' := Step(w, s, ServerRecords);
    assert Served(s'.server.sent, s'.server.pending) == Served(s.server.sent, s.server.pending);
  }

  /** Ends that put nothing on the network. */
  lemma QuietKeeps(w: World, s: System, a: Action)
    requires w.Valid() && Inv(w, s) && Enabled(w, s, a)
    requires a.ClientGivesUp? || a.ServerExpires? || a.PrepareEnds?
    ensures Inv(w, Step(w, s, a))
  {
    var t := Step(w, s, a);
    assert t.toServer == s.toServer && t.toClient == s.toClient && t.client.view == s.client.view;
    assert t.server.sent == s.server.sent && t.server.pending == s.server.pending;
  }

  lemma StepKeepsInv(w: World, s: System, a: Action)
    requires w.Valid() && Inv(w, s) && Enabled(w, s, a)
    ensures Inv(w, Step(w, s, a))
  {
    match a
    case ClientRequests(sendable) => ClientSendsKeeps(w, s, Request(w.path), sendable);
    case ClientTimesOut(room) => TimeoutKeeps(w, s, room);
    case ClientReceives(p, room) => ClientReceivesKeeps(w, s, p, room);
    case ClientSignsOff(sendable) => ClientSendsKeeps(w, s, Done, sendable);
    case ClientGivesUp => QuietKeeps(w, s, a);
    case ServerReceives(p, readable, sendable) => ServerReceivesKeeps(w, s, p, readable, sendable);
    case ServerRecords => RecordKeeps(w, s);
    case PrepareEnds(_) => QuietKeeps(w, s, a);
    case PrepareAnnounces(sendable) =>
      ServerSendsKeeps(w, s.(server := s.server.(announcement := None)), s.server.announcement.value, sendable);
    case ServerExpires => QuietKeeps(w, s, a);
  }

  lemma {:induction false} RunKeepsInv(w: World, s: System, actions: seq<Action>)
    requires w.Valid() && Inv(w, s) && Runs(w, s, actions)
    ensures Inv(w, Run(w, s, actions))
    decreases |actions|
  {
    if actions != [] {
      StepKeepsInv(w, s, actions[0]);
      RunKeepsInv(w, Step(w, s, actions[0]), actions[1..]);
    }
  }

  // ----- theorems over all runs -----

  /** End-to-end safety: in every run the bytes written are a prefix of the archive cut at a
      chunk boundary; a download that passed the loop wrote all of it; and neither the length
      check nor the checksum nor any packet check ever ends a download. */
  lemma DownloadIsSafe(w: World, actions: seq<Action>)
    requires w.Valid() && Runs(w, INITIAL, actions)
    ensures var c := Run(w, INITIAL, actions).client;
            && (c.view.meta.size == |w.archive| || c.view == R.Start(NO_META))
            && c.view.written == w.archive[..C.PrefixSize(c.view.meta, c.view.nextWrite)]
            && (c.stage.Finishing? || c.stage.Finished? ==> c.view.written == w.archive && c.view.received == |w.archive|)
            && (c.stage.Aborted? ==> Excusable(c.stage.reason))
  {
    RunKeepsInv(w, INITIAL, actions);
    var t := Run(w, INITIAL, actions);
    if t.client.view != R.Start(NO_META) {
      WrittenIsPrefix(w, Served(t.server.sent, t.server.pending), t.client.view);
    }
  }

  /** Counting the chunk just sent as sent, the server is never behind the client, and every
      request the client ever made falls inside its window. */
  lemma WindowsAgreeIn(w: World, t: System)
    requires w.Valid() && Inv(w, t) && w.Prepared().Some?
    ensures var m := w.Prepared().value;
            var base := W.Base(Served(t.server.sent, t.server.pending), m.chunks);
            && t.client.view.nextWrite <= base
            && (forall p <- t.toServer :: p.packet.Get? ==>
                  p.packet.index < m.chunks && W.WithinWindow(base, p.packet.index))
  {
    var m, v := w.Prepared().value, t.client.view;
    var served := Served(t.server.sent, t.server.pending);
    W.GapIsLeast(served, 0, m.chunks);
    if v != R.Start(NO_META) {
      assert forall k: nat :: k < v.nextWrite ==> k in v.stored && k in served;
    }
    forall p <- t.toServer | p.packet.Get?
      ensures p.packet.index < m.chunks && W.WithinWindow(W.Base(served, m.chunks), p.packet.index)
    {
      assert Asked(w, v.nextRequest, p.packet);
    }
  }

  // ----- how far the recorded window can lag -----

  /** No chunk was sent further than the client's window from the least unsent one. */
  ghost predicate NearInv(w: World, s: System)
    requires w.Valid()
  {
    w.Prepared().Some? ==> Near(s.server.sent, s.server.pending, w.Prepared().value.chunks)
  }

  ghost predicate Near(sent: set<nat>, pending: Option<nat>, chunks: nat) {
    forall i <- Served(sent, pending) :: i < W.Base(sent, chunks) + R.TRANSFER_WINDOW
  }

  /** A request the server takes up is less than a client window ahead of its base. */
  lemma RequestIsNear(w: World, s: System, q: nat, index: U32)
    requires w.Valid() && Inv(w, s) && w.Prepared().Some? && s.server.pending.None?
    requires Sealed(q, Get(index)) in s.toServer
    ensures index < W.Base(s.server.sent, w.Prepared().value.chunks) + R.TRANSFER_WINDOW
  {
    WindowsAgreeIn(w, s);
    assert Asked(w, s.client.view.nextRequest, Get(index));
  }

  lemma RecordKeepsNear(w: World, s: System)
    requires w.Valid() && NearInv(w, s) && s.server.pending.Some?
    ensures NearInv(w, s.(server := s.server.(sent := s.server.sent + {s.server.pending.value}, pending := None)))
  {
    if w.Prepared().Some? {
      var sent, chunks := s.server.sent, w.Prepared().value.chunks;
      var more := sent + {s.server.pending.value};
      W.GapGrows(sent, more, 0, chunks);
      assert W.Base(sent, chunks) <= W.Base(more, chunks) && more == Served(sent, s.server.pending) == Served(more, None);
    }
  }

  lemma GetKeepsNear(w: World, s: System, index: U32, readable: bool, sendable: bool)
    requires w.Valid() && NearInv(w, s) && s.server.pending.None?
    requires w.Prepared().Some? ==> index < W.Base(s.server.sent, w.Prepared().value.chunks) + R.TRANSFER_WINDOW
    ensures NearInv(w, ServerHandlesGet(w, s, index, readable, sendable))
  {
    var t := ServerHandlesGet(w, s, index, readable, sendable);
    assert t.server.sent == s.server.sent && (t.server.pending == None || t.server.pending == Some(index as nat));
    if w.Prepared().Some? {
      assert Served(s.server.sent, None) == s.server.sent;
      assert Near(s.server.sent, t.server.pending, w.Prepared().value.chunks);
    }
  }

  /** Only the server's handling of a request, and its recording, touch what it has sent. */
  lemma SentUnmoved(w: World, s: System, a: Action)
    requires w.Valid() && Enabled(w, s, a)
    ensures var t := Step(w, s, a);
            || (t.server.sent == s.server.sent && t.server.pending == s.server.pending)
            || a.ServerRecords?
            || (a.ServerReceives? && a.fromClient.packet.Get?
                && t == ServerHandlesGet(w, ServerOpens(s, a.fromClient.sequence), a.fromClient.packet.index, a.readable, a.sendable))
  {}

  lemma StepKeepsNear(w: World, s: System, a: Action)
    requires w.Valid() && Inv(w, s) && NearInv(w, s) && Enabled(w, s, a)
    ensures NearInv(w, Step(w, s, a))
  {
    var t := Step(w, s, a);
    SentUnmoved(w, s, a);
    if a.ServerRecords? {
      RecordKeepsNear(w, s);
    } else if t.server.sent != s.server.sent || t.server.pending != s.server.pending {
      var p := a.fromClient;
      if w.Prepared().Some? {
        RequestIsNear(w, s, p.sequence, p.packet.index);
      }
      GetKeepsNear(w, ServerOpens(s, p.sequence), p.packet.index, a.readable, a.sendable);
    }
  }

  lemma {:induction false} RunKeepsNear(w: World, s: System, actions: seq<Action>)
    requires w.Valid() && Inv(w, s) && NearInv(w, s) && Runs(w, s, actions)
    ensures NearInv(w, Run(w, s, actions))
    decreases |actions|
  {
    if actions != [] {
      StepKeepsInv(w, s, actions[0]);
      StepKeepsNear(w, s, actions[0]);
      RunKeepsNear(w, Step(w, s, actions[0]), actions[1..]);
    }
  }

  /** The two windows agree. In every run, between handling two packets the server's base is
      at least the client's next chunk to write. Between sending a chunk and recording it the
      base can be behind, only when that chunk is the base itself, and by no more than the
      client's window. So no request an honest client ever made, however late it arrives, is
      outside the window as recorded. */
  lemma WindowsAgree(w: World, actions: seq<Action>)
    requires w.Valid() && Runs(w, INITIAL, actions)
    requires w.Prepared().Some?
    ensures var t := Run(w, INITIAL, actions);
            var m := w.Prepared().value;
            var base := W.Base(t.server.sent, m.chunks);
            && (t.client.view.nextWrite <= base || t.server.pending == Some(base))
            && t.client.view.nextWrite <= base + R.TRANSFER_WINDOW
            && (forall p <- t.toServer :: p.packet.Get? ==>
                  p.packet.index < m.chunks && W.WithinWindow(base, p.packet.index))
  {
    RunKeepsInv(w, INITIAL, actions);
    RunKeepsNear(w, INITIAL, actions);
    var t := Run(w, INITIAL, actions);
    WindowsAgreeIn(w, t);
    BaseLag(t.server.sent, t.server.pending, w.Prepared().value.chunks);
    forall p <- t.toServer | p.packet.Get?
      ensures W.WithinWindow(W.Base(t.server.sent, w.Prepared().value.chunks), p.packet.index)
    {
      assert Asked(w, t.client.view.nextRequest, p.packet);
    }
  }

  lemma BaseLag(sent: set<nat>, pending: Option<nat>, chunks: nat)
    requires Near(sent, pending, chunks)
    ensures W.Base(Served(sent, pending), chunks) <= W.Base(sent, chunks) + R.TRANSFER_WINDOW
    ensures W.Base(Served(sent, pending), chunks) > W.Base(sent, chunks) ==> pending == Some(W.Base(sent, chunks))
  {
    W.GapIsLeast(sent, 0, chunks);
    W.GapIsLeast(Served(sent, pending), 0, chunks);
    var beyond := W.Base(sent, chunks) + R.TRANSFER_WINDOW;
    assert beyond !in Served(sent, pending);
    if W.Base(Served(sent, pending), chunks) > W.Base(sent, chunks) {
      assert W.Base(sent, chunks) in Served(sent, pending) && W.Base(sent, chunks) !in sent;
    }
  }

  // ----- once the meta is known the preparation is over -----

  predicate Settled(phase: Phase) {
    phase == Ready || phase == Gone
  }

  ghost predicate PhaseInv(s: System) {
    && (forall p <- s.toClient :: p.packet.MetaPacket? ==> Settled(s.server.phase))
    && (s.server.announcement.Some? && s.server.announcement.value.MetaPacket? ==> Settled(s.server.phase))
    && (s.client.stage.Receiving? ==> Settled(s.server.phase))
  }

  /** No step undoes a preparation. */
  lemma PhaseStays(w: World, s: System, a: Action)
    requires w.Valid() && Enabled(w, s, a) && Settled(s.server.phase)
    ensures Settled(Step(w, s, a).server.phase)
  {}

  lemma StepKeepsPhase(w: World, s: System, a: Action)
    requires w.Valid() && Enabled(w, s, a) && PhaseInv(s)
    ensures PhaseInv(Step(w, s, a))
  {
    if Settled(s.server.phase) {
      PhaseStays(w, s, a);
    }
  }

  lemma {:induction false} RunKeepsPhase(w: World, s: System, actions: seq<Action>)
    requires w.Valid() && PhaseInv(s) && Runs(w, s, actions)
    ensures PhaseInv(Run(w, s, actions))
    decreases |actions|
  {
    if actions != [] {
      StepKeepsPhase(w, s, actions[0]);
      RunKeepsPhase(w, Step(w, s, actions[0]), actions[1..]);
    }
  }
}
