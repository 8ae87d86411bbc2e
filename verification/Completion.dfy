/** Completion from the very beginning: a download that has not even its meta yet can still be
    finished, through the request, the preparation and the first window of chunk requests. */
module Completion {
  import opened Bytes
  import opened Codec
  import opened Transfer
  import opened Progress
  import C = Chunks
  import R = Receiver
  import W = SendWindow

  /** As without faults, with the request and a preparation that succeeds. */
  predicate Smooth(a: Action) {
    FaultFree(a) || a == ClientRequests(true) || a == PrepareEnds(true) || a == PrepareAnnounces(true)
  }

  predicate AllSmooth(actions: seq<Action>) {
    forall a <- actions :: Smooth(a)
  }

  /** Room for some requests and one more packet per chunk, and for some replies and one more
      packet per chunk. */
  ghost predicate HasRoom(w: World, s: System, requests: nat, replies: nat)
    requires w.Valid() && w.Prepared().Some?
  {
    var chunks := w.Prepared().value.chunks;
    s.client.sealed + requests + chunks <= MAX_UINT32 && s.server.sealed + replies + chunks <= MAX_UINT32
  }

  ghost predicate Waiting(w: World, s: System)
    requires w.Valid()
  {
    && Inv(w, s) && s.client.stage.AwaitingMeta? && s.server.pending.None?
    && w.Prepared().Some? && |w.archive| <= w.maxArchive
  }

  /** The client's request, and its delivery. */
  function RequestActions(w: World, s: System): seq<Action> {
    [ClientRequests(true), ServerReceives(Sealed(s.client.sealed + 1, Request(w.path)), true, true)]
  }

  function Asking(w: World, s: System): System {
    s.(client := s.client.(sealed := s.client.sealed + 1),
       toServer := s.toServer + {Sealed(s.client.sealed + 1, Request(w.path))})
  }

  lemma Asks(w: World, s: System)
    requires w.Valid() && s.client.stage.AwaitingMeta? && s.client.sealed < MAX_UINT32
    ensures Enabled(w, s, ClientRequests(true)) && Step(w, s, ClientRequests(true)) == Asking(w, s)
  {}

  lemma Delivers(w: World, s: System, q: nat, p: Packet)
    requires w.Valid() && s.server.phase != Gone && s.server.pending.None?
    requires Sealed(q, p) in s.toServer && s.server.seen.highest < q
    ensures Enabled(w, s, ServerReceives(Sealed(q, p), true, true))
    ensures Step(w, s, ServerReceives(Sealed(q, p), true, true)) == ServerHandles(w, ServerOpens(s, q), p, true, true)
  {}

  lemma RequestReaches(w: World, s: System)
    requires w.Valid() && Waiting(w, s) && s.server.phase != Gone && s.client.sealed < MAX_UINT32
    ensures Runs(w, s, RequestActions(w, s))
    ensures Run(w, s, RequestActions(w, s)) == ServerHandles(w, ServerOpens(Asking(w, s), s.client.sealed + 1), Request(w.path), true, true)
    ensures Inv(w, Run(w, s, RequestActions(w, s)))
  {
    var q := s.client.sealed + 1;
    Asks(w, s);
    Delivers(w, Asking(w, s), q, Request(w.path));
    Prepend(w, Asking(w, s), ServerReceives(Sealed(q, Request(w.path)), true, true), []);
    Prepend(w, s, ClientRequests(true), [ServerReceives(Sealed(q, Request(w.path)), true, true)]);
    RunKeepsInv(w, s, RequestActions(w, s));
  }

  /** The meta is the server's latest packet, and the client has not opened it. */
  ghost predicate MetaWaits(w: World, s: System)
    requires w.Valid()
  {
    && Waiting(w, s) && s.server.phase == Ready
    && Sealed(s.server.sealed, MetaPacket(w.Prepared().value)) in s.toClient
    && s.client.seen.highest < s.server.sealed
  }

  /** How many requests the first window takes. */
  function FirstWindow(w: World): nat
    requires w.Valid() && w.Prepared().Some?
  {
    R.Min(w.Prepared().value.chunks, R.TRANSFER_WINDOW)
  }

  /** The client has taken the meta and asked for its first window, under consecutive fresh
      sequences; it is receiving, or done when there is nothing to receive. */
  ghost predicate Opened(w: World, s: System, t: System)
    requires w.Valid() && w.Prepared().Some?
  {
    && t.server == s.server
    && t.client.stage == (if w.Prepared().value.chunks > 0 then Receiving else Finishing)
    && MissingChunks(t.client.view) == w.Prepared().value.chunks
    && t.client.view.nextRequest == FirstWindow(w) && t.client.sealed == s.client.sealed + FirstWindow(w)
    && t.client.view.nextRequest <= t.client.view.meta.chunks
    && Armed(t.client.view, t.toServer, s.server.seen.highest, Named(s.client.sealed, R.Range(0, FirstWindow(w))))
  }

  lemma MetaIsTaken(w: World, s: System) returns (take: Action)
    requires w.Valid() && MetaWaits(w, s) && s.client.sealed + FirstWindow(w) <= MAX_UINT32
    ensures take.ClientReceives? && Enabled(w, s, take)
    ensures Inv(w, Step(w, s, take)) && Opened(w, s, Step(w, s, take))
  {
    var m, room := w.Prepared().value, MAX_UINT32 - s.client.sealed;
    take := ClientReceives(Sealed(s.server.sealed, MetaPacket(m)), room);
    StepKeepsInv(w, s, take);
    C.PreparedMetaIsAccepted(|w.archive|, w.sum(w.archive));
    TakesMeta(w, ClientOpens(s, s.server.sealed), m, room);
    FirstWindowOpens(w, s, Step(w, s, take));
  }

  lemma FirstWindowOpens(w: World, s: System, t: System)
    requires w.Valid() && w.Prepared().Some? && s.server.seen.highest <= s.client.sealed && t.server == s.server
    requires t.client.stage == (if w.Prepared().value.chunks > 0 then Receiving else Finishing)
    requires t.client.view == R.Start(w.Prepared().value).(nextRequest := FirstWindow(w))
    requires t.client.sealed == s.client.sealed + FirstWindow(w)
    requires t.toServer == s.toServer + Gets(s.client.sealed, R.Range(0, FirstWindow(w)))
    ensures Opened(w, s, t)
  {
    FirstWindowArmed(w.Prepared().value, FirstWindow(w), s.toServer, s.client.sealed, s.server.seen.highest);
  }

  lemma TakesMeta(w: World, s: System, m: Meta, room: nat)
    requires w.Valid() && s.client.stage.AwaitingMeta? && w.Prepared() == Some(m)
    requires NetworkInv(w, s) && ServerInv(w, s) && s.client.view == R.Start(NO_META)
    requires MetaAccepted(m) && m.size <= w.maxArchive
    requires FirstWindow(w) <= room <= MAX_UINT32 - s.client.sealed
    ensures var t := ClientHandles(w, s, MetaPacket(m), room);
            && t.server == s.server
            && t.client.stage == (if m.chunks > 0 then Receiving else Finishing)
            && t.client.view == R.Start(m).(nextRequest := FirstWindow(w))
            && t.client.sealed == s.client.sealed + FirstWindow(w)
            && t.toServer == s.toServer + Gets(s.client.sealed, R.Range(0, FirstWindow(w)))
  {
    var e := R.Fill(R.Start(m), room);
    R.StartIsSound(m, room);
    R.FillKeeps(R.Start(m), room);
    TakeEffectKeeps(w, s.(client := s.client.(stage := Receiving)), e, SendFailed);
  }

  lemma FirstWindowArmed(m: Meta, n: U32, packets: set<Sealed>, sealed: nat, highest: nat)
    requires highest <= sealed && n <= m.chunks
    ensures var v := R.Start(m).(nextRequest := n);
            Armed(v, packets + Gets(sealed, R.Range(0, n)), highest, Named(sealed, R.Range(0, n)))
  {
    var v := R.Start(m).(nextRequest := n);
    forall i: nat | IsMissing(v, i) ensures i in R.Range(0, n) {
      assert R.Range(0, n)[i] == i;
    }
    NamedWait(v, packets, sealed, highest, R.Range(0, n));
    NamedInOrder(v, sealed, R.Range(0, n));
  }

  /** From the meta on: its first window of requests is answered, and so on to the end. */
  lemma MetaCompletes(w: World, s: System) returns (actions: seq<Action>)
    requires w.Valid() && MetaWaits(w, s) && HasRoom(w, s, 0, 0)
    ensures Runs(w, s, actions) && AllSmooth(actions)
    ensures Run(w, s, actions).client.stage.Finishing? && Run(w, s, actions).client.view.written == w.archive
  {
    var take := MetaIsTaken(w, s);
    var t := Step(w, s, take);
    Single(w, s, take);
    actions := [take];
    if t.client.stage.Receiving? {
      var rest := Rounds(w, t, Named(s.client.sealed, R.Range(0, FirstWindow(w))));
      Concat(w, s, actions, rest);
      actions := actions + rest;
    }
    RunKeepsInv(w, s, actions);
    FinishedIsWhole(w, Run(w, s, actions));
  }

  /** With the archive ready: request, meta, and then the chunks. */
  lemma ReadyCompletes(w: World, s: System) returns (actions: seq<Action>)
    requires w.Valid() && Waiting(w, s) && HasRoom(w, s, 1, 1) && s.server.phase == Ready
    ensures Runs(w, s, actions) && AllSmooth(actions)
    ensures Run(w, s, actions).client.stage.Finishing? && Run(w, s, actions).client.view.written == w.archive
  {
    RequestReaches(w, s);
    var taken := MetaCompletes(w, Run(w, s, RequestActions(w, s)));
    Concat(w, s, RequestActions(w, s), taken);
    actions := RequestActions(w, s) + taken;
  }

  /** The preparation ends and announces its meta. */
  lemma Announces(w: World, s: System) returns (actions: seq<Action>)
    requires w.Valid() && Waiting(w, s) && s.server.phase == Preparing && s.server.sealed < MAX_UINT32
    ensures Runs(w, s, actions) && AllSmooth(actions)
    ensures var t := Run(w, s, actions);
            && MetaWaits(w, t) && t.client == s.client && t.toServer == s.toServer
            && t.server.sealed == s.server.sealed + 1 && t.server.seen == s.server.seen && t.server.sent == s.server.sent
  {
    var ends, announces := PrepareEnds(true), PrepareAnnounces(true);
    StepKeepsInv(w, s, ends);
    var s1 := Step(w, s, ends);
    StepKeepsInv(w, s1, announces);
    Prepend(w, s1, announces, []);
    Prepend(w, s, ends, [announces]);
    actions := [ends, announces];
  }

  /** While it is still being prepared: let that end first. */
  lemma PreparingCompletes(w: World, s: System) returns (actions: seq<Action>)
    requires w.Valid() && Waiting(w, s) && HasRoom(w, s, 0, 1) && s.server.phase == Preparing
    ensures Runs(w, s, actions) && AllSmooth(actions)
    ensures Run(w, s, actions).client.stage.Finishing? && Run(w, s, actions).client.view.written == w.archive
  {
    var announced := Announces(w, s);
    var rest := MetaCompletes(w, Run(w, s, announced));
    Concat(w, s, announced, rest);
    actions := announced + rest;
  }

  /** Before the first request has arrived: make another. */
  lemma ConnectedCompletes(w: World, s: System) returns (actions: seq<Action>)
    requires w.Valid() && Waiting(w, s) && HasRoom(w, s, 1, 1) && s.server.phase == Connected
    ensures Runs(w, s, actions) && AllSmooth(actions)
    ensures Run(w, s, actions).client.stage.Finishing? && Run(w, s, actions).client.view.written == w.archive
  {
    RequestReaches(w, s);
    var rest := PreparingCompletes(w, Run(w, s, RequestActions(w, s)));
    Concat(w, s, RequestActions(w, s), rest);
    actions := RequestActions(w, s) + rest;
  }

  /** The requests a client needs before it has its meta. */
  function RequestsDue(phase: Phase): nat {
    if phase == Preparing then 0 else 1
  }

  lemma SettledAwaitingCompletes(w: World, s: System) returns (actions: seq<Action>)
    requires w.Valid() && Waiting(w, s) && HasRoom(w, s, RequestsDue(s.server.phase), 1) && s.server.phase != Gone
    ensures Runs(w, s, actions) && AllSmooth(actions)
    ensures Run(w, s, actions).client.stage.Finishing? && Run(w, s, actions).client.view.written == w.archive
  {
    match s.server.phase
    case Connected => actions := ConnectedCompletes(w, s);
    case Preparing => actions := PreparingCompletes(w, s);
    case Ready => actions := ReadyCompletes(w, s);
  }

  /** The same, whatever chunk has yet to be recorded. */
  lemma AwaitingCompletes(w: World, s: System) returns (actions: seq<Action>)
    requires w.Valid() && Inv(w, s) && s.client.stage.AwaitingMeta? && s.server.phase != Gone
    requires w.Prepared().Some? && |w.archive| <= w.maxArchive && HasRoom(w, s, RequestsDue(s.server.phase), 1)
    ensures Runs(w, s, actions) && AllSmooth(actions)
    ensures Run(w, s, actions).client.stage.Finishing? && Run(w, s, actions).client.view.written == w.archive
  {
    if s.server.pending.None? {
      actions := SettledAwaitingCompletes(w, s);
    } else {
      StepKeepsInv(w, s, ServerRecords);
      Single(w, s, ServerRecords);
      var rest := SettledAwaitingCompletes(w, Step(w, s, ServerRecords));
      Concat(w, s, [ServerRecords], rest);
      actions := [ServerRecords] + rest;
    }
  }

  /** However a run from the start has gone, while the client still waits for its meta, the
      session is not gone, the archive is one the client accepts, and room is left to seal a
      request and a packet per chunk: the run can be continued, without a fault, to a finished
      download of the whole archive. */
  lemma AwaitingRunCanComplete(w: World, before: seq<Action>) returns (actions: seq<Action>)
    requires w.Valid() && Runs(w, INITIAL, before)
    requires w.Prepared().Some? && |w.archive| <= w.maxArchive
    requires var s := Run(w, INITIAL, before);
             s.client.stage.AwaitingMeta? && s.server.phase != Gone && HasRoom(w, s, RequestsDue(s.server.phase), 1)
    ensures Runs(w, INITIAL, before + actions) && AllSmooth(actions)
    ensures Run(w, INITIAL, before + actions).client.stage.Finishing?
    ensures Run(w, INITIAL, before + actions).client.view.written == w.archive
  {
    RunKeepsInv(w, INITIAL, before);
    actions := AwaitingCompletes(w, Run(w, INITIAL, before));
    Concat(w, INITIAL, before, actions);
  }

  // ----- the server's recorded window can be behind the client -----

  /** The server sends chunk 0, and has yet to record it. */
  lemma ServesFirst(w: World, s: System, q: nat) returns (t: System)
    requires w.Valid() && Inv(w, s) && s.client.stage.Receiving? && s.client.view.meta.chunks > 0
    requires s.server.phase == Ready && s.server.pending.None? && s.server.sealed < MAX_UINT32
    requires Waits(s.toServer, s.server.seen.highest, q, 0)
    ensures Enabled(w, s, Serve(q, 0)) && t == Step(w, s, Serve(q, 0)) && Inv(w, t)
    ensures t.client == s.client && t.server.pending == Some(0) && t.server.sent == s.server.sent
    ensures Sealed(t.server.sealed, Data(0, C.ChunkOf(w.archive, s.client.view.meta, 0))) in t.toClient
    ensures t.client.seen.highest < t.server.sealed
  {
    RequestIsAnswered(w, s, q, 0);
    StepKeepsInv(w, s, Serve(q, 0));
    t := Step(w, s, Serve(q, 0));
  }

  lemma FirstIsWritten(w: World, s: System, t: System)
    requires w.Valid() && Inv(w, t) && IsMissing(s.client.view, 0) && Replied(s, t, 0)
    ensures t.client.view.nextWrite > 0
  {
    assert !IsMissing(t.client.view, 0);
  }

  /** The client takes a chunk that the server has sent and not recorded yet. */
  lemma TakesUnrecorded(w: World, s: System, at: map<nat, nat>) returns (actions: seq<Action>)
    requires w.Valid() && Inv(w, s) && s.client.stage.Receiving? && s.client.view.nextWrite == 0
    requires s.server.phase == Ready && s.server.pending.None? && s.server.sealed < MAX_UINT32 && CanAsk(s)
    requires Armed(s.client.view, s.toServer, s.server.seen.highest, at)
    ensures Runs(w, s, actions)
    ensures var t := Run(w, s, actions);
            t.server.pending == Some(0) && t.server.sent == s.server.sent && t.client.view.nextWrite > 0
  {
    assert IsMissing(s.client.view, 0);
    var serve := Serve(at[0], 0);
    var s1 := ServesFirst(w, s, at[0]);
    var reply := ReplyHalf(w, s1, 0, C.ChunkOf(w.archive, s.client.view.meta, 0));
    FirstIsWritten(w, s1, Step(w, s1, reply));
    Prepend(w, s1, reply, []);
    Prepend(w, s, serve, [reply]);
    actions := [serve, reply];
  }

  /** The first packets of every download that goes well. */
  lemma MetaReachesClient(w: World) returns (actions: seq<Action>)
    requires w.Valid() && w.Prepared().Some? && |w.archive| <= w.maxArchive
    ensures Runs(w, INITIAL, actions)
    ensures var t := Run(w, INITIAL, actions);
            MetaWaits(w, t) && t.client.sealed == 1 && t.server.sealed == 1 && t.server.sent == {}
  {
    RunKeepsInv(w, INITIAL, []);
    RequestReaches(w, INITIAL);
    var asked := RequestActions(w, INITIAL);
    var announced := Announces(w, Run(w, INITIAL, asked));
    Concat(w, INITIAL, asked, announced);
    actions := asked + announced;
  }

  lemma LagsOnceTaken(w: World, s: System) returns (actions: seq<Action>)
    requires w.Valid() && MetaWaits(w, s) && w.Prepared().value.chunks > 0
    requires HasRoom(w, s, 0, 0) && s.server.sent == {}
    ensures Runs(w, s, actions)
    ensures var t := Run(w, s, actions);
            t.server.pending == Some(0) && t.server.sent == {} && t.client.view.nextWrite > 0
  {
    var take := MetaIsTaken(w, s);
    var t := Step(w, s, take);
    Single(w, s, take);
    var taken := TakesUnrecorded(w, t, Named(s.client.sealed, R.Range(0, FirstWindow(w))));
    Concat(w, s, [take], taken);
    actions := [take] + taken;
  }

  /** And it does happen, for every non-empty archive the client accepts whose chunks the packet
      limit allows: a run after which the client has written a chunk that the server's window
      does not count as sent. */
  lemma RecordingLags(w: World) returns (actions: seq<Action>)
    requires w.Valid() && w.Prepared().Some? && 0 < |w.archive| <= w.maxArchive
    requires w.Prepared().value.chunks < MAX_UINT32
    ensures Runs(w, INITIAL, actions)
    ensures var t := Run(w, INITIAL, actions);
            var base := W.Base(t.server.sent, w.Prepared().value.chunks);
            t.server.pending == Some(base) && base < t.client.view.nextWrite
  {
    C.PreparedMetaIsAccepted(|w.archive|, w.sum(w.archive));
    var before := MetaReachesClient(w);
    var taken := LagsOnceTaken(w, Run(w, INITIAL, before));
    Concat(w, INITIAL, before, taken);
    actions := before + taken;
  }
}
