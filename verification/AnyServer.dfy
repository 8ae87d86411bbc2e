/** What the client checks, whatever the other end of its session says: the system of the
    transfer in which, besides, any packet at all may be there for the client to open. */
module AnyServer {
  import opened Bytes
  import opened Codec
  import opened Transfer
  import C = Chunks
  import R = Receiver

  /** A step of the system, or a packet that appears on its way to the client. */
  datatype Event = Does(action: Action) | Says(packet: Sealed)

  /** A step that is not possible where it stands is skipped. */
  function Next(w: World, s: System, e: Event): System
    requires w.Valid()
  {
    match e
    case Says(p) => s.(toClient := s.toClient + {p})
    case Does(a) => if Enabled(w, s, a) then Step(w, s, a) else s
  }

  ghost function After(w: World, events: seq<Event>): System
    requires w.Valid()
  {
    if events == [] then INITIAL else Next(w, After(w, events[..|events| - 1]), events[|events| - 1])
  }

  /** A meta the client goes on with. */
  ghost predicate Taken(w: World, m: Meta) {
    && 1 <= m.chunkSize <= 1120 && m.chunks == WrappedChunks(m.size, m.chunkSize) && m.size <= w.maxArchive
  }

  /** Everything was written that the meta announced, and it has the meta's checksum. */
  ghost predicate Verified(w: World, v: R.View) {
    Taken(w, v.meta) && |v.written| == v.meta.size && w.sum(v.written) == v.meta.sha256
  }

  ghost predicate Checked(w: World, c: Client) {
    match c.stage
    case AwaitingMeta => true
    case Receiving => Taken(w, c.view.meta) && R.AtLoopHead(c.view) && c.view.nextWrite < c.view.meta.chunks
    case Finishing => Verified(w, c.view)
    case Finished => Verified(w, c.view)
    case Aborted(reason) => reason == WrongLength ==> c.view.meta.size + c.view.meta.chunkSize > 0x1_0000_0000_0000_0000
  }

  lemma WrapsOrFits(m: Meta)
    requires MetaAccepted(m)
    ensures C.Consistent(m) <==> m.size + m.chunkSize <= 0x1_0000_0000_0000_0000
  {
    AcceptedMetaIsConsistent(m);
  }

  /** The two checks after the loop. */
  lemma ConcludedIsChecked(w: World, c: Client)
    requires c.stage.Receiving? && Taken(w, c.view.meta) && R.AtLoopHead(c.view)
    ensures Checked(w, c.(stage := Concluded(w, c.view, c.stage)))
  {
    var v := c.view;
    if v.nextWrite >= v.meta.chunks {
      R.LoopEnds(v);
      WrapsOrFits(v.meta);
    }
  }

  lemma EffectIsChecked(w: World, s: System, e: R.Effect, reason: Reason)
    requires s.client.stage.Receiving? && Taken(w, e.view.meta) && reason != WrongLength
    requires e.outcome.Waiting? ==> R.AtLoopHead(e.view)
    ensures Checked(w, TakeEffect(w, s, e, reason).client)
  {
    if e.outcome.Waiting? {
      var c := s.client.(view := e.view, sealed := s.client.sealed + |e.requests|);
      ConcludedIsChecked(w, c);
    }
  }

  lemma HandlingIsChecked(w: World, s: System, p: Packet, room: nat)
    requires Checked(w, s.client)
    ensures Checked(w, ClientHandles(w, s, p, room).client)
  {
    match s.client.stage
    case AwaitingMeta =>
      if p.MetaPacket? && MetaAccepted(p.meta) && p.meta.size <= w.maxArchive {
        var e := R.Fill(R.Start(p.meta), room);
        R.StartIsSound(p.meta, room);
        EffectIsChecked(w, s.(client := s.client.(stage := Receiving)), e, SendFailed);
      }
    case Receiving =>
      var e := R.Handle(s.client.view, p, room);
      R.HandleKeeps(s.client.view, p, room);
      EffectIsChecked(w, s, e, HandleReason(e));
    case _ =>
  }

  lemma ServerLeavesClient(w: World, s: System, a: Action)
    requires w.Valid() && Enabled(w, s, a)
    requires a.ServerReceives? || a.ServerRecords? || a.PrepareEnds? || a.PrepareAnnounces? || a.ServerExpires?
    ensures Step(w, s, a).client == s.client
  {}

  lemma StepIsChecked(w: World, s: System, a: Action)
    requires w.Valid() && Enabled(w, s, a) && Checked(w, s.client)
    ensures Checked(w, Step(w, s, a).client)
  {
    match a
    case ClientTimesOut(room) => EffectIsChecked(w, s, R.Retransmit(s.client.view, room), SendFailed);
    case ClientReceives(p, room) => HandlingIsChecked(w, ClientOpens(s, p.sequence), p.packet, room);
    case ClientRequests(_) =>
    case ClientSignsOff(_) =>
    case ClientGivesUp =>
    case _ => ServerLeavesClient(w, s, a);
  }

  lemma {:induction false} AlwaysChecked(w: World, events: seq<Event>)
    requires w.Valid()
    ensures Checked(w, After(w, events).client)
  {
    if events != [] {
      var before, e := events[..|events| - 1], events[|events| - 1];
      AlwaysChecked(w, before);
      if e.Does? && Enabled(w, After(w, before), e.action) {
        StepIsChecked(w, After(w, before), e.action);
      }
    }
  }

  /** Whatever the other end says, a download that passed the loop has written exactly as many
      bytes as an acceptable meta announced, within the client's limit, with that meta's
      checksum; and the length check fails for no meta but one whose sum wraps. */
  lemma FinishedIsVerified(w: World, events: seq<Event>)
    requires w.Valid()
    ensures var c := After(w, events).client;
            && (c.stage.Finishing? || c.stage.Finished? ==>
                  && 1 <= c.view.meta.chunkSize <= 1120 && c.view.meta.size <= w.maxArchive
                  && |c.view.written| == c.view.meta.size && w.sum(c.view.written) == c.view.meta.sha256)
            && (c.stage == Aborted(WrongLength) ==>
                  c.view.meta.size + c.view.meta.chunkSize > 0x1_0000_0000_0000_0000)
  {
    AlwaysChecked(w, events);
  }

  // ----- which check ends a download -----

  /** What the loop's end makes of the client, check by check. */
  ghost predicate EndsAs(w: World, v: R.View, stage: Stage) {
    && (v.nextWrite < v.meta.chunks ==>
          stage.Receiving? || (stage.Aborted? && Excusable(stage.reason)) || stage == Aborted(BadChunk))
    && (v.nextWrite >= v.meta.chunks ==>
          && (stage == Aborted(WrongLength) <==> |v.written| != v.meta.size)
          && (stage == Aborted(WrongChecksum) <==> |v.written| == v.meta.size && w.sum(v.written) != v.meta.sha256)
          && (stage == Finishing <==> |v.written| == v.meta.size && w.sum(v.written) == v.meta.sha256))
  }

  /** A packet opened while chunks are missing: the download goes on while some still are, and
      otherwise its length and checksum alone decide. */
  lemma ReceivingEnds(w: World, s: System, p: Sealed, room: nat)
    requires w.Valid() && s.client.stage.Receiving? && R.AtLoopHead(s.client.view)
    requires s.client.view.nextWrite < s.client.view.meta.chunks
    requires Enabled(w, s, ClientReceives(p, room)) && s.client.seen.Fresh(p.sequence)
    ensures var c := Step(w, s, ClientReceives(p, room)).client; EndsAs(w, c.view, c.stage)
    ensures p.packet.Error? ==> Step(w, s, ClientReceives(p, room)).client.stage == Aborted(ServerReported)
  {
    var v := s.client.view;
    var e := R.Handle(v, p.packet, room);
    R.HandleKeeps(v, p.packet, room);
    if e.outcome.Failed? {
      FailsBeforeEnd(v, p.packet, room);
    }
  }

  /** A step that fails has chunks left to write. */
  lemma FailsBeforeEnd(v: R.View, p: Packet, room: nat)
    requires R.AtLoopHead(v) && v.nextWrite < v.meta.chunks && R.Handle(v, p, room).outcome.Failed?
    ensures R.Handle(v, p, room).view.nextWrite < v.meta.chunks
  {
    R.HandleKeeps(v, p, room);
  }

  /** The first meta opened: refused if its chunk size or count is off, or if it is larger than
      the client's limit; otherwise its first window is requested and the loop begins. */
  lemma MetaDecides(w: World, s: System, m: Meta, q: nat, room: nat)
    requires w.Valid() && s.client.stage.AwaitingMeta?
    requires Enabled(w, s, ClientReceives(Sealed(q, MetaPacket(m)), room)) && s.client.seen.Fresh(q)
    ensures var c := Step(w, s, ClientReceives(Sealed(q, MetaPacket(m)), room)).client;
            var good := 1 <= m.chunkSize <= 1120 && m.chunks == WrappedChunks(m.size, m.chunkSize);
            && (c.stage == Aborted(BadMeta) <==> !good)
            && (c.stage == Aborted(TooLarge) <==> good && m.size > w.maxArchive)
            && (good && m.size <= w.maxArchive ==> c.view.meta == m && c.view.written == [] && EndsAs(w, c.view, c.stage))
  {
    R.StartIsSound(m, room);
  }

  /** After the last check the answer to the sign-off ends the download, and so does an error;
      nothing else that is opened does, and what was written stays. */
  lemma FinishingEnds(w: World, s: System, p: Sealed, room: nat)
    requires w.Valid() && s.client.stage.Finishing?
    requires Enabled(w, s, ClientReceives(p, room)) && s.client.seen.Fresh(p.sequence)
    ensures var c := Step(w, s, ClientReceives(p, room)).client;
            && (c.stage.Finished? <==> p.packet.Done? || p.packet.Error?)
            && (c.stage.Finished? || c.stage.Finishing?) && c.view == s.client.view && c.sealed == s.client.sealed
  {}

  /** A request that cannot be sealed or sent ends a download that has no meta yet, and a sign-off
      that cannot ends one that has passed every check; each that can spends one sequence. */
  lemma UnsentEnds(w: World, s: System, sendable: bool)
    requires w.Valid()
    ensures s.client.stage.AwaitingMeta? ==>
              var t := Step(w, s, ClientRequests(sendable));
              if sendable && s.client.sealed < MAX_UINT32
              then t.client == s.client.(sealed := s.client.sealed + 1)
                   && t.toServer == s.toServer + {Sealed(s.client.sealed + 1, Request(w.path))}
              else t.client.stage == Aborted(SendFailed) && t.toServer == s.toServer
    ensures s.client.stage.Finishing? ==>
              var t := Step(w, s, ClientSignsOff(sendable));
              if sendable && s.client.sealed < MAX_UINT32
              then t.client == s.client.(sealed := s.client.sealed + 1)
                   && t.toServer == s.toServer + {Sealed(s.client.sealed + 1, Done)}
              else t.client.stage.Finished? && t.client.view == s.client.view && t.toServer == s.toServer
  {}
}
