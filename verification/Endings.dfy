/** How a download and its session end: the sign-off after the last chunk, a preparation that
    fails, and a chunk that cannot be read. */
module Endings {
  import opened Bytes
  import opened Codec
  import opened Transfer
  import opened Progress
  import W = SendWindow

  lemma TwoSteps(w: World, s: System, a: Action, b: Action)
    requires w.Valid() && Enabled(w, s, a) && Enabled(w, Step(w, s, a), b)
    ensures Runs(w, s, [a, b]) && Run(w, s, [a, b]) == Step(w, Step(w, s, a), b)
  {
    Single(w, Step(w, s, a), b);
    Prepend(w, s, a, [b]);
    assert [a] + [b] == [a, b];
  }

  lemma ThreeSteps(w: World, s: System, a: Action, b: Action, c: Action)
    requires w.Valid() && Enabled(w, s, a) && Enabled(w, Step(w, s, a), b) && Enabled(w, Step(w, Step(w, s, a), b), c)
    ensures Runs(w, s, [a, b, c]) && Run(w, s, [a, b, c]) == Step(w, Step(w, Step(w, s, a), b), c)
  {
    TwoSteps(w, Step(w, s, a), b, c);
    Prepend(w, s, a, [b, c]);
    assert [a] + [b, c] == [a, b, c];
  }

  lemma SealedIsUnopened(w: World, s: System)
    requires w.Valid() && Inv(w, s)
    ensures s.server.seen.highest <= s.client.sealed <= MAX_UINT32 && s.client.seen.highest <= s.server.sealed
  {}

  /** The client's sign-off, its delivery, and the delivery of the answer. */
  function SignOff(s: System): seq<Action> {
    [ClientSignsOff(true),
     ServerReceives(Sealed(s.client.sealed + 1, Done), true, true),
     ClientReceives(Sealed(s.server.sealed + 1, Done), 0)]
  }

  lemma SaysDone(w: World, s: System)
    requires w.Valid() && s.client.stage.Finishing? && s.client.sealed < MAX_UINT32
    ensures Enabled(w, s, ClientSignsOff(true))
    ensures Step(w, s, ClientSignsOff(true))
         == s.(client := s.client.(sealed := s.client.sealed + 1),
               toServer := s.toServer + {Sealed(s.client.sealed + 1, Done)})
  {}

  lemma HearsDone(w: World, s: System, q: nat)
    requires w.Valid() && s.server.phase != Gone && s.server.pending.None? && s.server.sealed < MAX_UINT32
    requires Sealed(q, Done) in s.toServer && s.server.seen.highest < q
    ensures Enabled(w, s, ServerReceives(Sealed(q, Done), true, true))
    ensures var t := Step(w, s, ServerReceives(Sealed(q, Done), true, true));
            && t.client == s.client && t.server.phase == Gone
            && t.toClient == s.toClient + {Sealed(s.server.sealed + 1, Done)}
  {}

  lemma HearsBack(w: World, s: System, q: nat)
    requires w.Valid() && s.client.stage.Finishing? && s.client.sealed <= MAX_UINT32
    requires Sealed(q, Done) in s.toClient && s.client.seen.highest < q
    ensures Enabled(w, s, ClientReceives(Sealed(q, Done), 0))
    ensures var t := Step(w, s, ClientReceives(Sealed(q, Done), 0));
            t.client.stage.Finished? && t.client.view == s.client.view && t.server == s.server
  {}

  /** Once every check is passed, and while the session lives and packets can be sealed, the
      client's sign-off ends the session, and the answer ends the download. */
  lemma SignOffEnds(w: World, s: System)
    requires w.Valid() && Inv(w, s) && s.client.stage.Finishing?
    requires s.server.phase != Gone && s.server.pending.None?
    requires s.client.sealed < MAX_UINT32 && s.server.sealed < MAX_UINT32
    ensures Runs(w, s, SignOff(s))
    ensures var t := Run(w, s, SignOff(s)); t.client.stage.Finished? && t.server.phase == Gone && t.client.view == s.client.view
  {
    SealedIsUnopened(w, s);
    SignsOff(w, s);
  }

  lemma SignsOff(w: World, s: System)
    requires w.Valid() && s.client.stage.Finishing? && s.server.phase != Gone && s.server.pending.None?
    requires s.client.sealed < MAX_UINT32 && s.server.sealed < MAX_UINT32
    requires s.server.seen.highest <= s.client.sealed && s.client.seen.highest <= s.server.sealed
    ensures Runs(w, s, SignOff(s))
    ensures var t := Run(w, s, SignOff(s)); t.client.stage.Finished? && t.server.phase == Gone && t.client.view == s.client.view
  {
    var asked, answer := Sealed(s.client.sealed + 1, Done), Sealed(s.server.sealed + 1, Done);
    SaysDone(w, s);
    var s1 := Step(w, s, ClientSignsOff(true));
    HearsDone(w, s1, asked.sequence);
    var s2 := Step(w, s1, ServerReceives(asked, true, true));
    HearsBack(w, s2, answer.sequence);
    ThreeSteps(w, s, ClientSignsOff(true), ServerReceives(asked, true, true), ClientReceives(answer, 0));
  }

  /** A sign-off nobody answers ends the download too, with what was written. */
  lemma UnansweredSignOffEnds(w: World, s: System)
    requires w.Valid() && s.client.stage.Finishing?
    ensures Enabled(w, s, ClientGivesUp)
    ensures Step(w, s, ClientGivesUp).client == s.client.(stage := Finished)
  {}

  /** A preparation that fails, its report, and the delivery of that. */
  function FailedPreparation(s: System): seq<Action> {
    [PrepareEnds(false), PrepareAnnounces(true), ClientReceives(Sealed(s.server.sealed + 1, Error(READ_ERROR)), 0)]
  }

  lemma Fails(w: World, s: System)
    requires w.Valid() && s.server.phase == Preparing && s.server.running
    ensures Enabled(w, s, PrepareEnds(false))
    ensures Step(w, s, PrepareEnds(false))
         == s.(server := s.server.(running := false, phase := Gone, announcement := Some(Error(READ_ERROR))))
  {}

  lemma Announces(w: World, s: System)
    requires w.Valid() && s.server.announcement == Some(Error(READ_ERROR)) && s.server.sealed < MAX_UINT32
    ensures Enabled(w, s, PrepareAnnounces(true))
    ensures var t := Step(w, s, PrepareAnnounces(true));
            && t.client == s.client && t.server.phase == s.server.phase
            && t.toClient == s.toClient + {Sealed(s.server.sealed + 1, Error(READ_ERROR))}
  {}

  lemma HearsError(w: World, s: System, q: nat)
    requires w.Valid() && (s.client.stage.AwaitingMeta? || s.client.stage.Receiving?) && s.client.sealed <= MAX_UINT32
    requires Sealed(q, Error(READ_ERROR)) in s.toClient && s.client.seen.highest < q
    ensures Enabled(w, s, ClientReceives(Sealed(q, Error(READ_ERROR)), 0))
    ensures var t := Step(w, s, ClientReceives(Sealed(q, Error(READ_ERROR)), 0));
            t.client.stage == Aborted(ServerReported) && t.client.view == s.client.view && t.server == s.server
  {}

  /** A client that waits for its meta is told that the preparation failed, and its session ends. */
  lemma FailureIsReported(w: World, s: System)
    requires w.Valid() && Inv(w, s) && s.client.stage.AwaitingMeta? && s.server.phase == Preparing
    requires s.server.sealed < MAX_UINT32
    ensures Runs(w, s, FailedPreparation(s))
    ensures var t := Run(w, s, FailedPreparation(s)); t.client.stage == Aborted(ServerReported) && t.server.phase == Gone
  {
    SealedIsUnopened(w, s);
    Reports(w, s);
  }

  lemma Reports(w: World, s: System)
    requires w.Valid() && s.client.stage.AwaitingMeta? && s.server.phase == Preparing && s.server.running
    requires s.client.sealed <= MAX_UINT32 && s.server.sealed < MAX_UINT32 && s.client.seen.highest <= s.server.sealed
    ensures Runs(w, s, FailedPreparation(s))
    ensures var t := Run(w, s, FailedPreparation(s)); t.client.stage == Aborted(ServerReported) && t.server.phase == Gone
  {
    var report := Sealed(s.server.sealed + 1, Error(READ_ERROR));
    Fails(w, s);
    var s1 := Step(w, s, PrepareEnds(false));
    Announces(w, s1);
    var s2 := Step(w, s1, PrepareAnnounces(true));
    HearsError(w, s2, report.sequence);
    ThreeSteps(w, s, PrepareEnds(false), PrepareAnnounces(true), ClientReceives(report, 0));
  }

  /** A request whose chunk cannot be read, and the delivery of the report. */
  function UnreadableChunk(s: System, q: nat, index: U32): seq<Action> {
    [ServerReceives(Sealed(q, Get(index)), false, true), ClientReceives(Sealed(s.server.sealed + 1, Error(READ_ERROR)), 0)]
  }

  lemma CannotRead(w: World, s: System, q: nat, index: U32)
    requires w.Valid() && s.server.phase == Ready && s.server.pending.None? && s.server.sealed < MAX_UINT32
    requires Sealed(q, Get(index)) in s.toServer && s.server.seen.Fresh(q)
    requires w.Prepared().Some? && index < w.Prepared().value.chunks
    requires W.WithinWindow(W.Base(s.server.sent, w.Prepared().value.chunks), index)
    ensures Enabled(w, s, ServerReceives(Sealed(q, Get(index)), false, true))
    ensures var t := Step(w, s, ServerReceives(Sealed(q, Get(index)), false, true));
            && t.client == s.client && t.server.sent == s.server.sent && t.server.pending.None?
            && t.toClient == s.toClient + {Sealed(s.server.sealed + 1, Error(READ_ERROR))}
  {}

  /** A client that asks for a chunk the server cannot read is told so, and gives up; nothing is
      recorded as sent. */
  lemma ReadErrorIsReported(w: World, s: System, q: nat, index: U32)
    requires w.Valid() && Inv(w, s) && s.client.stage.Receiving? && s.server.phase == Ready && s.server.pending.None?
    requires Sealed(q, Get(index)) in s.toServer && s.server.seen.Fresh(q)
    requires s.server.sealed < MAX_UINT32
    ensures Runs(w, s, UnreadableChunk(s, q, index))
    ensures var t := Run(w, s, UnreadableChunk(s, q, index));
            && t.client.stage == Aborted(ServerReported) && t.client.view == s.client.view
            && t.server.sent == s.server.sent && t.server.pending.None?
  {
    SealedIsUnopened(w, s);
    RequestIsWithin(w, s, q, index);
    ReportsUnread(w, s, q, index);
  }

  lemma ReportsUnread(w: World, s: System, q: nat, index: U32)
    requires w.Valid() && s.client.stage.Receiving? && s.server.phase == Ready && s.server.pending.None?
    requires s.client.sealed <= MAX_UINT32 && s.server.sealed < MAX_UINT32 && s.client.seen.highest <= s.server.sealed
    requires Sealed(q, Get(index)) in s.toServer && s.server.seen.Fresh(q)
    requires w.Prepared().Some? && index < w.Prepared().value.chunks
    requires W.WithinWindow(W.Base(s.server.sent, w.Prepared().value.chunks), index)
    ensures Runs(w, s, UnreadableChunk(s, q, index))
    ensures var t := Run(w, s, UnreadableChunk(s, q, index));
            && t.client.stage == Aborted(ServerReported) && t.client.view == s.client.view
            && t.server.sent == s.server.sent && t.server.pending.None?
  {
    var asked, report := Sealed(q, Get(index)), Sealed(s.server.sealed + 1, Error(READ_ERROR));
    CannotRead(w, s, q, index);
    HearsError(w, Step(w, s, ServerReceives(asked, false, true)), report.sequence);
    TwoSteps(w, s, ServerReceives(asked, false, true), ClientReceives(report, 0));
  }
}
