/** internal/server/server.go: the handlers as methods that update the session map in place,
    each proved against its step of the session table. */
module ServerHandlers {
  import opened Bytes
  import opened SessionTable

  /** Every reference in the table refers to something. */
  ghost predicate Linked(s: State) {
    forall id <- s.table :: s.table[id] in s.objects
  }

  /** The table after some sessions were closed one after the other. */
  ghost function CloseEach(s: State, ids: seq<nat>): (t: State)
    requires Linked(s)
    ensures Linked(t)
  {
    if ids == [] then s
    else
      var before := CloseEach(s, ids[..|ids| - 1]);
      var id := ids[|ids| - 1];
      if id in before.table then Close(before, id) else before
  }

  lemma {:induction false} CloseEachKeeps(s: State, max: nat, ids: seq<nat>)
    requires Inv(s, max)
    ensures Inv(CloseEach(s, ids), max)
  {
    if ids != [] {
      CloseEachKeeps(s, max, ids[..|ids| - 1]);
      var before := CloseEach(s, ids[..|ids| - 1]);
      if ids[|ids| - 1] in before.table {
        CloseKeeps(before, max, ids[|ids| - 1]);
      }
    }
  }

  /** The files of live sessions that are no longer pending. */
  ghost function OpenFiles(s: State, pending: set<nat>): set<nat> {
    set ref | ref in s.objects && IsLive(s.table, s.objects, ref) && s.objects[ref].file.Some? && s.objects[ref].id !in pending
      :: s.objects[ref].file.value
  }

  function Without(files: Files, closed: set<nat>): Files {
    files.(handles := files.handles - closed, disk := files.disk - closed)
  }

  lemma ClosesOne(s: State, pending: set<nat>, id: nat)
    requires Linked(s) && id in pending && id in s.table && s.objects[s.table[id]].id == id
    ensures var file := s.objects[s.table[id]].file;
            Without(s.files, OpenFiles(s, pending - {id}))
            == if file.Some? then Without(s.files, OpenFiles(s, pending)).Drop(file.value)
               else Without(s.files, OpenFiles(s, pending))
  {
    var ref := s.table[id];
    var file := s.objects[ref].file;
    var fewer, more := OpenFiles(s, pending), OpenFiles(s, pending - {id});
    forall f <- more ensures f in fewer || file == Some(f) {
      var r :| r in s.objects && IsLive(s.table, s.objects, r) && s.objects[r].file.Some? && s.objects[r].id !in pending - {id}
               && s.objects[r].file.value == f;
      assert r == ref || s.objects[r].id !in pending;
    }
    assert more == if file.Some? then fewer + {file.value} else fewer by {
      if file.Some? {
        assert IsLive(s.table, s.objects, ref);
      }
    }
  }

  lemma NoneClosed(s: State)
    ensures Without(s.files, OpenFiles(s, s.table.Keys)) == s.files
  {
    assert OpenFiles(s, s.table.Keys) == {};
  }

  lemma AllClosed(s: State)
    ensures CloseAll(s) == s.(serving := Stopped, table := map[], files := Without(s.files, OpenFiles(s, {})))
  {
    assert OpenFiles(s, {})
        == set ref | ref in s.objects && IsLive(s.table, s.objects, ref) && s.objects[ref].file.Some? :: s.objects[ref].file.value;
  }

  /** The session a request may start: it has the request's address, and no path yet. */
  predicate Unasked(table: map<nat, nat>, objects: map<nat, Session>, id: nat, address: nat) {
    && id in table && table[id] in objects
    && objects[table[id]].address == address && objects[table[id]].path.None?
  }

  /** What a request changes: the path and the preparation of an unasked session, and of no other. */
  ghost predicate Launches(s: State, t: State, id: nat, address: nat, path: bytes) {
    && t.table == s.table && t.objects.Keys == s.objects.Keys
    && t.running.Keys == s.running.Keys
         + (if path != [] && Unasked(s.table, s.objects, id, address) then {s.table[id]} else {})
    && (t.running.Keys == s.running.Keys ==> t == s)
    && (t.running.Keys != s.running.Keys ==>
          && t.objects[s.table[id]] == s.objects[s.table[id]].(path := Some(path), preparing := true)
          && t.running[s.table[id]] == Starting)
    && (forall ref <- t.objects | id !in s.table || ref != s.table[id] :: t.objects[ref] == s.objects[ref])
    && (forall ref <- s.running :: ref in t.running && t.running[ref] == s.running[ref])
  }

  lemma RequestLaunches(s: State, id: nat, address: nat, path: bytes)
    requires forall ref <- s.running :: ref in s.objects && s.objects[ref].path.Some?
    ensures Launches(s, SessionTable.HandleRequest(s, id, address, path), id, address, path)
  {}

  /** What an accepted hello changes: one session, never seen before, is added under its
      identifier, and answered; or nothing is. */
  ghost predicate Admits(s: State, t: State, max: nat, accepted: Option<bytes>)
    requires s.serving.Accepting?
  {
    && t.serving.Idle? && t.running == s.running && t.files == s.files
    && if accepted.None? || s.serving.id in s.table || |s.table| >= max
       then t.table == s.table && t.objects == s.objects && t.replies == s.replies
       else exists ref :: AddsSession(s, t, ref, accepted.value)
  }

  ghost predicate AddsSession(s: State, t: State, ref: nat, reply: bytes)
    requires s.serving.Accepting?
  {
    && ref !in s.objects && t.table == s.table[s.serving.id := ref]
    && t.objects == s.objects[ref := Session(s.serving.id, s.serving.address, s.serving.hello, reply, None, false, 0, None)]
    && t.replies == s.replies + [(ref, reply)]
  }

  lemma AcceptedAdmits(s: State, max: nat, accepted: Option<bytes>)
    requires s.serving.Accepting? && s.nextRef !in s.objects
    ensures Admits(s, HandleAccepted(s, max, accepted), max, accepted)
  {
    if accepted.Some? && s.serving.id !in s.table && |s.table| < max {
      assert AddsSession(s, HandleAccepted(s, max, accepted), s.nextRef, accepted.value);
    }
  }

  /** What the end of a preparation changes: the session it was for has the archive, if the
      table still names that very one; otherwise the archive is closed and removed. */
  ghost predicate HandsOver(s: State, t: State, ref: nat)
    requires ref in s.running && s.running[ref].Holding? && ref in s.objects
  {
    var p := s.running[ref];
    && t.table == s.table && t.running == s.running - {ref} && t.objects.Keys == s.objects.Keys
    && (forall r <- s.objects | r != ref :: t.objects[r] == s.objects[r])
    && if IsLive(s.table, s.objects, ref)
       then t.files == s.files
            && t.objects[ref] == s.objects[ref].(preparing := false, file := Some(p.file), chunks := p.chunks)
       else t.objects == s.objects && p.file !in t.files.disk && p.file !in t.files.handles
  }

  lemma CommitHandsOver(s: State, ref: nat)
    requires ref in s.running && s.running[ref].Holding? && ref in s.objects
    ensures HandsOver(s, Commit(s, ref), ref)
  {}

  lemma NextIsNew(s: State, max: nat)
    requires Inv(s, max)
    ensures s.files.next !in s.files.disk
  {}

  /** `sessions` maps identifiers to references, `objects` references to what they refer to.
      `running` has the preparing goroutines; the ghost fields are the table's history. */
  class Server {
    const maxSessions: nat
    var serving: Serving
    var sessions: map<nat, nat>
    var objects: map<nat, Session>
    var running: map<nat, Preparation>
    var files: Files
    var replies: seq<(nat, bytes)>
    ghost var launched: multiset<nat>
    ghost var readied: multiset<nat>
    var nextRef: nat

    ghost function View(): State
      reads this
    {
      State(serving, sessions, objects, running, files, replies, launched, readied, nextRef)
    }

    /** The table's invariant: what it says of every reachable table it says of this one. */
    ghost predicate Valid()
      reads this
    {
      Inv(View(), maxSessions)
    }

    constructor (maxSessions: nat)
      ensures Valid() && View() == INITIAL && this.maxSessions == maxSessions
    {
      this.maxSessions := maxSessions;
      serving, sessions, objects, running := Idle, map[], map[], map[];
      files, replies, nextRef := Files({}, {}, {}, {}, map[], 0), [], 0;
      launched, readied := multiset{}, multiset{};
    }

    /** `handleClientHello`, up to where it lets go of the lock. A hello repeated from its own
        address is answered as before; one for a new identifier goes on to the handshake while
        there is room; any other changes nothing. */
    method HandleClientHello(id: nat, address: nat, packet: bytes)
      requires Valid() && serving.Idle?
      modifies this`serving, this`replies
      ensures Valid() && View() == HandleHello(old(View()), maxSessions, id, address, packet)
      ensures serving == if id !in sessions && |sessions| < maxSessions then Accepting(id, address, packet) else Idle
      ensures replies == old(replies)
           || (id in sessions && objects[sessions[id]].address == address && objects[sessions[id]].hello == packet
               && replies == old(replies) + [(sessions[id], objects[sessions[id]].reply)])
    {
      HelloKeeps(View(), maxSessions, id, address, packet);
      if id in sessions {
        var existing := objects[sessions[id]];
        if existing.address == address && existing.hello == packet {
          replies := replies + [(sessions[id], existing.reply)];
        }
        return;
      }
      if |sessions| >= maxSessions {
        return;
      }
      serving := Accepting(id, address, packet);
    }

    /** The rest of `handleClientHello`, `accepted` being the reply when the handshake accepts the
        packet. Preparations may have ended meanwhile, so identifier and room are checked again.
        One session, never seen before, is added under the identifier, or nothing changes. */
    method FinishClientHello(accepted: Option<bytes>)
      requires Valid() && serving.Accepting?
      modifies this`serving, this`sessions, this`objects, this`replies, this`nextRef
      ensures Valid() && View() == HandleAccepted(old(View()), maxSessions, accepted)
      ensures Admits(old(View()), View(), maxSessions, accepted)
    {
      AcceptedAdmits(View(), maxSessions, accepted);
      AcceptedKeeps(View(), maxSessions, accepted);
      CheckAgain(accepted);
    }

    method CheckAgain(accepted: Option<bytes>)
      requires serving.Accepting?
      modifies this`serving, this`sessions, this`objects, this`replies, this`nextRef
      ensures View() == HandleAccepted(old(View()), maxSessions, accepted)
    {
      var id, address, packet := serving.id, serving.address, serving.hello;
      serving := Idle;
      if accepted.None? {
        return;
      }
      if id in sessions || |sessions| >= maxSessions {
        return;
      }
      AddSession(Session(id, address, packet, accepted.value, None, false, 0, None));
    }

    method AddSession(current: Session)
      modifies this`sessions, this`objects, this`replies, this`nextRef
      ensures View() == old(View()).(objects := old(objects)[old(nextRef) := current],
                                     table := old(sessions)[current.id := old(nextRef)],
                                     replies := old(replies) + [(old(nextRef), current.reply)],
                                     nextRef := old(nextRef) + 1)
    {
      var ref := nextRef;
      nextRef := nextRef + 1;
      objects := objects[ref := current];
      sessions := sessions[current.id := ref];
      replies := replies + [(ref, current.reply)];
    }

    /** `handleRequest`, up to the launch of the preparing goroutine. The first request of a
        session, and no other, sets its path and starts its one preparation. */
    method HandleRequest(id: nat, address: nat, path: bytes)
      requires Valid() && serving.Idle?
      modifies this`objects, this`running, this`launched
      ensures Valid() && View() == SessionTable.HandleRequest(old(View()), id, address, path)
      ensures Launches(old(View()), View(), id, address, path)
    {
      RequestLaunches(View(), id, address, path);
      RequestKeeps(View(), maxSessions, id, address, path);
      if path == [] || id !in sessions || objects[sessions[id]].address != address {
        return;
      }
      var ref := sessions[id];
      if objects[ref].path.Some? {
        return;
      }
      Launch(ref, path);
    }

    method Launch(ref: nat, path: bytes)
      requires ref in objects
      modifies this`objects, this`running, this`launched
      ensures View() == old(View()).(objects := old(objects)[ref := old(objects)[ref].(path := Some(path), preparing := true)],
                                     running := old(running)[ref := Starting],
                                     launched := old(launched) + multiset{ref})
    {
      objects := objects[ref := objects[ref].(path := Some(path), preparing := true)];
      running := running[ref := Starting];
      launched := launched + multiset{ref};
    }

    /** `failPreparation`: the session goes if the table still names that very one, and no
        other does. */
    method EndPreparation(ref: nat)
      requires ref in objects
      modifies this`running, this`sessions
      ensures View() == FailPreparation(old(View()), ref)
      ensures running == old(running) - {ref}
      ensures forall id :: id in sessions <==> id in old(sessions) && (old(sessions)[id] != ref || objects[ref].id != id)
      ensures forall id <- sessions :: sessions[id] == old(sessions)[id]
    {
      running := running - {ref};
      var id := objects[ref].id;
      if id in sessions && sessions[id] == ref {
        sessions := sessions - {id};
      }
    }

    /** The stretch of `prepare` that ends with a temporary file, or without one. */
    method MakeTemporaryFile(ref: nat, created: bool)
      requires Valid() && ref in running && running[ref].Starting?
      modifies this`running, this`sessions, this`files
      ensures Valid() && View() == Step(old(View()), maxSessions, TempFile(ref, created))
      ensures created ==> running.Keys == old(running).Keys && sessions == old(sessions) && running[ref].Writing?
                          && running[ref].file !in old(files).disk && files.disk == old(files).disk + {running[ref].file}
      ensures !created ==> running == old(running) - {ref} && files == old(files)
                           && (IsLive(old(sessions), objects, ref) ==> objects[ref].id !in sessions)
      ensures forall other <- old(running) :: other != ref ==> other in running && running[other] == old(running)[other]
    {
      StepKeepsInv(View(), maxSessions, TempFile(ref, created));
      NextIsNew(View(), maxSessions);
      TakeTemporaryFile(ref, created);
    }

    method TakeTemporaryFile(ref: nat, created: bool)
      requires Enabled(View(), TempFile(ref, created))
      modifies this`running, this`sessions, this`files
      ensures View() == Step(old(View()), maxSessions, TempFile(ref, created))
      ensures created ==> sessions == old(sessions) && running == old(running)[ref := Writing(old(files).next)]
                          && files.disk == old(files).disk + {old(files).next}
      ensures !created ==> running == old(running) - {ref} && files == old(files)
                           && (IsLive(old(sessions), objects, ref) ==> objects[ref].id !in sessions)
    {
      if !created {
        EndPreparation(ref);
        return;
      }
      AddTemporaryFile(ref);
    }

    method AddTemporaryFile(ref: nat)
      modifies this`running, this`files
      ensures View() == old(View()).(running := old(running)[ref := Writing(old(files).next)],
                                     files := WithTempFile(old(files), ref))
    {
      var f := files.next;
      files := files.(disk := files.disk + {f}, maker := files.maker[f := ref], next := f + 1);
      running := running[ref := Writing(f)];
    }

    /** The stretch after `Create`. Its own errors, once the output is open, have removed the
        file; too many chunks remove it here; an error before that leaves it. */
    method AfterCreate(ref: nat, result: Created)
      requires Valid() && ref in running && running[ref].Writing?
      modifies this`running, this`sessions, this`files
      ensures Valid() && View() == Step(old(View()), maxSessions, CreateEnds(ref, result))
      ensures result.Success? ==> running == old(running)[ref := Written(old(running)[ref].file, result.chunks)]
                                  && sessions == old(sessions) && files.disk == old(files).disk
      ensures !result.Success? ==> running == old(running) - {ref}
                                   && (IsLive(old(sessions), objects, ref) ==> objects[ref].id !in sessions)
                                   && files.disk == old(files).disk - if result.EarlyError? then {} else {old(running)[ref].file}
      ensures files.handles == old(files).handles
    {
      StepKeepsInv(View(), maxSessions, CreateEnds(ref, result));
      TakeArchive(ref, result);
    }

    method TakeArchive(ref: nat, result: Created)
      requires Enabled(View(), CreateEnds(ref, result))
      modifies this`running, this`sessions, this`files
      ensures View() == Step(old(View()), maxSessions, CreateEnds(ref, result))
      ensures result.Success? ==> running == old(running)[ref := Written(old(running)[ref].file, result.chunks)]
                                  && sessions == old(sessions) && files.disk == old(files).disk
      ensures !result.Success? ==> running == old(running) - {ref}
                                   && (IsLive(old(sessions), objects, ref) ==> objects[ref].id !in sessions)
                                   && files.disk == old(files).disk - if result.EarlyError? then {} else {old(running)[ref].file}
      ensures files.handles == old(files).handles
    {
      var f := running[ref].file;
      match result
      case Success(chunks) =>
        files := files.(created := files.created + {f});
        running := running[ref := Written(f, chunks)];
      case EarlyError =>
        files := files.(abandoned := files.abandoned + {f});
        EndPreparation(ref);
      case LateError =>
        files := files.Unlink(f);
        EndPreparation(ref);
      case TooManyChunks =>
        files := files.Unlink(f).(created := files.created + {f});
        EndPreparation(ref);
    }

    /** The stretch after opening the archive. */
    method AfterOpen(ref: nat, opens: bool)
      requires Valid() && ref in running && running[ref].Written?
      modifies this`running, this`sessions, this`files
      ensures Valid() && View() == Step(old(View()), maxSessions, OpenEnds(ref, opens))
      ensures var was := old(running)[ref];
              if opens
              then running == old(running)[ref := Holding(was.file, was.chunks)] && sessions == old(sessions)
                   && files.disk == old(files).disk && files.handles == old(files).handles + {was.file}
              else running == old(running) - {ref} && (IsLive(old(sessions), objects, ref) ==> objects[ref].id !in sessions)
                   && files.disk == old(files).disk - {was.file} && files.handles == old(files).handles
    {
      StepKeepsInv(View(), maxSessions, OpenEnds(ref, opens));
      var p := running[ref];
      if !opens {
        files := files.Unlink(p.file);
        EndPreparation(ref);
        return;
      }
      files := files.(handles := files.handles + {p.file});
      running := running[ref := Holding(p.file, p.chunks)];
    }

    /** The end of `prepare`. The archive goes to the session it was made for if the table still
        names that very one; otherwise it is closed and removed. */
    method CommitPreparation(ref: nat)
      requires Valid() && ref in running && running[ref].Holding?
      modifies this`running, this`objects, this`files, this`readied
      ensures Valid() && View() == Commit(old(View()), ref)
      ensures HandsOver(old(View()), View(), ref)
    {
      CommitHandsOver(View(), ref);
      CommitKeeps(View(), maxSessions, ref);
      var p := running[ref];
      running := running - {ref};
      var id := objects[ref].id;
      if id !in sessions || sessions[id] != ref {
        files := files.Drop(p.file);
        return;
      }
      MakeReady(ref, p.file, p.chunks);
    }

    method MakeReady(ref: nat, file: nat, chunks: nat)
      requires ref in objects
      modifies this`objects, this`readied
      ensures View() == old(View()).(objects := old(objects)[ref := old(objects)[ref].(preparing := false, file := Some(file), chunks := chunks)],
                                     readied := old(readied) + multiset{ref})
    {
      objects := objects[ref := objects[ref].(preparing := false, file := Some(file), chunks := chunks)];
      readied := readied + multiset{ref};
    }

    /** `closeSession`, then the deletion: the session goes, and its archive with it, closed and
        removed; nobody else's does. */
    method CloseAndDelete(id: nat)
      requires Valid() && id in sessions
      modifies this`files, this`sessions
      ensures Valid() && View() == Close(old(View()), id)
      ensures sessions == old(sessions) - {id}
      ensures forall f :: f in files.disk <==> f in old(files).disk && objects[old(sessions)[id]].file != Some(f)
      ensures forall f :: f in files.handles <==> f in old(files).handles && objects[old(sessions)[id]].file != Some(f)
    {
      CloseKeeps(View(), maxSessions, id);
      Forget(id);
    }

    method Forget(id: nat)
      requires id in sessions && sessions[id] in objects
      modifies this`files, this`sessions
      ensures View() == Close(old(View()), id)
    {
      var current := objects[sessions[id]];
      if current.file.Some? {
        files := files.Drop(current.file.value);
      }
      sessions := sessions - {id};
    }

    /** `handleDone`: ends the session for its own address, and leaves every other. */
    method HandleDone(id: nat, address: nat)
      requires Valid() && serving.Idle?
      modifies this`files, this`sessions
      ensures Valid()
      ensures View() == Step(old(View()), maxSessions, DoneArrives(id, address))
      ensures id in sessions <==> id in old(sessions) && objects[old(sessions)[id]].address != address
      ensures forall other | other != id :: other in sessions <==> other in old(sessions)
      ensures forall other <- sessions :: other in old(sessions) && sessions[other] == old(sessions)[other]
    {
      if id in sessions && objects[sessions[id]].address == address {
        CloseAndDelete(id);
      }
    }

    /** `cleanupExpired`, where `stale` says whose last access is too long ago: exactly the
        stale sessions are closed, one after the other, in whatever order the map is ranged over. */
    method CleanupExpired(stale: Session -> bool) returns (ghost closed: seq<nat>)
      requires Valid() && serving.Idle?
      modifies this`files, this`sessions
      ensures Valid() && View() == CloseEach(old(View()), closed)
      ensures forall id <- old(sessions) :: id in sessions <==> !stale(objects[old(sessions)[id]])
      ensures forall id <- sessions :: id in old(sessions) && sessions[id] == old(sessions)[id]
    {
      ghost var was := View();
      closed := ForgetStale(stale);
      CloseEachKeeps(was, maxSessions, closed);
    }

    method ForgetStale(stale: Session -> bool) returns (ghost closed: seq<nat>)
      requires Linked(View())
      modifies this`files, this`sessions
      ensures View() == CloseEach(old(View()), closed)
      ensures forall id <- old(sessions) :: id in sessions <==> !stale(objects[old(sessions)[id]])
      ensures forall id <- sessions :: id in old(sessions) && sessions[id] == old(sessions)[id]
    {
      closed := [];
      var pending := sessions.Keys;
      ghost var was := View();
      while pending != {}
        invariant Linked(View()) && View() == CloseEach(was, closed)
        invariant pending <= sessions.Keys && objects == was.objects
        invariant forall id <- sessions :: id in was.table && sessions[id] == was.table[id]
        invariant forall id <- was.table :: id in pending || (id in sessions <==> !stale(objects[was.table[id]]))
        decreases |pending|
      {
        var id :| id in pending;
        pending := pending - {id};
        if stale(objects[sessions[id]]) {
          Forget(id);
          assert (closed + [id])[..|closed|] == closed;
          closed := closed + [id];
        }
      }
    }

    /** `closeSessions`, on the way out of `Serve`. */
    method CloseSessions()
      requires Valid()
      modifies this`files, this`sessions, this`serving
      ensures Valid() && View() == CloseAll(old(View()))
      ensures sessions == map[] && serving.Stopped?
    {
      ShutdownKeeps(View(), maxSessions);
      ForgetAll();
      serving := Stopped;
    }

    method ForgetAll()
      requires Linked(View()) && forall id <- sessions :: objects[sessions[id]].id == id
      modifies this`files, this`sessions
      ensures View() == CloseAll(old(View())).(serving := serving)
    {
      var pending := sessions.Keys;
      ghost var was := View();
      NoneClosed(was);
      while pending != {}
        invariant sessions.Keys == pending <= was.table.Keys
        invariant View() == was.(table := sessions, files := files)
        invariant forall id <- pending :: sessions[id] == was.table[id]
        invariant files == Without(was.files, OpenFiles(was, pending))
        decreases |pending|
      {
        var id :| id in pending;
        Forget(id);
        ClosesOne(was, pending, id);
        pending := pending - {id};
      }
      assert sessions == map[];
      AllClosed(was);
    }
  }
}
