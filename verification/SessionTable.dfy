/** internal/server/server.go: the session table under every interleaving of the serving
    goroutine with the preparing goroutines. One action is one stretch under the lock, or
    one file-system call. */
module SessionTable {
  import opened Bytes
  import Codec
  import Paths

  /** A session object. `path` is the requested path once there is one; `file` the archive
      it has open once it is ready. */
  datatype Session = Session(
    id: nat,
    address: nat,
    hello: bytes,
    reply: bytes,
    path: Option<bytes>,
    preparing: bool,
    chunks: nat,
    file: Option<nat>)

  /** How far `prepare` has come, and the temporary file it works on. */
  datatype Preparation = Starting | Writing(file: nat) | Written(file: nat, chunks: nat) | Holding(file: nat, chunks: nat)

  datatype Serving = Idle | Accepting(id: nat, address: nat, hello: bytes) | Stopped

  /** Temporary files and the open handles on them. The last four fields are history: the
      archives `Create` finished, the files it left behind, the session each file was made
      for, and the next fresh name. */
  datatype Files = Files(disk: set<nat>, handles: set<nat>,
                         created: set<nat>, abandoned: set<nat>, maker: map<nat, nat>, next: nat)
  {
    function Drop(f: nat): Files {
      this.(disk := disk - {f}, handles := handles - {f})
    }

    function Unlink(f: nat): Files {
      this.(disk := disk - {f})
    }
  }

  /** Sessions are objects, named by references; `table` is `server.sessions`. From `replies`
      on the fields are history: replies sent to hellos, preparations launched, sessions made
      ready, and the next fresh reference. */
  datatype State = State(
    serving: Serving,
    table: map<nat, nat>,
    objects: map<nat, Session>,
    running: map<nat, Preparation>,
    files: Files,
    replies: seq<(nat, bytes)>,
    launched: multiset<nat>,
    readied: multiset<nat>,
    nextRef: nat)

  const INITIAL := State(Idle, map[], map[], map[], Files({}, {}, {}, {}, map[], 0), [], multiset{}, multiset{}, 0)

  /** How `archive.Create` ends: with an archive of some chunks, with an error before it opened
      its output, with a later error, or with more chunks than a `uint32` counts. */
  datatype Created = Success(chunks: nat) | EarlyError | LateError | TooManyChunks

  datatype Action =
    | HelloArrives(id: nat, address: nat, hello: bytes)
    | AcceptEnds(reply: Option<bytes>)
    | RequestArrives(id: nat, address: nat, path: bytes)
    | DoneArrives(id: nat, address: nat)
    | Expires(id: nat)
    | Shutdown
    | TempFile(ref: nat, created: bool)
    | CreateEnds(ref: nat, result: Created)
    | OpenEnds(ref: nat, opens: bool)
    | Commits(ref: nat)

  predicate Enabled(s: State, a: Action) {
    match a
    case AcceptEnds(_) => s.serving.Accepting?
    case TempFile(ref, _) => Runs(s, ref) && s.running[ref].Starting?
    case CreateEnds(ref, _) => Runs(s, ref) && s.running[ref].Writing?
    case OpenEnds(ref, _) => Runs(s, ref) && s.running[ref].Written?
    case Commits(ref) => Runs(s, ref) && s.running[ref].Holding?
    case _ => s.serving.Idle?
  }

  predicate Runs(s: State, ref: nat) {
    ref in s.running && ref in s.objects
  }

  /** What the server shares: `resolves` says which relative paths lead to a directory below the
      root, symbolic links followed; `separate`, for which of them the temporary archive is
      outside the directory and can be opened. */
  datatype Site = Site(max: nat, resolves: bytes -> bool, separate: bytes -> bool)

  /** A path as the characters the path functions look at, one per byte. */
  function Text(path: bytes): string {
    seq(|path|, i requires 0 <= i < |path| => path[i] as char)
  }

  /** `archive.Create` ends before it opens its output. */
  predicate Refuses(site: Site, path: bytes) {
    || path == [] || Paths.IsAbs(Text(path)) || Paths.EscapesRoot(Paths.Clean(Text(path)))
    || !site.resolves(path) || !site.separate(path)
  }

  /** Those are the paths that are empty, absolute, lead out of some directory, or lead from the
      root to nothing that can be archived there. */
  lemma RefusesIff(site: Site, path: bytes)
    ensures Refuses(site, path) <==>
              || Paths.Split(Text(path))[0] == ""
              || (exists dir: Paths.Parts :: !(dir <= Paths.Walk(dir, Paths.Split(Text(path)))))
              || !site.resolves(path) || !site.separate(path)
  {
    Paths.RelativeNames(Text(path));
    Paths.EscapesIffOutside(Text(path));
  }

  /** Whether `Create` fails early depends on what it was asked for. */
  predicate Allowed(site: Site, s: State, a: Action) {
    && Enabled(s, a)
    && (a.CreateEnds? ==>
          s.objects[a.ref].path.Some?
          && (a.result.EarlyError? <==> Refuses(site, s.objects[a.ref].path.value)))
  }

  /** `server.sessions[id] == current` */
  predicate IsLive(table: map<nat, nat>, objects: map<nat, Session>, ref: nat) {
    ref in objects && objects[ref].id in table && table[objects[ref].id] == ref
  }

  // ----- the steps -----

  /** `current, ok := server.sessions[id]`; `ok` */
  predicate Named(s: State, id: nat) {
    id in s.table && s.table[id] in s.objects
  }

  /** `closeSession` and the deletion that follows it. */
  function Close(s: State, id: nat): State
    requires Named(s, id)
  {
    match s.objects[s.table[id]].file
    case None => s.(table := s.table - {id})
    case Some(f) => s.(table := s.table - {id}, files := s.files.Drop(f))
  }

  /** `failPreparation`: the goroutine ends; its session goes if it is still there. */
  function FailPreparation(s: State, ref: nat): State
    requires ref in s.objects
  {
    var s' := s.(running := s.running - {ref});
    if IsLive(s.table, s.objects, ref) then s'.(table := s.table - {s.objects[ref].id}) else s'
  }

  function HandleHello(s: State, max: nat, id: nat, address: nat, hello: bytes): State {
    if Named(s, id) then
      var current := s.objects[s.table[id]];
      if current.address == address && current.hello == hello
      then s.(replies := s.replies + [(s.table[id], current.reply)])
      else s
    else if |s.table| >= max then s
    else s.(serving := Accepting(id, address, hello))
  }

  function HandleAccepted(s: State, max: nat, reply: Option<bytes>): State
    requires s.serving.Accepting?
  {
    var idle := s.(serving := Idle);
    if reply.None? || s.serving.id in s.table || |s.table| >= max then idle
    else
      var ref := s.nextRef;
      idle.(
        objects := s.objects[ref := Session(s.serving.id, s.serving.address, s.serving.hello, reply.value,
                                            None, false, 0, None)],
        table := s.table[s.serving.id := ref],
        replies := s.replies + [(ref, reply.value)],
        nextRef := ref + 1)
  }

  function HandleRequest(s: State, id: nat, address: nat, path: bytes): State {
    if path == [] || !Named(s, id) || s.objects[s.table[id]].address != address then s
    else
      var ref := s.table[id];
      if s.objects[ref].path.Some? then s
      else s.(objects := s.objects[ref := s.objects[ref].(path := Some(path), preparing := true)],
              running := s.running[ref := Starting],
              launched := s.launched + multiset{ref})
  }

  /** The last stretch of `prepare`: hand the archive to the session, or drop it. */
  function Commit(s: State, ref: nat): State
    requires ref in s.running && s.running[ref].Holding? && ref in s.objects
  {
    var p := s.running[ref];
    var done := s.(running := s.running - {ref});
    if IsLive(s.table, s.objects, ref) then
      done.(objects := s.objects[ref := s.objects[ref].(preparing := false, file := Some(p.file), chunks := p.chunks)],
            readied := s.readied + multiset{ref})
    else done.(files := s.files.Drop(p.file))
  }

  /** `closeSessions` */
  function CloseAll(s: State): State {
    var closed := set ref | ref in s.objects && IsLive(s.table, s.objects, ref) && s.objects[ref].file.Some? :: s.objects[ref].file.value;
    s.(serving := Stopped, table := map[],
       files := s.files.(handles := s.files.handles - closed, disk := s.files.disk - closed))
  }

  function Step(s: State, max: nat, a: Action): State
    requires Enabled(s, a)
  {
    match a
    case HelloArrives(id, address, hello) => HandleHello(s, max, id, address, hello)
    case AcceptEnds(reply) => HandleAccepted(s, max, reply)
    case RequestArrives(id, address, path) => HandleRequest(s, id, address, path)
    case DoneArrives(id, address) =>
      if Named(s, id) && s.objects[s.table[id]].address == address then Close(s, id) else s
    case Expires(id) => if Named(s, id) then Close(s, id) else s
    case Shutdown => CloseAll(s)
    case TempFile(ref, created) =>
      if created
      then
        var f := s.files.next;
        s.(running := s.running[ref := Writing(f)],
           files := s.files.(disk := s.files.disk + {f}, maker := s.files.maker[f := ref], next := f + 1))
      else FailPreparation(s, ref)
    case CreateEnds(ref, result) =>
      var f := s.running[ref].file;
      (match result
       case Success(chunks) => s.(running := s.running[ref := Written(f, chunks)],
                                    files := s.files.(created := s.files.created + {f}))
       case EarlyError => FailPreparation(s.(files := s.files.(abandoned := s.files.abandoned + {f})), ref)
       case LateError => FailPreparation(s.(files := s.files.Unlink(f)), ref)
       case TooManyChunks => FailPreparation(s.(files := s.files.Unlink(f).(created := s.files.created + {f})), ref))
    case OpenEnds(ref, opens) =>
      var p := s.running[ref];
      if opens then s.(running := s.running[ref := Holding(p.file, p.chunks)],
                         files := s.files.(handles := s.files.handles + {p.file}))
      else FailPreparation(s.(files := s.files.Unlink(p.file)), ref)
    case Commits(ref) => Commit(s, ref)
  }

  // ----- the invariant -----

  /** File `f` belongs to the preparation of `ref`. */
  predicate Works(running: map<nat, Preparation>, ref: nat, f: nat) {
    ref in running && !running[ref].Starting? && running[ref].file == f
  }

  /** File `f` belongs to the live session `ref`. */
  predicate Keeps(table: map<nat, nat>, objects: map<nat, Session>, ref: nat, f: nat) {
    IsLive(table, objects, ref) && objects[ref].file == Some(f)
  }

  /** The table names distinct, existing sessions under their own identifiers, and is bounded. */
  ghost predicate TableInv(table: map<nat, nat>, objects: map<nat, Session>, nextRef: nat, max: nat) {
    && |table| <= max
    && (forall id <- table :: table[id] in objects && objects[table[id]].id == id)
    && (forall ref <- objects :: ref < nextRef)
  }

  /** One preparation per session, ever, and one readying per session, ever; a session that
      counts chunks has a file; a live session is preparing exactly while its preparation runs. */
  ghost predicate OnceInv(table: map<nat, nat>, objects: map<nat, Session>, running: map<nat, Preparation>,
                          launched: multiset<nat>, readied: multiset<nat>)
  {
    && (forall ref: nat :: launched[ref] == if ref in objects && objects[ref].path.Some? then 1 else 0)
    && (forall ref: nat :: readied[ref] == if ref in objects && objects[ref].file.Some? then 1 else 0)
    && (forall ref <- running :: ref in objects && objects[ref].path.Some? && objects[ref].file.None?)
    && (forall ref <- objects :: (objects[ref].chunks > 0 ==> objects[ref].file.Some?)
                              && (objects[ref].file.Some? ==> objects[ref].path.Some?))
    && (forall ref <- objects :: IsLive(table, objects, ref) ==> (objects[ref].preparing <==> ref in running))
  }

  /** A file is owned by nobody but the session it was made for; it is on disk exactly while
      it is owned or was left behind, and open exactly while a live session, or a preparation
      about to hand it over, holds it. */
  ghost predicate FileOk(table: map<nat, nat>, objects: map<nat, Session>, running: map<nat, Preparation>,
                         files: Files, ref: nat, f: nat)
  {
    var works, keeps := Works(running, ref, f), Keeps(table, objects, ref, f);
    && (f in files.disk <==> f in files.abandoned || works || keeps)
    && (f in files.handles <==> keeps || (works && running[ref].Holding?))
    && (f in files.abandoned ==> !works && !keeps && f !in files.created)
    && (keeps ==> f in files.created && !works)
    && (works ==> (f in files.created <==> !running[ref].Writing?))
  }

  ghost predicate FileInv(table: map<nat, nat>, objects: map<nat, Session>, running: map<nat, Preparation>, files: Files) {
    && (forall f <- files.maker :: f < files.next && FileOk(table, objects, running, files, files.maker[f], f))
    && files.disk <= files.maker.Keys && files.handles <= files.maker.Keys
    && files.created <= files.maker.Keys && files.abandoned <= files.maker.Keys
    && (forall ref <- running :: !running[ref].Starting? ==>
          running[ref].file in files.maker && files.maker[running[ref].file] == ref)
    && (forall ref <- objects :: objects[ref].file.Some? ==>
          objects[ref].file.value in files.maker && files.maker[objects[ref].file.value] == ref)
  }

  ghost predicate ReplyInv(objects: map<nat, Session>, replies: seq<(nat, bytes)>) {
    forall k | 0 <= k < |replies| :: replies[k].0 in objects && replies[k].1 == objects[replies[k].0].reply
  }

  ghost predicate Inv(s: State, max: nat) {
    && TableInv(s.table, s.objects, s.nextRef, max)
    && OnceInv(s.table, s.objects, s.running, s.launched, s.readied)
    && FileInv(s.table, s.objects, s.running, s.files)
    && ReplyInv(s.objects, s.replies)
  }

  // ----- every step keeps it -----

  /** A session object may change, and new ones appear, without touching any file. */
  lemma FilesUnmoved(s: State, table: map<nat, nat>, objects: map<nat, Session>, running: map<nat, Preparation>)
    requires FileInv(s.table, s.objects, s.running, s.files)
    requires forall ref: nat, f: nat :: Works(running, ref, f) <==> Works(s.running, ref, f)
    requires forall ref: nat, f: nat :: Keeps(table, objects, ref, f) <==> Keeps(s.table, s.objects, ref, f)
    requires forall ref <- running :: !running[ref].Starting? ==> ref in s.running && running[ref] == s.running[ref]
    requires forall ref <- objects :: objects[ref].file.Some? ==> ref in s.objects && objects[ref].file == s.objects[ref].file
    ensures FileInv(table, objects, running, s.files)
  {
    forall f <- s.files.maker ensures FileOk(table, objects, running, s.files, s.files.maker[f], f) {
      assert FileOk(s.table, s.objects, s.running, s.files, s.files.maker[f], f);
      assert Works(running, s.files.maker[f], f) <==> Works(s.running, s.files.maker[f], f);
    }
  }

  /** Forgetting a session that is neither preparing nor holding a file it keeps. */
  lemma ForgetKeepsOnce(s: State, id: nat)
    requires OnceInv(s.table, s.objects, s.running, s.launched, s.readied)
    ensures OnceInv(s.table - {id}, s.objects, s.running, s.launched, s.readied)
  {
    forall ref <- s.objects | IsLive(s.table - {id}, s.objects, ref) ensures IsLive(s.table, s.objects, ref) {}
  }

  lemma ForgetKeepsTable(s: State, max: nat, id: nat)
    requires TableInv(s.table, s.objects, s.nextRef, max)
    ensures TableInv(s.table - {id}, s.objects, s.nextRef, max)
  {
    assert (s.table - {id}).Keys <= s.table.Keys;
    SmallerSet((s.table - {id}).Keys, s.table.Keys);
  }

  lemma SmallerSet(a: set<nat>, b: set<nat>)
    requires a <= b
    ensures |a| <= |b|
  {
    assert b == a + (b - a);
  }

  lemma CloseKeepsFiles(s: State, id: nat)
    requires FileInv(s.table, s.objects, s.running, s.files)
    requires id in s.table && s.table[id] in s.objects && s.objects[s.table[id]].id == id
    ensures var t := Close(s, id); FileInv(t.table, t.objects, t.running, t.files)
  {
    var t := Close(s, id);
    forall f <- t.files.maker ensures FileOk(t.table, t.objects, t.running, t.files, t.files.maker[f], f) {
      assert FileOk(s.table, s.objects, s.running, s.files, s.files.maker[f], f);
    }
  }

  lemma CloseKeeps(s: State, max: nat, id: nat)
    requires Inv(s, max) && id in s.table
    ensures Inv(Close(s, id), max)
  {
    ForgetKeepsTable(s, max, id);
    ForgetKeepsOnce(s, id);
    CloseKeepsFiles(s, id);
  }

  /** `files'` is `files` with whatever the preparation of `ref` held given up. */
  ghost predicate Released(running: map<nat, Preparation>, files: Files, files': Files, ref: nat) {
    && files'.maker == files.maker && files'.next == files.next
    && files'.disk <= files.disk && files'.handles == files.handles
    && files'.created <= files.maker.Keys && files'.abandoned <= files.maker.Keys
    && (forall f <- files.maker :: !Works(running, ref, f) ==>
          (f in files'.disk <==> f in files.disk) && (f in files'.created <==> f in files.created)
          && (f in files'.abandoned <==> f in files.abandoned))
    && (forall f <- files.maker :: Works(running, ref, f) ==>
          (f in files'.disk <==> f in files'.abandoned) && f !in files'.handles
          && (f in files'.abandoned ==> f !in files'.created))
  }

  lemma FailKeepsFiles(s: State, files': Files, ref: nat)
    requires FileInv(s.table, s.objects, s.running, s.files)
    requires ref in s.running && ref in s.objects && s.objects[ref].file.None?
    requires Released(s.running, s.files, files', ref)
    ensures var t := FailPreparation(s.(files := files'), ref); FileInv(t.table, t.objects, t.running, t.files)
  {
    var t := FailPreparation(s.(files := files'), ref);
    forall f <- t.files.maker ensures FileOk(t.table, t.objects, t.running, t.files, t.files.maker[f], f) {
      FailKeepsFile(s, files', ref, f);
    }
  }

  lemma FailKeepsFile(s: State, files': Files, ref: nat, f: nat)
    requires FileInv(s.table, s.objects, s.running, s.files) && f in s.files.maker
    requires ref in s.running && ref in s.objects && s.objects[ref].file.None?
    requires Released(s.running, s.files, files', ref)
    ensures var t := FailPreparation(s.(files := files'), ref);
            FileOk(t.table, t.objects, t.running, t.files, t.files.maker[f], f)
  {
    assert FileOk(s.table, s.objects, s.running, s.files, s.files.maker[f], f);
  }

  lemma FailKeeps(s: State, max: nat, files': Files, ref: nat)
    requires Inv(s, max) && ref in s.running && Released(s.running, s.files, files', ref)
    ensures Inv(FailPreparation(s.(files := files'), ref), max)
  {
    FailKeepsFiles(s, files', ref);
    ForgetKeepsTable(s, max, s.objects[ref].id);
    FailKeepsOnce(s, ref);
  }

  lemma FailKeepsOnce(s: State, ref: nat)
    requires OnceInv(s.table, s.objects, s.running, s.launched, s.readied) && ref in s.running
    ensures var t := FailPreparation(s, ref); OnceInv(t.table, t.objects, t.running, t.launched, t.readied)
  {
    var t := FailPreparation(s, ref);
    forall r <- s.objects | IsLive(t.table, t.objects, r) ensures IsLive(s.table, s.objects, r) && r != ref {}
  }

  /** A preparation that goes on is still a preparation. */
  lemma GoOnKeepsOnce(s: State, ref: nat, p: Preparation)
    requires OnceInv(s.table, s.objects, s.running, s.launched, s.readied) && ref in s.running
    ensures OnceInv(s.table, s.objects, s.running[ref := p], s.launched, s.readied)
  {}

  /** `files` with a fresh temporary file made for `ref`. */
  function WithTempFile(files: Files, ref: nat): Files {
    var f := files.next;
    files.(disk := files.disk + {f}, maker := files.maker[f := ref], next := f + 1)
  }

  lemma TempFileKeepsFiles(s: State, ref: nat)
    requires FileInv(s.table, s.objects, s.running, s.files) && ref in s.running && s.running[ref].Starting?
    ensures FileInv(s.table, s.objects, s.running[ref := Writing(s.files.next)], WithTempFile(s.files, ref))
  {
    var running, files := s.running[ref := Writing(s.files.next)], WithTempFile(s.files, ref);
    forall f <- files.maker ensures f < files.next && FileOk(s.table, s.objects, running, files, files.maker[f], f) {
      TempFileOk(s, ref, f);
    }
  }

  lemma TempFileOk(s: State, ref: nat, f: nat)
    requires FileInv(s.table, s.objects, s.running, s.files) && ref in s.running && s.running[ref].Starting?
    requires f in WithTempFile(s.files, ref).maker
    ensures var files := WithTempFile(s.files, ref);
            f < files.next && FileOk(s.table, s.objects, s.running[ref := Writing(s.files.next)], files, files.maker[f], f)
  {
    if f in s.files.maker {
      assert FileOk(s.table, s.objects, s.running, s.files, s.files.maker[f], f);
    }
  }

  lemma TempFileKeeps(s: State, max: nat, ref: nat)
    requires Inv(s, max) && Enabled(s, TempFile(ref, true))
    ensures Inv(Step(s, max, TempFile(ref, true)), max)
  {
    GoOnKeepsOnce(s, ref, Writing(s.files.next));
    TempFileKeepsFiles(s, ref);
    assert Step(s, max, TempFile(ref, true))
        == s.(running := s.running[ref := Writing(s.files.next)], files := WithTempFile(s.files, ref));
  }

  lemma CreateEndsKeeps(s: State, max: nat, ref: nat, result: Created)
    requires Inv(s, max) && Enabled(s, CreateEnds(ref, result))
    ensures Inv(Step(s, max, CreateEnds(ref, result)), max)
  {
    var f0 := s.running[ref].file;
    assert FileOk(s.table, s.objects, s.running, s.files, ref, f0);
    match result
    case Success(chunks) => WrittenKeeps(s, max, ref, chunks);
    case EarlyError => FailKeeps(s, max, s.files.(abandoned := s.files.abandoned + {f0}), ref);
    case LateError => FailKeeps(s, max, s.files.Unlink(f0), ref);
    case TooManyChunks => FailKeeps(s, max, s.files.Unlink(f0).(created := s.files.created + {f0}), ref);
  }

  lemma WrittenKeeps(s: State, max: nat, ref: nat, chunks: nat)
    requires Inv(s, max) && Enabled(s, CreateEnds(ref, Success(chunks)))
    ensures Inv(Step(s, max, CreateEnds(ref, Success(chunks))), max)
  {
    var t := Step(s, max, CreateEnds(ref, Success(chunks)));
    GoOnKeepsOnce(s, ref, Written(s.running[ref].file, chunks));
    forall f <- t.files.maker ensures FileOk(t.table, t.objects, t.running, t.files, t.files.maker[f], f) {
      assert FileOk(s.table, s.objects, s.running, s.files, s.files.maker[f], f);
    }
  }

  lemma OpenEndsKeeps(s: State, max: nat, ref: nat, opens: bool)
    requires Inv(s, max) && Enabled(s, OpenEnds(ref, opens))
    ensures Inv(Step(s, max, OpenEnds(ref, opens)), max)
  {
    var f0 := s.running[ref].file;
    assert FileOk(s.table, s.objects, s.running, s.files, ref, f0);
    if opens {
      GoOnKeepsOnce(s, ref, Holding(f0, s.running[ref].chunks));
      var t := Step(s, max, OpenEnds(ref, opens));
      forall f <- t.files.maker ensures FileOk(t.table, t.objects, t.running, t.files, t.files.maker[f], f) {
        assert FileOk(s.table, s.objects, s.running, s.files, s.files.maker[f], f);
      }
    } else {
      FailKeeps(s, max, s.files.Unlink(f0), ref);
    }
  }

  lemma AddKeepsTable(s: State, max: nat, added: Session)
    requires TableInv(s.table, s.objects, s.nextRef, max) && added.id !in s.table && |s.table| < max
    ensures TableInv(s.table[added.id := s.nextRef], s.objects[s.nextRef := added], s.nextRef + 1, max)
  {
    assert s.table[added.id := s.nextRef].Keys == s.table.Keys + {added.id};
  }

  lemma AddKeepsOnce(s: State, added: Session)
    requires OnceInv(s.table, s.objects, s.running, s.launched, s.readied) && s.nextRef !in s.objects
    requires added.path.None? && added.file.None? && !added.preparing && added.chunks == 0 && added.id !in s.table
    ensures OnceInv(s.table[added.id := s.nextRef], s.objects[s.nextRef := added], s.running, s.launched, s.readied)
  {
    LiveWhenAdded(s.table, s.objects, s.nextRef, added);
    assert s.nextRef !in s.running;
  }

  /** A new session does not change which of the others are live. */
  lemma LiveWhenAdded(table: map<nat, nat>, objects: map<nat, Session>, ref: nat, added: Session)
    requires ref !in objects && added.id !in table
    ensures forall r <- objects :: IsLive(table[added.id := ref], objects[ref := added], r) == IsLive(table, objects, r)
  {}

  lemma AddKeepsFiles(s: State, added: Session)
    requires FileInv(s.table, s.objects, s.running, s.files) && s.nextRef !in s.objects
    requires added.file.None? && added.id !in s.table
    ensures FileInv(s.table[added.id := s.nextRef], s.objects[s.nextRef := added], s.running, s.files)
  {
    var table, objects := s.table[added.id := s.nextRef], s.objects[s.nextRef := added];
    forall ref: nat, f: nat ensures Keeps(table, objects, ref, f) <==> Keeps(s.table, s.objects, ref, f) {}
    FilesUnmoved(s, table, objects, s.running);
  }

  lemma AcceptedKeeps(s: State, max: nat, reply: Option<bytes>)
    requires Inv(s, max) && s.serving.Accepting?
    ensures Inv(HandleAccepted(s, max, reply), max)
  {
    if reply.Some? && s.serving.id !in s.table && |s.table| < max {
      var added := Session(s.serving.id, s.serving.address, s.serving.hello, reply.value, None, false, 0, None);
      AddKeepsTable(s, max, added);
      AddKeepsOnce(s, added);
      AddKeepsFiles(s, added);
      AddKeepsReplies(s.objects, s.replies, s.nextRef, added);
    }
  }

  lemma AddKeepsReplies(objects: map<nat, Session>, replies: seq<(nat, bytes)>, ref: nat, added: Session)
    requires ReplyInv(objects, replies) && ref !in objects
    ensures ReplyInv(objects[ref := added], replies + [(ref, added.reply)])
  {}

  lemma LaunchKeepsOnce(s: State, ref: nat, path: bytes)
    requires OnceInv(s.table, s.objects, s.running, s.launched, s.readied)
    requires ref in s.objects && s.objects[ref].path.None?
    ensures OnceInv(s.table, s.objects[ref := s.objects[ref].(path := Some(path), preparing := true)],
                    s.running[ref := Starting], s.launched + multiset{ref}, s.readied)
  {
    LiveUnmoved(s.table, s.objects, s.objects[ref := s.objects[ref].(path := Some(path), preparing := true)]);
  }

  /** Whether a session is live depends on its identifier alone. */
  lemma LiveUnmoved(table: map<nat, nat>, before: map<nat, Session>, after: map<nat, Session>)
    requires before.Keys == after.Keys && forall ref <- before :: before[ref].id == after[ref].id
    ensures forall ref: nat :: IsLive(table, before, ref) == IsLive(table, after, ref)
  {}

  lemma LaunchKeepsFiles(s: State, ref: nat, path: bytes)
    requires FileInv(s.table, s.objects, s.running, s.files)
    requires ref in s.objects && ref !in s.running
    ensures FileInv(s.table, s.objects[ref := s.objects[ref].(path := Some(path), preparing := true)],
                    s.running[ref := Starting], s.files)
  {
    var objects := s.objects[ref := s.objects[ref].(path := Some(path), preparing := true)];
    forall r: nat, f: nat ensures Keeps(s.table, objects, r, f) <==> Keeps(s.table, s.objects, r, f) {}
    FilesUnmoved(s, s.table, objects, s.running[ref := Starting]);
  }

  lemma RequestKeeps(s: State, max: nat, id: nat, address: nat, path: bytes)
    requires Inv(s, max)
    ensures Inv(HandleRequest(s, id, address, path), max)
  {
    if id in s.table && s.objects[s.table[id]].path.None? {
      var ref := s.table[id];
      var changed := s.objects[ref].(path := Some(path), preparing := true);
      LaunchKeepsOnce(s, ref, path);
      LaunchKeepsFiles(s, ref, path);
      TouchKeepsTable(s, max, ref, changed);
      TouchKeepsReplies(s.objects, s.replies, ref, changed);
    }
  }

  lemma ReadyKeepsOnce(s: State, ref: nat, file: nat, chunks: nat)
    requires OnceInv(s.table, s.objects, s.running, s.launched, s.readied)
    requires ref in s.running && IsLive(s.table, s.objects, ref)
    ensures OnceInv(s.table, s.objects[ref := s.objects[ref].(preparing := false, file := Some(file), chunks := chunks)],
                    s.running - {ref}, s.launched, s.readied + multiset{ref})
  {
    LiveUnmoved(s.table, s.objects,
                s.objects[ref := s.objects[ref].(preparing := false, file := Some(file), chunks := chunks)]);
  }

  lemma CommitKeepsFiles(s: State, ref: nat)
    requires FileInv(s.table, s.objects, s.running, s.files)
    requires ref in s.running && s.running[ref].Holding? && ref in s.objects && s.objects[ref].file.None?
    ensures var t := Commit(s, ref); FileInv(t.table, t.objects, t.running, t.files)
  {
    var t := Commit(s, ref);
    var file := s.running[ref].file;
    forall f <- t.files.maker ensures FileOk(t.table, t.objects, t.running, t.files, t.files.maker[f], f) {
      assert FileOk(s.table, s.objects, s.running, s.files, s.files.maker[f], f);
      assert f == file ==> s.files.maker[f] == ref;
    }
  }

  lemma CommitKeeps(s: State, max: nat, ref: nat)
    requires Inv(s, max) && ref in s.running && s.running[ref].Holding?
    ensures Inv(Commit(s, ref), max)
  {
    CommitKeepsFiles(s, ref);
    if IsLive(s.table, s.objects, ref) {
      var ready := s.objects[ref].(preparing := false, file := Some(s.running[ref].file), chunks := s.running[ref].chunks);
      ReadyKeepsOnce(s, ref, s.running[ref].file, s.running[ref].chunks);
      TouchKeepsTable(s, max, ref, ready);
      TouchKeepsReplies(s.objects, s.replies, ref, ready);
    } else {
      DropKeepsOnce(s, ref);
    }
  }

  /** A session that changes keeps its identifier and its reply. */
  lemma TouchKeepsTable(s: State, max: nat, ref: nat, changed: Session)
    requires TableInv(s.table, s.objects, s.nextRef, max) && ref in s.objects && changed.id == s.objects[ref].id
    ensures TableInv(s.table, s.objects[ref := changed], s.nextRef, max)
  {}

  lemma TouchKeepsReplies(objects: map<nat, Session>, replies: seq<(nat, bytes)>, ref: nat, changed: Session)
    requires ReplyInv(objects, replies) && ref in objects && changed.reply == objects[ref].reply
    ensures ReplyInv(objects[ref := changed], replies)
  {}

  lemma DropKeepsOnce(s: State, ref: nat)
    requires OnceInv(s.table, s.objects, s.running, s.launched, s.readied)
    requires ref in s.running && !IsLive(s.table, s.objects, ref)
    ensures OnceInv(s.table, s.objects, s.running - {ref}, s.launched, s.readied)
  {}

  lemma ShutdownKeeps(s: State, max: nat)
    requires Inv(s, max)
    ensures Inv(CloseAll(s), max)
  {
    ShutdownKeepsFiles(s);
  }

  lemma ShutdownKeepsFiles(s: State)
    requires FileInv(s.table, s.objects, s.running, s.files)
    ensures var t := CloseAll(s); FileInv(t.table, t.objects, t.running, t.files)
  {
    var t := CloseAll(s);
    forall f <- t.files.maker ensures FileOk(t.table, t.objects, t.running, t.files, t.files.maker[f], f) {
      assert FileOk(s.table, s.objects, s.running, s.files, s.files.maker[f], f);
    }
  }

  lemma HelloKeeps(s: State, max: nat, id: nat, address: nat, hello: bytes)
    requires Inv(s, max)
    ensures Inv(HandleHello(s, max, id, address, hello), max)
  {}

  lemma ServingKeeps(s: State, max: nat, a: Action)
    requires Inv(s, max) && Enabled(s, a)
    requires a.HelloArrives? || a.AcceptEnds? || a.RequestArrives? || a.DoneArrives? || a.Expires? || a.Shutdown?
    ensures Inv(Step(s, max, a), max)
  {
    match a
    case HelloArrives(id, address, hello) => HelloKeeps(s, max, id, address, hello);
    case AcceptEnds(reply) => AcceptedKeeps(s, max, reply);
    case RequestArrives(id, address, path) => RequestKeeps(s, max, id, address, path);
    case DoneArrives(id, address) =>
      if id in s.table {
        CloseKeeps(s, max, id);
      }
    case Expires(id) =>
      if id in s.table {
        CloseKeeps(s, max, id);
      }
    case Shutdown => ShutdownKeeps(s, max);
  }

  lemma StepKeepsInv(s: State, max: nat, a: Action)
    requires Inv(s, max) && Enabled(s, a)
    ensures Inv(Step(s, max, a), max)
  {
    match a
    case TempFile(ref, created) =>
      if created {
        TempFileKeeps(s, max, ref);
      } else {
        FailKeeps(s, max, s.files, ref);
      }
    case CreateEnds(ref, result) => CreateEndsKeeps(s, max, ref, result);
    case OpenEnds(ref, opens) => OpenEndsKeeps(s, max, ref, opens);
    case Commits(ref) => CommitKeeps(s, max, ref);
    case _ => ServingKeeps(s, max, a);
  }

  // ----- which files are left behind -----

  /** The path for which a file was made. */
  function PathFor(s: State, f: nat): Option<bytes> {
    if f in s.files.maker && s.files.maker[f] in s.objects then s.objects[s.files.maker[f]].path else None
  }

  /** A file is left behind if and only if it was made for a refused request, once its `Create`
      has ended. */
  ghost predicate GuardOk(site: Site, s: State, f: nat) {
    var path := PathFor(s, f);
    && path.Some?
    && (f in s.files.abandoned ==> Refuses(site, path.value))
    && (Refuses(site, path.value) && f !in s.files.abandoned ==>
          Works(s.running, s.files.maker[f], f) && s.running[s.files.maker[f]].Writing?)
  }

  ghost predicate GuardInv(site: Site, s: State) {
    forall f <- s.files.maker :: GuardOk(site, s, f)
  }

  /** Sessions keep their path, files their maker, and no `Create` begins or ends. */
  ghost predicate Leaves(s: State, t: State) {
    && t.files.maker == s.files.maker && t.files.abandoned == s.files.abandoned
    && (forall ref <- s.objects :: ref in t.objects && (s.objects[ref].path.Some? ==> t.objects[ref].path == s.objects[ref].path))
    && (forall ref <- s.running :: s.running[ref].Writing? ==> ref in t.running && t.running[ref] == s.running[ref])
  }

  lemma LeavesGuard(site: Site, s: State, t: State)
    requires GuardInv(site, s) && Leaves(s, t)
    ensures GuardInv(site, t)
  {
    forall f <- t.files.maker ensures GuardOk(site, t, f) {
      assert GuardOk(site, s, f);
    }
  }

  lemma HelloLeaves(s: State, max: nat, id: nat, address: nat, hello: bytes)
    ensures Leaves(s, HandleHello(s, max, id, address, hello))
  {}

  lemma AcceptedLeaves(s: State, max: nat, reply: Option<bytes>)
    requires s.serving.Accepting? && s.nextRef !in s.objects
    ensures Leaves(s, HandleAccepted(s, max, reply))
  {}

  lemma RequestLeaves(s: State, id: nat, address: nat, path: bytes)
    requires forall ref <- s.running :: ref in s.objects && s.objects[ref].path.Some?
    ensures Leaves(s, HandleRequest(s, id, address, path))
  {}

  lemma FailLeaves(s: State, files: Files, ref: nat)
    requires ref in s.objects && (ref in s.running ==> !s.running[ref].Writing?)
    requires files.maker == s.files.maker && files.abandoned == s.files.abandoned
    ensures Leaves(s, FailPreparation(s.(files := files), ref))
  {}

  lemma CommitLeaves(s: State, ref: nat)
    requires ref in s.running && s.running[ref].Holding? && ref in s.objects
    ensures Leaves(s, Commit(s, ref))
  {}

  lemma OpenLeaves(s: State, max: nat, ref: nat, opens: bool)
    requires Inv(s, max) && Enabled(s, OpenEnds(ref, opens))
    ensures Leaves(s, Step(s, max, OpenEnds(ref, opens)))
  {
    FailLeaves(s, s.files.Unlink(s.running[ref].file), ref);
  }

  lemma ServingLeaves(s: State, max: nat, a: Action)
    requires Inv(s, max) && Enabled(s, a)
    requires a.HelloArrives? || a.AcceptEnds? || a.RequestArrives? || a.DoneArrives? || a.Expires? || a.Shutdown?
    ensures Leaves(s, Step(s, max, a))
  {
    match a
    case HelloArrives(id, address, hello) => HelloLeaves(s, max, id, address, hello);
    case AcceptEnds(reply) => AcceptedLeaves(s, max, reply);
    case RequestArrives(id, address, path) => RequestLeaves(s, id, address, path);
    case DoneArrives(id, _) =>
      if id in s.table {
        CloseLeaves(s, id);
      }
    case Expires(id) =>
      if id in s.table {
        CloseLeaves(s, id);
      }
    case Shutdown => CloseAllLeaves(s);
  }

  lemma CloseLeaves(s: State, id: nat)
    requires id in s.table && s.table[id] in s.objects
    ensures Leaves(s, Close(s, id))
  {}

  lemma CloseAllLeaves(s: State)
    ensures Leaves(s, CloseAll(s))
  {}

  /** A new file is being written, for a session that has a path. */
  lemma TempFileKeepsGuard(site: Site, s: State, ref: nat)
    requires Inv(s, site.max) && GuardInv(site, s) && Enabled(s, TempFile(ref, true))
    ensures GuardInv(site, Step(s, site.max, TempFile(ref, true)))
  {
    var t := Step(s, site.max, TempFile(ref, true));
    forall f <- t.files.maker ensures GuardOk(site, t, f) {
      if f in s.files.maker {
        assert GuardOk(site, s, f);
      }
    }
  }

  /** The preparation of `ref` is no longer writing its file, which is left behind exactly if
      it was made for a refused request. */
  lemma EndKeepsGuard(site: Site, s: State, t: State, ref: nat)
    requires GuardInv(site, s) && ref in s.running && s.running[ref].Writing?
    requires ref in s.objects && s.objects[ref].path.Some?
    requires t.objects == s.objects && t.files.maker == s.files.maker
    requires forall r <- s.running :: r != ref ==> r in t.running && t.running[r] == s.running[r]
    requires t.files.abandoned == if Refuses(site, s.objects[ref].path.value)
                                  then s.files.abandoned + {s.running[ref].file} else s.files.abandoned
    requires s.running[ref].file in s.files.maker && s.files.maker[s.running[ref].file] == ref
    ensures GuardInv(site, t)
  {
    forall f <- t.files.maker ensures GuardOk(site, t, f) {
      assert GuardOk(site, s, f);
    }
  }

  lemma CreateEndsKeepsGuard(site: Site, s: State, ref: nat, result: Created)
    requires Inv(s, site.max) && GuardInv(site, s) && Allowed(site, s, CreateEnds(ref, result))
    ensures GuardInv(site, Step(s, site.max, CreateEnds(ref, result)))
  {
    CreateEndsShape(s, site.max, ref, result);
    EndKeepsGuard(site, s, Step(s, site.max, CreateEnds(ref, result)), ref);
  }

  /** The end of `Create` leaves its file behind only by an early error. */
  lemma CreateEndsShape(s: State, max: nat, ref: nat, result: Created)
    requires Enabled(s, CreateEnds(ref, result))
    ensures var t := Step(s, max, CreateEnds(ref, result));
            && t.objects == s.objects && t.files.maker == s.files.maker
            && (forall r <- s.running :: r != ref ==> r in t.running && t.running[r] == s.running[r])
            && t.files.abandoned == if result.EarlyError? then s.files.abandoned + {s.running[ref].file} else s.files.abandoned
  {
    var f := s.running[ref].file;
    match result
    case Success(chunks) =>
    case EarlyError => FailShape(s, s.files.(abandoned := s.files.abandoned + {f}), ref);
    case LateError => FailShape(s, s.files.Unlink(f), ref);
    case TooManyChunks => FailShape(s, s.files.Unlink(f).(created := s.files.created + {f}), ref);
  }

  lemma FailShape(s: State, files: Files, ref: nat)
    requires ref in s.objects
    ensures var t := FailPreparation(s.(files := files), ref);
            && t.objects == s.objects && t.files == files
            && (forall r <- s.running :: r != ref ==> r in t.running && t.running[r] == s.running[r])
  {}

  lemma StepKeepsGuard(site: Site, s: State, a: Action)
    requires Inv(s, site.max) && GuardInv(site, s) && Allowed(site, s, a)
    ensures GuardInv(site, Step(s, site.max, a))
  {
    if a.TempFile? && a.created {
      TempFileKeepsGuard(site, s, a.ref);
    } else if a.CreateEnds? {
      CreateEndsKeepsGuard(site, s, a.ref, a.result);
    } else {
      OtherLeaves(s, site.max, a);
      LeavesGuard(site, s, Step(s, site.max, a));
    }
  }

  lemma OtherLeaves(s: State, max: nat, a: Action)
    requires Inv(s, max) && Enabled(s, a) && !a.CreateEnds? && (a.TempFile? ==> !a.created)
    ensures Leaves(s, Step(s, max, a))
  {
    match a
    case TempFile(ref, _) => FailLeaves(s, s.files, ref);
    case OpenEnds(ref, opens) => OpenLeaves(s, max, ref, opens);
    case Commits(ref) => CommitLeaves(s, ref);
    case _ => ServingLeaves(s, max, a);
  }

  /** The state after a run. An action that is not possible where it stands is skipped. */
  ghost function Run(site: Site, actions: seq<Action>): State {
    if actions == [] then INITIAL
    else
      var s := Run(site, actions[..|actions| - 1]);
      var a := actions[|actions| - 1];
      if Allowed(site, s, a) then Step(s, site.max, a) else s
  }

  lemma {:induction false} RunKeepsInv(site: Site, actions: seq<Action>)
    ensures Inv(Run(site, actions), site.max) && GuardInv(site, Run(site, actions))
  {
    if actions != [] {
      var s, a := Run(site, actions[..|actions| - 1]), actions[|actions| - 1];
      RunKeepsInv(site, actions[..|actions| - 1]);
      if Allowed(site, s, a) {
        StepKeepsInv(s, site.max, a);
        StepKeepsGuard(site, s, a);
      }
    }
  }

  // ----- theorems over all runs -----

  /** At most `max` sessions; at most one preparation and one readying per session; a live
      session that counts chunks has its archive open, on disk and finished. */
  lemma TableIsSafe(site: Site, actions: seq<Action>)
    ensures var s := Run(site, actions);
            && |s.table| <= site.max
            && (forall ref: nat :: s.launched[ref] <= 1 && s.readied[ref] <= 1)
            && (forall id <- s.table :: s.table[id] in s.objects &&
                  var current := s.objects[s.table[id]];
                  && (current.chunks > 0 ==> current.file.Some?)
                  && (current.file.Some? ==>
                        (current.file.value in s.files.handles && current.file.value in s.files.disk
                         && current.file.value in s.files.created)))
  {
    RunKeepsInv(site, actions);
    var s := Run(site, actions);
    forall id <- s.table | s.objects[s.table[id]].file.Some?
      ensures var f := s.objects[s.table[id]].file.value;
              f in s.files.handles && f in s.files.disk && f in s.files.created
    {
      var f := s.objects[s.table[id]].file.value;
      assert FileOk(s.table, s.objects, s.running, s.files, s.table[id], f);
    }
  }

  predicate Owns(s: State, ref: nat, f: nat) {
    Works(s.running, ref, f) || Keeps(s.table, s.objects, ref, f)
  }

  /** Every archive `Create` finished is owned by the one running preparation or the one live
      session it was made for, and then it is on disk, or it is closed and removed. */
  lemma ArchivesAreOwned(site: Site, actions: seq<Action>, f: nat)
    requires f in Run(site, actions).files.created
    ensures var s := Run(site, actions);
            && f in s.files.maker
            && (forall ref: nat :: Owns(s, ref, f) ==> ref == s.files.maker[f])
            && !(Works(s.running, s.files.maker[f], f) && Keeps(s.table, s.objects, s.files.maker[f], f))
            && (f in s.files.disk <==> Owns(s, s.files.maker[f], f))
            && (f in s.files.handles ==> Owns(s, s.files.maker[f], f))
  {
    RunKeepsInv(site, actions);
    var s := Run(site, actions);
    assert FileOk(s.table, s.objects, s.running, s.files, s.files.maker[f], f);
  }

  /** Once nothing is running and no session lives, no handle is open, and a temporary file is
      still on disk if and only if it was made for a request that `Create` refuses. */
  lemma WhatIsLeftBehind(site: Site, actions: seq<Action>)
    requires var s := Run(site, actions); s.table == map[] && s.running == map[]
    ensures var s := Run(site, actions);
            && s.files.handles == {} && s.files.disk <= s.files.maker.Keys
            && (forall f <- s.files.maker :: PathFor(s, f).Some?
                  && (f in s.files.disk <==> Refuses(site, PathFor(s, f).value)))
  {
    RunKeepsInv(site, actions);
    var s := Run(site, actions);
    forall f <- s.files.maker
      ensures f !in s.files.handles && PathFor(s, f).Some?
      ensures f in s.files.disk <==> Refuses(site, PathFor(s, f).value)
    {
      assert FileOk(s.table, s.objects, s.running, s.files, s.files.maker[f], f);
      assert GuardOk(site, s, f);
    }
  }

  lemma RunSnoc(site: Site, actions: seq<Action>, a: Action)
    ensures var s := Run(site, actions);
            Run(site, actions + [a]) == if Allowed(site, s, a) then Step(s, site.max, a) else s
  {
    assert (actions + [a])[..|actions|] == actions;
  }

  /** The path `..` */
  const DOTS: bytes := [46, 46]

  /** It is a path a client can ask for, and one that every site refuses. */
  lemma DotsAreRefused(site: Site, utf8: bytes -> bool, id: Codec.RequestID)
    ensures Refuses(site, DOTS)
    ensures utf8(DOTS) ==>
              var d := Codec.Encode(utf8, id, Codec.Request(DOTS));
              d.Ok? && Codec.Decode(utf8, Codec.RequestType, d.value) == Ok((id, Codec.Request(DOTS)))
  {
    assert Text(DOTS) == "..";
    Paths.SplitOne("..");
    assert Paths.CleanParts([".."]) == [".."] by {
      assert [".."][..0] == [];
      assert Paths.CleanParts([]) == [];
      assert [] + [".."] == [".."];
    }
    assert Paths.Clean("..") == "..";
    if utf8(DOTS) {
      Codec.DecodeInvertsEncode(utf8, id, Codec.Request(DOTS));
    }
  }

  /** The run of one client up to its request. */
  function OneRequest(hello: bytes, reply: bytes, path: bytes): seq<Action> {
    [] + [HelloArrives(7, 1, hello)] + [AcceptEnds(Some(reply))] + [RequestArrives(7, 1, path)]
  }

  lemma AcceptStep(max: nat, s: State, hello: bytes, reply: bytes)
    requires max > 0 && s == INITIAL.(serving := Accepting(7, 1, hello))
    ensures var t := HandleAccepted(s, max, Some(reply));
            && t.serving.Idle? && t.table == map[7 := 0] && t.running == map[] && t.files == INITIAL.files
            && t.objects == map[0 := Session(7, 1, hello, reply, None, false, 0, None)]
  {}

  lemma RequestStep(s: State, hello: bytes, reply: bytes, path: bytes)
    requires s.serving.Idle? && s.table == map[7 := 0] && s.running == map[] && s.files == INITIAL.files
    requires s.objects == map[0 := Session(7, 1, hello, reply, None, false, 0, None)] && path != []
    ensures var t := HandleRequest(s, 7, 1, path);
            && t.table == map[7 := 0] && t.running == map[0 := Starting] && t.files == INITIAL.files
            && 0 in t.objects && t.objects[0].id == 7 && t.objects[0].path == Some(path)
  {}

  lemma OneRequestPrepares(site: Site, hello: bytes, reply: bytes, path: bytes)
    requires site.max > 0 && path != []
    ensures var s := Run(site, OneRequest(hello, reply, path));
            && s.table == map[7 := 0] && s.running == map[0 := Starting] && s.files == INITIAL.files
            && 0 in s.objects && s.objects[0].id == 7 && s.objects[0].path == Some(path)
  {
    HelloRun(site, hello);
    var first := [] + [HelloArrives(7, 1, hello)];
    GreetingRun(site, hello, reply, first);
    RequestRun(site, hello, reply, path, first + [AcceptEnds(Some(reply))]);
  }

  lemma GreetingRun(site: Site, hello: bytes, reply: bytes, before: seq<Action>)
    requires site.max > 0 && Run(site, before) == INITIAL.(serving := Accepting(7, 1, hello))
    ensures var s := Run(site, before + [AcceptEnds(Some(reply))]);
            && s.serving.Idle? && s.table == map[7 := 0] && s.running == map[] && s.files == INITIAL.files
            && s.objects == map[0 := Session(7, 1, hello, reply, None, false, 0, None)]
  {
    RunSnoc(site, before, AcceptEnds(Some(reply)));
    AcceptStep(site.max, Run(site, before), hello, reply);
  }

  lemma RequestRun(site: Site, hello: bytes, reply: bytes, path: bytes, before: seq<Action>)
    requires path != []
    requires var s := Run(site, before);
             && s.serving.Idle? && s.table == map[7 := 0] && s.running == map[] && s.files == INITIAL.files
             && s.objects == map[0 := Session(7, 1, hello, reply, None, false, 0, None)]
    ensures var s := Run(site, before + [RequestArrives(7, 1, path)]);
            && s.table == map[7 := 0] && s.running == map[0 := Starting] && s.files == INITIAL.files
            && 0 in s.objects && s.objects[0].id == 7 && s.objects[0].path == Some(path)
  {
    RunSnoc(site, before, RequestArrives(7, 1, path));
    RequestIsStep(site, Run(site, before), path);
    RequestStep(Run(site, before), hello, reply, path);
  }

  lemma RequestIsStep(site: Site, s: State, path: bytes)
    requires s.serving.Idle?
    ensures Allowed(site, s, RequestArrives(7, 1, path))
    ensures Step(s, site.max, RequestArrives(7, 1, path)) == HandleRequest(s, 7, 1, path)
  {}

  lemma HelloRun(site: Site, hello: bytes)
    requires site.max > 0
    ensures Run(site, [] + [HelloArrives(7, 1, hello)]) == INITIAL.(serving := Accepting(7, 1, hello))
  {
    RunSnoc(site, [], HelloArrives(7, 1, hello));
  }

  lemma TempFileStep(max: nat, s: State)
    requires s.running == map[0 := Starting] && s.files == INITIAL.files && 0 in s.objects
    ensures Enabled(s, TempFile(0, true))
    ensures var t := Step(s, max, TempFile(0, true));
            t == s.(running := map[0 := Writing(0)], files := Files({0}, {}, {}, {}, map[0 := 0], 1))
  {}

  lemma EarlyErrorStep(max: nat, s: State)
    requires s.running == map[0 := Writing(0)] && s.files == Files({0}, {}, {}, {}, map[0 := 0], 1)
    requires s.table == map[7 := 0] && 0 in s.objects && s.objects[0].id == 7
    ensures Enabled(s, CreateEnds(0, EarlyError))
    ensures var t := Step(s, max, CreateEnds(0, EarlyError));
            t.table == map[] && t.running == map[] && t.files.disk == {0}
  {
    assert s.table - {7} == map[];
    assert s.running - {0} == map[];
  }

  /** One request for a refused path leaves its temporary file, on any site and for any such path. */
  lemma EarlyErrorLeavesItsFile(site: Site, hello: bytes, reply: bytes, path: bytes)
    requires site.max > 0 && path != [] && Refuses(site, path)
    ensures var s := Run(site, OneRequest(hello, reply, path) + [TempFile(0, true)] + [CreateEnds(0, EarlyError)]);
            s.table == map[] && s.running == map[] && s.files.disk == {0}
  {
    var before := OneRequest(hello, reply, path);
    OneRequestPrepares(site, hello, reply, path);
    RunSnoc(site, before, TempFile(0, true));
    TempFileStep(site.max, Run(site, before));
    RunSnoc(site, before + [TempFile(0, true)], CreateEnds(0, EarlyError));
    EarlyErrorStep(site.max, Run(site, before + [TempFile(0, true)]));
  }

  /** So does asking for `..`. */
  lemma DotsLeaveTheirFile(site: Site, hello: bytes, reply: bytes)
    requires site.max > 0
    ensures var s := Run(site, OneRequest(hello, reply, DOTS) + [TempFile(0, true)] + [CreateEnds(0, EarlyError)]);
            s.table == map[] && s.running == map[] && s.files.disk == {0}
  {
    DotsAreRefused(site, _ => false, Zeros());
    EarlyErrorLeavesItsFile(site, hello, reply, DOTS);
  }

  function Zeros(): Codec.RequestID {
    [0, 0, 0, 0, 0, 0, 0, 0, 0, 0, 0, 0, 0, 0, 0, 0]
  }

  /** A hello repeated from the same address is answered, while the session lives, with the
      very bytes of every earlier answer. */
  lemma RepeatedHelloSameReply(site: Site, actions: seq<Action>, id: nat)
    requires var s := Run(site, actions); s.serving.Idle? && id in s.table
    ensures var s := Run(site, actions);
            s.table[id] in s.objects &&
            var current := s.objects[s.table[id]];
            var t := Run(site, actions + [HelloArrives(id, current.address, current.hello)]);
            && t == s.(replies := s.replies + [(s.table[id], current.reply)])
            && (forall k | 0 <= k < |s.replies| :: s.replies[k].0 == s.table[id] ==> s.replies[k].1 == current.reply)
  {
    RunKeepsInv(site, actions);
    var s := Run(site, actions);
    var current := s.objects[s.table[id]];
    RunSnoc(site, actions, HelloArrives(id, current.address, current.hello));
  }
}
