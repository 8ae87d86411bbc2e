/** What a run of the session table leaves behind it: a session keeps who it is for and what it
    answered, and the archive it is given has the chunks that were counted when it was made. */
module SessionHistory {
  import opened Bytes
  import opened SessionTable

  // ----- sessions keep what they have -----

  /** The same session, possibly further along. */
  ghost predicate Same(a: Session, b: Session) {
    && a.id == b.id && a.address == b.address && a.hello == b.hello && a.reply == b.reply
    && (a.path.Some? ==> b.path == a.path)
    && (a.file.Some? ==> b.file == a.file && b.chunks == a.chunks)
  }

  ghost predicate AllSame(s: State, t: State) {
    forall ref <- s.objects :: ref in t.objects && Same(s.objects[ref], t.objects[ref])
  }

  lemma StepKeepsSessions(s: State, max: nat, a: Action)
    requires Inv(s, max) && Enabled(s, a)
    ensures AllSame(s, Step(s, max, a))
  {
    match a
    case AcceptEnds(reply) => AcceptedSame(s, max, reply);
    case RequestArrives(id, address, path) => RequestSame(s, id, address, path);
    case Commits(ref) => CommitSame(s, ref);
    case _ => OtherSame(s, max, a);
  }

  lemma AcceptedSame(s: State, max: nat, reply: Option<bytes>)
    requires s.serving.Accepting? && s.nextRef !in s.objects
    ensures AllSame(s, HandleAccepted(s, max, reply))
  {}

  lemma RequestSame(s: State, id: nat, address: nat, path: bytes)
    ensures AllSame(s, HandleRequest(s, id, address, path))
  {}

  lemma CommitSame(s: State, ref: nat)
    requires ref in s.running && s.running[ref].Holding? && ref in s.objects && s.objects[ref].file.None?
    ensures AllSame(s, Commit(s, ref))
  {}

  lemma FailSame(s: State, files: Files, ref: nat)
    requires ref in s.objects
    ensures FailPreparation(s.(files := files), ref).objects == s.objects
  {}

  lemma CreateEndsSame(s: State, max: nat, ref: nat, result: Created)
    requires Enabled(s, CreateEnds(ref, result))
    ensures Step(s, max, CreateEnds(ref, result)).objects == s.objects
  {
    CreateEndsShape(s, max, ref, result);
  }

  lemma OpenSame(s: State, max: nat, ref: nat, opens: bool)
    requires Enabled(s, OpenEnds(ref, opens))
    ensures Step(s, max, OpenEnds(ref, opens)).objects == s.objects
  {
    FailSame(s, s.files.Unlink(s.running[ref].file), ref);
  }

  lemma TempFileSame(s: State, max: nat, ref: nat, created: bool)
    requires Enabled(s, TempFile(ref, created))
    ensures Step(s, max, TempFile(ref, created)).objects == s.objects
  {
    FailSame(s, s.files, ref);
  }

  lemma OtherSame(s: State, max: nat, a: Action)
    requires Enabled(s, a) && !a.AcceptEnds? && !a.RequestArrives? && !a.Commits?
    ensures Step(s, max, a).objects == s.objects
  {
    match a
    case TempFile(ref, created) => TempFileSame(s, max, ref, created);
    case CreateEnds(ref, result) => CreateEndsSame(s, max, ref, result);
    case OpenEnds(ref, opens) => OpenSame(s, max, ref, opens);
    case _ => ServingSame(s, max, a);
  }

  lemma ServingSame(s: State, max: nat, a: Action)
    requires Enabled(s, a) && (a.HelloArrives? || a.DoneArrives? || a.Expires? || a.Shutdown?)
    ensures Step(s, max, a).objects == s.objects
  {}

  lemma SameTwice(s: State, t: State, u: State)
    requires AllSame(s, t) && AllSame(t, u)
    ensures AllSame(s, u)
  {}

  lemma RunStepSame(site: Site, before: seq<Action>, a: Action)
    ensures AllSame(Run(site, before), Run(site, before + [a]))
  {
    RunSnoc(site, before, a);
    RunKeepsInv(site, before);
    if Allowed(site, Run(site, before), a) {
      StepKeepsSessions(Run(site, before), site.max, a);
    }
  }

  /** In every run a session keeps its identifier, its address, its hello and its reply, and,
      once it has them, its path, its archive and its chunk count. */
  lemma {:induction false} SessionsKeep(site: Site, before: seq<Action>, after: seq<Action>)
    ensures AllSame(Run(site, before), Run(site, before + after))
  {
    if after == [] {
      assert before + after == before;
    } else {
      var some, a := after[..|after| - 1], after[|after| - 1];
      SessionsKeep(site, before, some);
      assert before + after == (before + some) + [a];
      RunStepSame(site, before + some, a);
      SameTwice(Run(site, before), Run(site, before + some), Run(site, before + after));
    }
  }

  /** The hello that made a session, repeated from its address at any later time while the
      session lives, gets the reply the session was made with, and changes nothing else. */
  lemma FirstReplyAgain(site: Site, before: seq<Action>, reply: bytes, after: seq<Action>)
    requires var s := Run(site, before);
             && s.serving.Accepting? && s.serving.id !in s.table
             && var made := Run(site, before + [AcceptEnds(Some(reply))]);
             && s.serving.id in made.table
             && var t := Run(site, before + [AcceptEnds(Some(reply))] + after);
             && t.serving.Idle? && s.serving.id in t.table && t.table[s.serving.id] == made.table[s.serving.id]
    ensures var hello := Run(site, before).serving;
            var t := Run(site, before + [AcceptEnds(Some(reply))] + after);
            Run(site, before + [AcceptEnds(Some(reply))] + after + [HelloArrives(hello.id, hello.address, hello.hello)])
            == t.(replies := t.replies + [(t.table[hello.id], reply)])
  {
    var hello := Run(site, before).serving;
    var accept := before + [AcceptEnds(Some(reply))];
    RunSnoc(site, before, AcceptEnds(Some(reply)));
    SessionsKeep(site, accept, after);
    var made := Run(site, accept);
    var ref := made.table[hello.id];
    assert ref in made.objects && made.objects[ref].reply == reply
        && made.objects[ref].address == hello.address && made.objects[ref].hello == hello.hello;
    RepeatedHelloSameReply(site, accept + after, hello.id);
  }

  // ----- the chunks that were counted -----

  /** The action ends the `Create` of archive `f`, with `chunks` chunks. */
  ghost predicate Finishes(site: Site, s: State, a: Action, f: nat, chunks: nat) {
    a.CreateEnds? && a.result == Success(chunks) && Allowed(site, s, a) && s.running[a.ref] == Writing(f)
  }

  /** Step `k` of the run ends the `Create` of archive `f`, with `chunks` chunks. */
  ghost predicate CreatedAt(site: Site, actions: seq<Action>, k: nat, f: nat, chunks: nat) {
    k < |actions| && Finishes(site, Run(site, actions[..k]), actions[k], f, chunks)
  }

  ghost predicate WasCreated(site: Site, actions: seq<Action>, f: nat, chunks: nat) {
    exists k: nat :: CreatedAt(site, actions, k, f, chunks)
  }

  /** The count with which each archive was finished. */
  ghost function Counts(site: Site, actions: seq<Action>): map<nat, nat> {
    if actions == [] then map[]
    else
      var before := actions[..|actions| - 1];
      Counted(Run(site, before), site, actions[|actions| - 1], Counts(site, before))
  }

  ghost function Counted(s: State, site: Site, a: Action, counts: map<nat, nat>): map<nat, nat> {
    if a.CreateEnds? && a.result.Success? && Allowed(site, s, a)
    then counts[s.running[a.ref].file := a.result.chunks]
    else counts
  }

  /** Every archive in hand has the count it was finished with. */
  ghost predicate CountsInv(s: State, counts: map<nat, nat>) {
    && counts.Keys <= s.files.created
    && (forall ref <- s.running :: s.running[ref].Written? || s.running[ref].Holding? ==>
          s.running[ref].file in counts && counts[s.running[ref].file] == s.running[ref].chunks)
    && (forall ref <- s.objects :: s.objects[ref].file.Some? ==>
          s.objects[ref].file.value in counts && counts[s.objects[ref].file.value] == s.objects[ref].chunks)
  }

  /** Nothing in `t` has an archive that was not in hand in `s`, with the same count. */
  ghost predicate HandsOn(s: State, t: State) {
    && s.files.created <= t.files.created
    && (forall ref <- t.running :: t.running[ref].Written? || t.running[ref].Holding? ==>
          && ref in s.running && (s.running[ref].Written? || s.running[ref].Holding?)
          && t.running[ref].file == s.running[ref].file && t.running[ref].chunks == s.running[ref].chunks)
    && (forall ref <- t.objects :: t.objects[ref].file.Some? ==>
          || (ref in s.objects && t.objects[ref].file == s.objects[ref].file && t.objects[ref].chunks == s.objects[ref].chunks)
          || (ref in s.running && s.running[ref].Holding?
              && t.objects[ref].file == Some(s.running[ref].file) && t.objects[ref].chunks == s.running[ref].chunks))
  }

  lemma HandsOnKeeps(s: State, t: State, counts: map<nat, nat>)
    requires CountsInv(s, counts) && HandsOn(s, t)
    ensures CountsInv(t, counts)
  {}

  lemma FailHandsOn(s: State, files: Files, ref: nat)
    requires ref in s.objects && s.files.created <= files.created
    ensures HandsOn(s, FailPreparation(s.(files := files), ref))
  {}

  lemma OpenHandsOn(s: State, max: nat, ref: nat, opens: bool)
    requires Enabled(s, OpenEnds(ref, opens))
    ensures HandsOn(s, Step(s, max, OpenEnds(ref, opens)))
  {
    if !opens {
      FailHandsOn(s, s.files.Unlink(s.running[ref].file), ref);
    }
  }

  lemma CommitHandsOn(s: State, ref: nat)
    requires ref in s.running && s.running[ref].Holding? && ref in s.objects
    ensures HandsOn(s, Commit(s, ref))
  {}

  lemma RequestHandsOn(s: State, id: nat, address: nat, path: bytes)
    ensures HandsOn(s, HandleRequest(s, id, address, path))
  {}

  lemma AcceptedHandsOn(s: State, max: nat, reply: Option<bytes>)
    requires s.serving.Accepting?
    ensures HandsOn(s, HandleAccepted(s, max, reply))
  {}

  lemma TempFileHandsOn(s: State, max: nat, ref: nat, created: bool)
    requires Enabled(s, TempFile(ref, created))
    ensures HandsOn(s, Step(s, max, TempFile(ref, created)))
  {
    if !created {
      FailHandsOn(s, s.files, ref);
    }
  }

  lemma ServingHandsOn(s: State, max: nat, a: Action)
    requires Enabled(s, a) && (a.HelloArrives? || a.DoneArrives? || a.Expires? || a.Shutdown?)
    ensures HandsOn(s, Step(s, max, a))
  {}

  lemma StepHandsOn(s: State, max: nat, a: Action)
    requires Enabled(s, a) && !(a.CreateEnds? && a.result.Success?)
    ensures HandsOn(s, Step(s, max, a))
  {
    match a
    case AcceptEnds(reply) => AcceptedHandsOn(s, max, reply);
    case RequestArrives(id, address, path) => RequestHandsOn(s, id, address, path);
    case TempFile(ref, created) => TempFileHandsOn(s, max, ref, created);
    case OpenEnds(ref, opens) => OpenHandsOn(s, max, ref, opens);
    case Commits(ref) => CommitHandsOn(s, ref);
    case CreateEnds(ref, result) => ErrorHandsOn(s, max, ref, result);
    case _ => ServingHandsOn(s, max, a);
  }

  lemma ErrorHandsOn(s: State, max: nat, ref: nat, result: Created)
    requires Enabled(s, CreateEnds(ref, result)) && !result.Success?
    ensures HandsOn(s, Step(s, max, CreateEnds(ref, result)))
  {
    var f := s.running[ref].file;
    match result
    case EarlyError => FailHandsOn(s, s.files.(abandoned := s.files.abandoned + {f}), ref);
    case LateError => FailHandsOn(s, s.files.Unlink(f), ref);
    case TooManyChunks => FailHandsOn(s, s.files.Unlink(f).(created := s.files.created + {f}), ref);
  }

  /** A file that is being written has no count yet and nobody else has it. */
  lemma WritingIsFresh(s: State, max: nat, ref: nat)
    requires Inv(s, max) && ref in s.running && s.running[ref].Writing?
    ensures var f := s.running[ref].file;
            && f !in s.files.created
            && (forall r <- s.running :: r != ref && !s.running[r].Starting? ==> s.running[r].file != f)
            && (forall r <- s.objects :: s.objects[r].file != Some(f))
  {
    var f := s.running[ref].file;
    assert FileOk(s.table, s.objects, s.running, s.files, s.files.maker[f], f);
    assert Works(s.running, ref, f);
  }

  lemma SuccessKeepsCounts(s: State, max: nat, ref: nat, chunks: nat, counts: map<nat, nat>)
    requires Inv(s, max) && ref in s.running && s.running[ref].Writing? && CountsInv(s, counts)
    ensures CountsInv(Step(s, max, CreateEnds(ref, Success(chunks))), counts[s.running[ref].file := chunks])
  {
    WritingIsFresh(s, max, ref);
  }

  lemma StepKeepsCounts(site: Site, s: State, a: Action, counts: map<nat, nat>)
    requires Inv(s, site.max) && Allowed(site, s, a) && CountsInv(s, counts)
    ensures CountsInv(Step(s, site.max, a), Counted(s, site, a, counts))
  {
    if a.CreateEnds? && a.result.Success? {
      SuccessKeepsCounts(s, site.max, a.ref, a.result.chunks, counts);
    } else {
      StepHandsOn(s, site.max, a);
      HandsOnKeeps(s, Step(s, site.max, a), counts);
    }
  }

  lemma CountsSnoc(site: Site, before: seq<Action>, a: Action)
    ensures Counts(site, before + [a]) == Counted(Run(site, before), site, a, Counts(site, before))
  {
    assert (before + [a])[..|before|] == before;
  }

  lemma {:induction false} CountsHold(site: Site, actions: seq<Action>)
    ensures CountsInv(Run(site, actions), Counts(site, actions))
  {
    if actions != [] {
      var before, a := actions[..|actions| - 1], actions[|actions| - 1];
      CountsHold(site, before);
      assert before + [a] == actions;
      RunCounts(site, before, a);
    }
  }

  lemma RunCounts(site: Site, before: seq<Action>, a: Action)
    requires CountsInv(Run(site, before), Counts(site, before))
    ensures CountsInv(Run(site, before + [a]), Counts(site, before + [a]))
  {
    RunSnoc(site, before, a);
    RunKeepsInv(site, before);
    CountsSnoc(site, before, a);
    if Allowed(site, Run(site, before), a) {
      StepKeepsCounts(site, Run(site, before), a, Counts(site, before));
    }
  }

  lemma CreatedEarlier(site: Site, before: seq<Action>, a: Action, k: nat, f: nat, chunks: nat)
    requires k < |before|
    ensures CreatedAt(site, before + [a], k, f, chunks) <==> CreatedAt(site, before, k, f, chunks)
  {
    assert (before + [a])[..k] == before[..k];
  }

  lemma CreatedLast(site: Site, before: seq<Action>, a: Action, f: nat, chunks: nat)
    ensures CreatedAt(site, before + [a], |before|, f, chunks)
       <==> Finishes(site, Run(site, before), a, f, chunks)
  {
    assert (before + [a])[..|before|] == before;
  }

  lemma CreatedSnoc(site: Site, before: seq<Action>, a: Action, f: nat, chunks: nat)
    ensures WasCreated(site, before + [a], f, chunks)
       <==> WasCreated(site, before, f, chunks) || CreatedAt(site, before + [a], |before|, f, chunks)
  {
    if WasCreated(site, before, f, chunks) {
      var k: nat :| CreatedAt(site, before, k, f, chunks);
      CreatedEarlier(site, before, a, k, f, chunks);
    }
    if WasCreated(site, before + [a], f, chunks) {
      var k: nat :| CreatedAt(site, before + [a], k, f, chunks);
      if k < |before| {
        CreatedEarlier(site, before, a, k, f, chunks);
      }
    }
  }

  lemma CountedIs(site: Site, s: State, a: Action, counts: map<nat, nat>, f: nat, chunks: nat)
    requires Inv(s, site.max) && CountsInv(s, counts)
    ensures var more := Counted(s, site, a, counts);
            (f in more && more[f] == chunks)
            <==> (f in counts && counts[f] == chunks) || Finishes(site, s, a, f, chunks)
  {
    if a.CreateEnds? && a.result.Success? && Allowed(site, s, a) {
      WritingIsFresh(s, site.max, a.ref);
    }
  }

  /** The counts are those of the successes of the run, and each archive has one. */
  lemma {:induction false} CountsAreCreated(site: Site, actions: seq<Action>, f: nat, chunks: nat)
    ensures f in Counts(site, actions) && Counts(site, actions)[f] == chunks <==> WasCreated(site, actions, f, chunks)
  {
    if actions != [] {
      var before, a := actions[..|actions| - 1], actions[|actions| - 1];
      assert before + [a] == actions;
      CountsAreCreated(site, before, f, chunks);
      CreatedSnoc(site, before, a, f, chunks);
      CreatedLast(site, before, a, f, chunks);
      CountsHold(site, before);
      RunKeepsInv(site, before);
      CountsSnoc(site, before, a);
      CountedIs(site, Run(site, before), a, Counts(site, before), f, chunks);
    }
  }

  /** A live session with an archive has exactly the chunks with which `Create` finished that
      archive: it did so in this run, and never with another count. */
  lemma ChunksAreCounted(site: Site, actions: seq<Action>, id: nat, chunks: nat)
    requires var s := Run(site, actions); id in s.table && s.table[id] in s.objects && s.objects[s.table[id]].file.Some?
    ensures var s := Run(site, actions);
            var current := s.objects[s.table[id]];
            WasCreated(site, actions, current.file.value, chunks) <==> chunks == current.chunks
  {
    CountsHold(site, actions);
    CountsAreCreated(site, actions, Run(site, actions).objects[Run(site, actions).table[id]].file.value, chunks);
  }

  // ----- a preparation that succeeds -----

  /** The four stretches of a preparation in which nothing fails. */
  function Preparing(ref: nat, chunks: nat): seq<Action> {
    [TempFile(ref, true), CreateEnds(ref, Success(chunks)), OpenEnds(ref, true), Commits(ref)]
  }

  /** The session `ref` of `s` has become ready: it has a new archive of this many chunks, open
      and on disk, it no longer prepares, and every other session is as it was. */
  ghost predicate MadeReady(s: State, t: State, ref: nat, chunks: nat) {
    && t.table == s.table && t.running == s.running - {ref} && t.objects.Keys == s.objects.Keys
    && (forall r <- s.objects :: r != ref ==> t.objects[r] == s.objects[r])
    && ref in s.objects
    && var current := t.objects[ref];
       && current.id == s.objects[ref].id && current.address == s.objects[ref].address
       && current.path == s.objects[ref].path && !current.preparing && current.chunks == chunks
       && current.file.Some? && current.file.value !in s.files.disk
       && t.files.disk == s.files.disk + {current.file.value}
       && t.files.handles == s.files.handles + {current.file.value}
  }

  lemma FourSteps(site: Site, before: seq<Action>, ref: nat, chunks: nat) returns (t: State)
    requires var s := Run(site, before);
             && Runs(s, ref) && s.running[ref].Starting? && IsLive(s.table, s.objects, ref)
             && s.objects[ref].path.Some? && !Refuses(site, s.objects[ref].path.value)
    ensures t == Run(site, before + [TempFile(ref, true)] + [CreateEnds(ref, Success(chunks))]
                           + [OpenEnds(ref, true)] + [Commits(ref)])
    ensures var s := Run(site, before);
            var f := s.files.next;
            && t.table == s.table && t.running == s.running - {ref}
            && t.objects == s.objects[ref := s.objects[ref].(preparing := false, file := Some(f), chunks := chunks)]
            && t.files.disk == s.files.disk + {f} && t.files.handles == s.files.handles + {f}
  {
    var made := before + [TempFile(ref, true)];
    var written := made + [CreateEnds(ref, Success(chunks))];
    var held := written + [OpenEnds(ref, true)];
    RunSnoc(site, before, TempFile(ref, true));
    RunSnoc(site, made, CreateEnds(ref, Success(chunks)));
    RunSnoc(site, written, OpenEnds(ref, true));
    RunSnoc(site, held, Commits(ref));
    t := Run(site, held + [Commits(ref)]);
  }

  lemma NextIsNew(site: Site, before: seq<Action>)
    ensures var files := Run(site, before).files; files.next !in files.disk
  {
    RunKeepsInv(site, before);
  }

  /** Whatever happened before, a preparation for a live session and a path that is not refused,
      in which nothing fails, makes that session ready with the chunks `Create` counted. */
  lemma PreparationMakesReady(site: Site, before: seq<Action>, ref: nat, chunks: nat)
    requires var s := Run(site, before);
             && Runs(s, ref) && s.running[ref].Starting? && IsLive(s.table, s.objects, ref)
             && s.objects[ref].path.Some? && !Refuses(site, s.objects[ref].path.value)
    ensures MadeReady(Run(site, before), Run(site, before + Preparing(ref, chunks)), ref, chunks)
  {
    NextIsNew(site, before);
    var t := FourSteps(site, before, ref, chunks);
    assert before + Preparing(ref, chunks)
        == before + [TempFile(ref, true)] + [CreateEnds(ref, Success(chunks))] + [OpenEnds(ref, true)] + [Commits(ref)];
  }

  /** On every site with room, for every path it does not refuse, one client's request whose
      preparation succeeds ends with that session live and ready to serve its chunks. */
  lemma OneRequestIsServed(site: Site, hello: bytes, reply: bytes, path: bytes, chunks: nat)
    requires site.max > 0 && path != [] && !Refuses(site, path)
    ensures var s := Run(site, OneRequest(hello, reply, path) + Preparing(0, chunks));
            && s.table == map[7 := 0] && s.running == map[] && 0 in s.objects
            && var current := s.objects[0];
               && current.id == 7 && current.path == Some(path) && !current.preparing && current.chunks == chunks
               && current.file.Some? && s.files.disk == s.files.handles == {current.file.value}
  {
    var before := OneRequest(hello, reply, path);
    OneRequestPrepares(site, hello, reply, path);
    assert Run(site, before).table[7] == 0;
    PreparationMakesReady(site, before, 0, chunks);
    assert map[0 := Starting] - {0} == map[];
  }
}
