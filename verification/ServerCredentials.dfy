/** internal/appconfig/automatic.go: `LoadOrCreateDefaultServerCredentials` under a lock, where
    any caller may be killed before any file-system call. */
module ServerCredentials {
  import opened Bytes

  /** A private key stands for its pair; a public key file names the pair it belongs to. */
  type Key = bytes

  /** `credentials.json` holds the secret; each file is there whole or not at all. */
  datatype Folder = Folder(privateKey: Option<Key>, publicKey: Option<Key>, secret: Option<bytes>)

  /** What stands at the final path. */
  datatype Place = Absent | NotADirectory | Present(folder: Folder)

  datatype Credentials = Credentials(secret: bytes, identity: Key)

  /** What a caller would generate. */
  datatype Material = Material(key: Key, secret: bytes)

  /** `loadDefaultServerCredentials` when nothing goes wrong with the files themselves. */
  function Load(f: Folder): Result<Credentials> {
    if f.secret.None? then Err("no credentials.json")
    else if |f.secret.value| != 32 then Err("load automatic shared secret")
    else if f.privateKey.None? || f.publicKey.None? then Err("missing key")
    else if f.privateKey != f.publicKey then Err("automatic server public key does not match private key")
    else Ok(Credentials(f.secret.value, f.privateKey.value))
  }

  /** The file-system call a caller is about to make. */
  datatype Point =
    | Inspecting
    | Securing
    | Checking
    | Loading(created: bool)
    | Removing
    | SyncingRemoval
    | MakingStage
    | SecuringStage
    | MakingKeys
    | WritingState(stage: Folder)
    | SyncingStage(stage: Folder)
    | Renaming(stage: Folder)
    | LoadingOther
    | SyncingPublished
    | Ended(outcome: Outcome)

  datatype Outcome = Returned(credentials: Credentials, created: bool) | Failed(error: string) | Killed

  /** Which files a removal that did not end has spared. */
  datatype Spared = Spared(privateKey: bool, publicKey: bool, secret: bool)

  /** What becomes of a call: it works, it reports an error, or the process dies in it. */
  datatype Fate = Works | Breaks(spared: Spared) | Dies(spared: Spared)

  function Remains(f: Folder, spared: Spared): Folder {
    Folder(if spared.privateKey then f.privateKey else None,
           if spared.publicKey then f.publicKey else None,
           if spared.secret then f.secret else None)
  }

  /** A removal that did not end leaves part of the directory; no other call leaves a part of
      anything at the final path. */
  function Interrupted(place: Place, point: Point, spared: Spared): Place {
    if point.Removing? && place.Present? then Present(Remains(place.folder, spared)) else place
  }

  function LoadEnds(place: Place, created: bool): Outcome {
    if !place.Present? then Failed("no credentials.json")
    else
      match Load(place.folder)
      case Ok(c) => Returned(c, created)
      case Err(e) => Failed(e)
  }

  /** The call at `point` works. */
  function Works1(place: Place, point: Point, m: Material): (Place, Point)
    requires !point.Ended?
  {
    match point
    case Inspecting =>
      (place, match place
              case Absent => MakingStage
              case NotADirectory => Ended(Failed("must be a directory"))
              case Present(_) => Securing)
    case Securing => (place, Checking)
    case Checking => (place, if place.Present? && place.folder.secret.Some? then Loading(false) else Removing)
    case Loading(created) => (place, Ended(LoadEnds(place, created)))
    case Removing => (Absent, SyncingRemoval)
    case SyncingRemoval => (place, MakingStage)
    case MakingStage => (place, SecuringStage)
    case SecuringStage => (place, MakingKeys)
    case MakingKeys => (place, WritingState(Folder(Some(m.key), Some(m.key), None)))
    case WritingState(stage) => (place, SyncingStage(stage.(secret := Some(m.secret))))
    case SyncingStage(stage) => (place, Renaming(stage))
    case Renaming(stage) => if place.Absent? then (Present(stage), SyncingPublished) else (place, LoadingOther)
    case LoadingOther =>
      (place, Ended(if LoadEnds(place, false).Returned? then LoadEnds(place, false) else Failed("publish")))
    case SyncingPublished => (place, Loading(true))
  }

  /** One call; a failing rename still tries to load what another may have published. */
  function Advance(place: Place, point: Point, m: Material, fate: Fate): (Place, Point)
    requires !point.Ended?
  {
    match fate
    case Works => Works1(place, point, m)
    case Breaks(spared) =>
      (Interrupted(place, point, spared), if point.Renaming? then LoadingOther else Ended(Failed("file system")))
    case Dies(spared) => (Interrupted(place, point, spared), Ended(Killed))
  }

  function Rank(point: Point): nat {
    match point
    case Inspecting => 15
    case Securing => 14
    case Checking => 13
    case Removing => 12
    case SyncingRemoval => 11
    case MakingStage => 10
    case SecuringStage => 9
    case MakingKeys => 8
    case WritingState(_) => 7
    case SyncingStage(_) => 6
    case Renaming(_) => 5
    case LoadingOther => 4
    case SyncingPublished => 3
    case Loading(_) => 2
    case Ended(_) => 0
  }

  /** A caller that runs alone, call `k` having the fate `fates(k)`. */
  function Drive(place: Place, point: Point, m: Material, fates: nat -> Fate, k: nat): (Place, Outcome)
    decreases Rank(point)
  {
    if point.Ended? then (place, point.outcome)
    else
      var (place', point') := Advance(place, point, m, fates(k));
      Drive(place', point', m, fates, k + 1)
  }

  /** How a caller ends when one of its calls does not work. */
  function Stop(fate: Fate): Outcome
    requires !fate.Works?
  {
    if fate.Dies? then Killed else Failed("file system")
  }

  class ConfigurationDirectory {
    var place: Place

    constructor (place: Place)
      ensures this.place == place
    {
      this.place := place;
    }

    /** `LoadOrCreateDefaultServerCredentials`, inside the lock. */
    method LoadOrCreate(m: Material, fates: nat -> Fate) returns (outcome: Outcome)
      modifies this
      ensures (place, outcome) == Drive(old(place), Inspecting, m, fates, 0)
    {
      if !fates(0).Works? {
        return Stop(fates(0));
      }
      match place
      case Absent => outcome := Create(m, fates, 1);
      case NotADirectory => return Failed("must be a directory");
      case Present(folder) =>
        if !fates(1).Works? {
          return Stop(fates(1));
        }
        if !fates(2).Works? {
          return Stop(fates(2));
        }
        assert Drive(place, Inspecting, m, fates, 0) == Drive(place, Checking, m, fates, 2);
        if folder.secret.Some? {
          outcome := LoadHere(m, false, fates, 3);
        } else {
          assert Drive(place, Checking, m, fates, 2) == Drive(place, Removing, m, fates, 3);
          outcome := Recreate(m, fates, 3);
        }
    }

    /** Clear away an interrupted creation, then create. */
    method Recreate(m: Material, fates: nat -> Fate, k: nat) returns (outcome: Outcome)
      modifies this
      ensures (place, outcome) == Drive(old(place), Removing, m, fates, k)
    {
      if !fates(k).Works? {
        if place.Present? {
          place := Present(Remains(place.folder, fates(k).spared));
        }
        return Stop(fates(k));
      }
      place := Absent;
      if !fates(k + 1).Works? {
        return Stop(fates(k + 1));
      }
      assert Drive(old(place), Removing, m, fates, k) == Drive(place, SyncingRemoval, m, fates, k + 1);
      outcome := Create(m, fates, k + 2);
    }

    /** Stage the material and publish it with one rename. */
    method Create(m: Material, fates: nat -> Fate, k: nat) returns (outcome: Outcome)
      modifies this
      ensures (place, outcome) == Drive(old(place), MakingStage, m, fates, k)
    {
      if !fates(k).Works? {
        return Stop(fates(k));
      }
      if !fates(k + 1).Works? {
        return Stop(fates(k + 1));
      }
      assert Drive(place, MakingStage, m, fates, k) == Drive(place, MakingKeys, m, fates, k + 2);
      if !fates(k + 2).Works? {
        return Stop(fates(k + 2));
      }
      var stage := Folder(Some(m.key), Some(m.key), None);
      if !fates(k + 3).Works? {
        return Stop(fates(k + 3));
      }
      assert Drive(place, MakingKeys, m, fates, k + 2) == Drive(place, SyncingStage(stage.(secret := Some(m.secret))), m, fates, k + 4);
      stage := stage.(secret := Some(m.secret));
      if !fates(k + 4).Works? {
        assert Drive(place, SyncingStage(stage), m, fates, k + 4) == (place, Stop(fates(k + 4)));
        return Stop(fates(k + 4));
      }
      outcome := Publish(stage, m, fates, k + 5);
    }

    method Publish(stage: Folder, m: Material, fates: nat -> Fate, k: nat) returns (outcome: Outcome)
      modifies this
      ensures (place, outcome) == Drive(old(place), Renaming(stage), m, fates, k)
    {
      if fates(k).Dies? {
        return Killed;
      }
      if fates(k).Breaks? || !place.Absent? {
        outcome := LoadOther(m, fates, k + 1);
        return;
      }
      place := Present(stage);
      if !fates(k + 1).Works? {
        return Stop(fates(k + 1));
      }
      assert Drive(old(place), Renaming(stage), m, fates, k) == Drive(place, SyncingPublished, m, fates, k + 1);
      outcome := LoadHere(m, true, fates, k + 2);
    }

    method LoadOther(m: Material, fates: nat -> Fate, k: nat) returns (outcome: Outcome)
      ensures (place, outcome) == Drive(place, LoadingOther, m, fates, k)
    {
      if fates(k).Works? && LoadEnds(place, false).Returned? {
        return LoadEnds(place, false);
      }
      return if fates(k).Dies? then Killed else if fates(k).Breaks? then Failed("file system") else Failed("publish");
    }

    method LoadHere(m: Material, created: bool, fates: nat -> Fate, k: nat) returns (outcome: Outcome)
      ensures (place, outcome) == Drive(place, Loading(created), m, fates, k)
    {
      if !fates(k).Works? {
        return Stop(fates(k));
      }
      return LoadEnds(place, created);
    }
  }

  // ----- any number of callers -----

  /** A caller waits for the lock, or holds it and is at some point. */
  datatype Caller = Waiting(m: Material) | Inside(m: Material, point: Point)

  /** `answers` is history: what callers returned, and whether they report having created it. */
  datatype State = State(place: Place, lock: Option<nat>, callers: map<nat, Caller>, answers: seq<(Credentials, bool)>)

  datatype Action = Calls(p: nat, m: Material) | Acquires(p: nat) | Proceeds(p: nat, fate: Fate) | DiesWaiting(p: nat)

  predicate Enabled(s: State, a: Action) {
    match a
    case Calls(p, m) => p !in s.callers && |m.secret| == 32
    case Acquires(p) => p in s.callers && s.callers[p].Waiting? && s.lock.None?
    case Proceeds(p, _) => p in s.callers && s.callers[p].Inside? && !s.callers[p].point.Ended?
    case DiesWaiting(p) => p in s.callers && s.callers[p].Waiting?
  }

  /** A caller that ends releases the lock, however it ends. */
  function Step(s: State, a: Action): State
    requires Enabled(s, a)
  {
    match a
    case Calls(p, m) => s.(callers := s.callers[p := Waiting(m)])
    case Acquires(p) => s.(lock := Some(p), callers := s.callers[p := Inside(s.callers[p].m, Inspecting)])
    case DiesWaiting(p) => s.(callers := s.callers - {p})
    case Proceeds(p, fate) =>
      var m := s.callers[p].m;
      var (place, point) := Advance(s.place, s.callers[p].point, m, fate);
      if point.Ended? then
        State(place, None, s.callers - {p},
              if point.outcome.Returned? then s.answers + [(point.outcome.credentials, point.outcome.created)] else s.answers)
      else s.(place := place, callers := s.callers[p := Inside(m, point)])
  }

  predicate Complete(place: Place) {
    place.Present? && Load(place.folder).Ok?
  }

  /** Nothing there, something that is no directory, a directory without `credentials.json`,
      or complete credentials: never anything in between. */
  predicate Sound(place: Place) {
    place.Present? && place.folder.secret.Some? ==> Complete(place)
  }

  predicate Staged(stage: Folder, m: Material, withSecret: bool) {
    stage == Folder(Some(m.key), Some(m.key), if withSecret then Some(m.secret) else None)
  }

  /** What the lock holder knows at each point. */
  predicate Knows(place: Place, returned: bool, point: Point, m: Material) {
    && |m.secret| == 32
    && match point
       case Inspecting => true
       case Securing => place.Present?
       case Checking => place.Present?
       case Loading(created) => Complete(place) && (created ==> !returned)
       case Removing => place.Present? && place.folder.secret.None?
       case SyncingRemoval => place.Absent?
       case MakingStage => place.Absent?
       case SecuringStage => place.Absent?
       case MakingKeys => place.Absent?
       case WritingState(stage) => place.Absent? && Staged(stage, m, false)
       case SyncingStage(stage) => place.Absent? && Staged(stage, m, true)
       case Renaming(stage) => place.Absent? && Staged(stage, m, true)
       case LoadingOther => place.Absent?
       case SyncingPublished => Complete(place) && !returned
       case Ended(_) => false
  }

  /** Everything returned is what stands at the final path, and only the first is new. */
  predicate Agree(place: Place, answers: seq<(Credentials, bool)>) {
    && (answers != [] ==> Complete(place))
    && (forall k | 0 <= k < |answers| :: Load(place.folder) == Ok(answers[k].0) && (answers[k].1 ==> k == 0))
  }

  ghost predicate Inv(s: State) {
    && Sound(s.place) && Agree(s.place, s.answers)
    && (forall p <- s.callers :: s.callers[p].Inside? ==>
          s.lock == Some(p) && Knows(s.place, s.answers != [], s.callers[p].point, s.callers[p].m))
    && (forall p <- s.callers :: |s.callers[p].m.secret| == 32)
  }

  /** One call of the lock holder, whatever its fate. */
  lemma AdvanceKeeps(place: Place, answers: seq<(Credentials, bool)>, point: Point, m: Material, fate: Fate)
    requires Sound(place) && Agree(place, answers) && Knows(place, answers != [], point, m)
    ensures var (place', point') := Advance(place, point, m, fate);
            && Sound(place') && Agree(place', answers)
            && (Complete(place) ==> place' == place)
            && (!point'.Ended? ==> Knows(place', answers != [], point', m))
            && (point'.Ended? && point'.outcome.Returned? ==>
                  Agree(place', answers + [(point'.outcome.credentials, point'.outcome.created)]))
  {}

  lemma StepKeepsInv(s: State, a: Action)
    requires Inv(s) && Enabled(s, a)
    ensures Inv(Step(s, a))
    ensures Complete(s.place) ==> Step(s, a).place == s.place
  {
    match a
    case Proceeds(p, fate) => AdvanceKeeps(s.place, s.answers, s.callers[p].point, s.callers[p].m, fate);
    case _ =>
  }

  /** Actions that are not enabled are skipped. */
  ghost function Run(start: Place, actions: seq<Action>): State {
    if actions == [] then State(start, None, map[], [])
    else
      var before := Run(start, actions[..|actions| - 1]);
      var a := actions[|actions| - 1];
      if Enabled(before, a) then Step(before, a) else before
  }

  lemma {:induction false} RunKeepsInv(start: Place, actions: seq<Action>)
    requires Sound(start)
    ensures Inv(Run(start, actions))
  {
    if actions != [] {
      var before, a := Run(start, actions[..|actions| - 1]), actions[|actions| - 1];
      RunKeepsInv(start, actions[..|actions| - 1]);
      if Enabled(before, a) {
        StepKeepsInv(before, a);
      }
    }
  }

  /** However many callers interleave, and wherever each is killed: the final path is sound,
      whatever credentials were returned stand there, all the same, and at most one caller, the
      first that returned, reports that it created them. */
  lemma CredentialsAgree(start: Place, actions: seq<Action>)
    requires Sound(start)
    ensures var s := Run(start, actions);
            && Sound(s.place)
            && (forall j, k | 0 <= j < |s.answers| && 0 <= k < |s.answers| :: s.answers[j].0 == s.answers[k].0)
            && (forall j, k | 0 <= j < |s.answers| && 0 <= k < |s.answers| :: s.answers[j].1 && s.answers[k].1 ==> j == k)
  {
    RunKeepsInv(start, actions);
    var s := Run(start, actions);
    forall j, k | 0 <= j < |s.answers| && 0 <= k < |s.answers|
      ensures s.answers[j].0 == s.answers[k].0 && (s.answers[j].1 && s.answers[k].1 ==> j == k)
    {
      assert Load(s.place.folder) == Ok(s.answers[j].0) == Ok(s.answers[k].0);
    }
  }

  /** Once complete credentials are published nothing that follows replaces them. */
  lemma {:induction false} PublishedForGood(start: Place, actions: seq<Action>, more: seq<Action>)
    requires Sound(start) && Complete(Run(start, actions).place)
    ensures Run(start, actions + more).place == Run(start, actions).place
  {
    if more == [] {
      assert actions + more == actions;
    } else {
      PublishedForGood(start, actions, more[..|more| - 1]);
      assert (actions + more)[..|actions + more| - 1] == actions + more[..|more| - 1];
      var before := Run(start, actions + more[..|more| - 1]);
      RunKeepsInv(start, actions + more[..|more| - 1]);
      if Enabled(before, more[|more| - 1]) {
        StepKeepsInv(before, more[|more| - 1]);
      }
    }
  }

  /** A caller that nothing disturbs returns the credentials that then stand at the final path,
      unless something other than a directory is in the way; it creates them exactly when
      there were none. */
  lemma UndisturbedReturns(place: Place, m: Material, fates: nat -> Fate)
    requires Sound(place) && |m.secret| == 32 && forall k :: fates(k) == Works
    ensures var (place', outcome) := Drive(place, Inspecting, m, fates, 0);
            && (outcome.Returned? <==> !place.NotADirectory?)
            && (outcome.Returned? ==>
                  && place'.Present? && Load(place'.folder) == Ok(outcome.credentials)
                  && (outcome.created <==> !Complete(place))
                  && (outcome.created ==> outcome.credentials == Credentials(m.secret, m.key))
                  && (Complete(place) ==> place' == place))
  {
    if place.Present? && place.folder.secret.Some? {
      assert Drive(place, Inspecting, m, fates, 0) == Drive(place, Checking, m, fates, 2);
    } else if place.Present? {
      assert Drive(place, Inspecting, m, fates, 0) == Drive(place, Checking, m, fates, 2);
      assert Drive(place, Checking, m, fates, 2) == Drive(Absent, SyncingRemoval, m, fates, 4);
      UndisturbedCreates(m, fates, 5);
    } else if place.Absent? {
      UndisturbedCreates(m, fates, 1);
    }
  }

  lemma UndisturbedCreates(m: Material, fates: nat -> Fate, k: nat)
    requires |m.secret| == 32 && forall j :: fates(j) == Works
    ensures Drive(Absent, MakingStage, m, fates, k)
            == (Present(Folder(Some(m.key), Some(m.key), Some(m.secret))), Returned(Credentials(m.secret, m.key), true))
  {
    var bare := Folder(Some(m.key), Some(m.key), None);
    var stage := bare.(secret := Some(m.secret));
    assert Drive(Absent, MakingStage, m, fates, k) == Drive(Absent, MakingKeys, m, fates, k + 2);
    assert Drive(Absent, MakingKeys, m, fates, k + 2) == Drive(Absent, SyncingStage(stage), m, fates, k + 4);
    assert Drive(Absent, SyncingStage(stage), m, fates, k + 4) == Drive(Present(stage), SyncingPublished, m, fates, k + 6);
    assert Drive(Present(stage), SyncingPublished, m, fates, k + 6)
           == Drive(Present(stage), Ended(LoadEnds(Present(stage), true)), m, fates, k + 8);
  }

  // ----- a directory that has its state, whatever else it has or lacks -----

  /** `credentials.json` is there. */
  predicate HasState(place: Place) {
    place.Present? && place.folder.secret.Some?
  }

  /** The points a caller can come to at such a place. */
  predicate Reads(point: Point) {
    point.Inspecting? || point.Securing? || point.Checking? || point == Loading(false)
  }

  lemma ReadingKeeps(place: Place, point: Point, m: Material, fate: Fate)
    requires HasState(place) && Reads(point)
    ensures var (place', point') := Advance(place, point, m, fate);
            && place' == place && (point'.Ended? || Reads(point'))
            && (point'.Ended? && point'.outcome.Returned? ==> !point'.outcome.created)
  {}

  lemma {:induction false} ReadingEnds(place: Place, point: Point, m: Material, fates: nat -> Fate, k: nat)
    requires HasState(place) && Reads(point)
    ensures var (place', outcome) := Drive(place, point, m, fates, k);
            place' == place && (outcome.Returned? ==> !outcome.created)
    decreases Rank(point)
  {
    ReadingKeeps(place, point, m, fates(k));
    var (place', point') := Advance(place, point, m, fates(k));
    if !point'.Ended? {
      ReadingEnds(place', point', m, fates, k + 1);
    }
  }

  /** Where `credentials.json` is, with whatever keys, a call changes nothing and creates
      nothing, whatever becomes of it; undisturbed, it returns what is there if the two keys
      are there and match and the secret has 32 bytes, and fails otherwise. */
  lemma NeverRekeys(place: Place, m: Material, fates: nat -> Fate)
    requires place.Present? && place.folder.secret.Some?
    ensures var (place', outcome) := Drive(place, Inspecting, m, fates, 0);
            place' == place && (outcome.Returned? ==> !outcome.created)
    ensures (forall k | 0 <= k < 4 :: fates(k) == Works) ==>
              var (_, outcome) := Drive(place, Inspecting, m, fates, 0);
              var f := place.folder;
              && (outcome.Returned? <==> f.privateKey.Some? && f.publicKey == f.privateKey && |f.secret.value| == 32)
              && (outcome.Returned? ==> outcome.credentials == Credentials(f.secret.value, f.privateKey.value))
              && !outcome.Killed?
  {
    ReadingEnds(place, Inspecting, m, fates, 0);
    if forall k | 0 <= k < 4 :: fates(k) == Works {
      assert fates(0) == fates(1) == fates(2) == fates(3) == Works;
      assert Drive(place, Inspecting, m, fates, 0) == Drive(place, Checking, m, fates, 2);
      assert Drive(place, Checking, m, fates, 2) == Drive(place, Ended(LoadEnds(place, false)), m, fates, 4);
    }
  }

  ghost predicate ReadsOnly(s: State) {
    && (forall p <- s.callers :: s.callers[p].Inside? ==> Reads(s.callers[p].point))
    && (forall k | 0 <= k < |s.answers| :: !s.answers[k].1)
  }

  lemma StepReadsOnly(s: State, a: Action)
    requires HasState(s.place) && ReadsOnly(s) && Enabled(s, a)
    ensures Step(s, a).place == s.place && ReadsOnly(Step(s, a))
  {
    match a
    case Proceeds(p, fate) => ReadingKeeps(s.place, s.callers[p].point, s.callers[p].m, fate);
    case _ =>
  }

  /** Nor do any callers, however they interleave and wherever each is killed: the final path
      stays as it was, whole or broken, and nobody reports that he created anything. */
  lemma {:induction false} NobodyRekeys(start: Place, actions: seq<Action>)
    requires start.Present? && start.folder.secret.Some?
    ensures var s := Run(start, actions);
            s.place == start && ReadsOnly(s) && forall k | 0 <= k < |s.answers| :: !s.answers[k].1
  {
    if actions != [] {
      var before, a := Run(start, actions[..|actions| - 1]), actions[|actions| - 1];
      NobodyRekeys(start, actions[..|actions| - 1]);
      if Enabled(before, a) {
        StepReadsOnly(before, a);
      }
    }
  }

  /** A rename that fails, or finds something in its way, leaves the final path alone; the
      caller then returns what stands there, if that can be loaded, as not its own. */
  lemma RenameFallsBack(place: Place, stage: Folder, m: Material, fates: nat -> Fate, k: nat)
    requires fates(k).Breaks? || (fates(k).Works? && !place.Absent?)
    requires fates(k + 1).Works?
    ensures var (place', outcome) := Drive(place, Renaming(stage), m, fates, k);
            && place' == place
            && (outcome.Returned? <==>
                  && HasState(place) && |place.folder.secret.value| == 32
                  && place.folder.privateKey.Some? && place.folder.publicKey == place.folder.privateKey)
            && (outcome.Returned? ==>
                  outcome == Returned(Credentials(place.folder.secret.value, place.folder.privateKey.value), false))
  {
    assert Drive(place, Renaming(stage), m, fates, k) == Drive(place, LoadingOther, m, fates, k + 1);
  }

  // ----- where a call stops -----

  /** The calls before the `k`th all work, and the `k`th does not. */
  ghost predicate FirstTrouble(fates: nat -> Fate, from: nat, k: nat) {
    from <= k && !fates(k).Works? && forall j: nat | from <= j < k :: fates(j).Works?
  }

  /** Trouble at a point other than the rename is the outcome. */
  lemma TroubleEnds(place: Place, point: Point, m: Material, fates: nat -> Fate, k: nat)
    requires !fates(k).Works? && !point.Ended? && !point.Removing? && !point.Renaming?
    ensures Drive(place, point, m, fates, k) == (place, Stop(fates(k)))
  {
    var (place', point') := Advance(place, point, m, fates(k));
    assert place' == place && point' == Ended(Stop(fates(k)));
    assert Drive(place', point', m, fates, k + 1) == (place', point'.outcome);
  }

  lemma CallWorks(place: Place, point: Point, m: Material, fates: nat -> Fate, k: nat)
    requires fates(k).Works? && !point.Ended?
    ensures var (place', point') := Works1(place, point, m);
            Drive(place, point, m, fates, k) == Drive(place', point', m, fates, k + 1)
  {}

  /** Where a caller that has staged `i` calls' worth stands. */
  function StagePoint(m: Material, i: nat): (point: Point)
    requires i <= 5
    ensures !point.Ended? && !point.Removing? && (point.Renaming? <==> i == 5)
  {
    var bare := Folder(Some(m.key), Some(m.key), None);
    var whole := Folder(Some(m.key), Some(m.key), Some(m.secret));
    match i
    case 0 => MakingStage
    case 1 => SecuringStage
    case 2 => MakingKeys
    case 3 => WritingState(bare)
    case 4 => SyncingStage(whole)
    case _ => Renaming(whole)
  }

  /** Staging touches nothing but the stage. */
  lemma {:induction false} StagingReaches(m: Material, fates: nat -> Fate, from: nat, i: nat)
    requires i <= 5 && forall j: nat | from <= j < from + i :: fates(j).Works?
    ensures Drive(Absent, MakingStage, m, fates, from) == Drive(Absent, StagePoint(m, i), m, fates, from + i)
  {
    if i > 0 {
      StagingReaches(m, fates, from, i - 1);
      StagePoints(m, i - 1);
      CallWorks(Absent, StagePoint(m, i - 1), m, fates, from + i - 1);
    }
  }

  lemma StagePoints(m: Material, i: nat)
    requires i < 5
    ensures Works1(Absent, StagePoint(m, i), m) == (Absent, StagePoint(m, i + 1))
  {}

  lemma TroubleInStaging(m: Material, fates: nat -> Fate, from: nat, k: nat)
    requires FirstTrouble(fates, from, k) && k < from + 5
    ensures Drive(Absent, MakingStage, m, fates, from) == (Absent, Stop(fates(k)))
  {
    StagingReaches(m, fates, from, k - from);
    TroubleEnds(Absent, StagePoint(m, k - from), m, fates, k);
  }

  /** A caller that finds nothing makes nine calls: one look, five to stage, the rename, a sync
      and a load. If one of them is the first that does not work, the caller returns nothing; the
      final path stays empty up to the rename, and after it all of the material stands there. */
  lemma TroubleFromNothing(m: Material, fates: nat -> Fate, k: nat)
    requires FirstTrouble(fates, 0, k) && k < 9
    ensures var (place', outcome) := Drive(Absent, Inspecting, m, fates, 0);
            && place' == (if k <= 6 then Absent else Present(Folder(Some(m.key), Some(m.key), Some(m.secret))))
            && !outcome.Returned? && (fates(k).Dies? ==> outcome.Killed?)
            && (fates(k).Breaks? && k != 6 ==> outcome.Failed?)
  {
    if k == 0 {
      TroubleEnds(Absent, Inspecting, m, fates, 0);
    } else {
      CallWorks(Absent, Inspecting, m, fates, 0);
      if k < 6 {
        TroubleInStaging(m, fates, 1, k);
      } else {
        StagingReaches(m, fates, 1, 5);
        TroubleInPublishing(m, fates, 6, k);
      }
    }
  }

  lemma TroubleInPublishing(m: Material, fates: nat -> Fate, from: nat, k: nat)
    requires FirstTrouble(fates, from, k) && k < from + 3
    ensures var stage := Folder(Some(m.key), Some(m.key), Some(m.secret));
            var (place', outcome) := Drive(Absent, Renaming(stage), m, fates, from);
            && place' == (if k == from then Absent else Present(stage))
            && !outcome.Returned? && (fates(k).Dies? ==> outcome.Killed?)
            && (fates(k).Breaks? && k != from ==> outcome.Failed?)
  {
    var stage := Folder(Some(m.key), Some(m.key), Some(m.secret));
    if k == from {
      RenameInTrouble(Absent, stage, m, fates, k);
    } else {
      CallWorks(Absent, Renaming(stage), m, fates, from);
      if k == from + 1 {
        TroubleEnds(Present(stage), SyncingPublished, m, fates, k);
      } else {
        CallWorks(Present(stage), SyncingPublished, m, fates, from + 1);
        TroubleEnds(Present(stage), Loading(true), m, fates, k);
      }
    }
  }

  lemma RenameInTrouble(place: Place, stage: Folder, m: Material, fates: nat -> Fate, k: nat)
    requires !fates(k).Works? && place.Absent?
    ensures var (place', outcome) := Drive(place, Renaming(stage), m, fates, k);
            place' == place && !outcome.Returned? && (fates(k).Dies? ==> outcome.Killed?)
  {
    var (place', point') := Advance(place, Renaming(stage), m, fates(k));
    if fates(k).Dies? {
      assert Drive(place', point', m, fates, k + 1) == (place, Killed);
    } else {
      assert point' == LoadingOther;
      var (place'', point'') := Advance(place, LoadingOther, m, fates(k + 1));
      assert Drive(place'', point'', m, fates, k + 2) == (place'', point''.outcome);
    }
  }
}
