/** internal/webui/handler.go: the registry of browser transfers, and the discipline of the
    download slots around it. */
module Registry {
  import opened Bytes

  datatype Status = Starting | Downloading | Completed | Failed

  datatype Snapshot = Snapshot(percent: int, completedBytes: U64, totalBytes: U64, completedChunks: U32, totalChunks: U32)

  /** Times are nanoseconds on the process's clock. */
  datatype Progress = Progress(status: Status, snapshot: Snapshot, updatedAt: int)

  type Transfers = map<string, Progress>

  const RETENTION := 600_000_000_000
  const MAX_RETAINED := 128
  const NO_PROGRESS := Snapshot(0, 0, 0, 0, 0)

  predicate ValidTaskID(id: string) {
    |id| == 32 && forall c <- id :: '0' <= c <= '9' || 'a' <= c <= 'f' || 'A' <= c <= 'F'
  }

  predicate IsTerminal(p: Progress) {
    p.status.Completed? || p.status.Failed?
  }

  predicate Expired(p: Progress, now: int) {
    IsTerminal(p) && now - p.updatedAt > RETENTION
  }

  function Unexpired(t: Transfers, now: int): Transfers {
    map id | id in t && !Expired(t[id], now) :: t[id]
  }

  /** A finished transfer than which none finished earlier. */
  ghost predicate OldestTerminal(t: Transfers, id: string) {
    id in t && IsTerminal(t[id]) && forall other <- t :: IsTerminal(t[other]) ==> t[id].updatedAt <= t[other].updatedAt
  }

  /** `beginTransfer` in a registry from which expired transfers are gone, when `victim` is the
      transfer that goes if there is no room. */
  function Admitted(t: Transfers, id: string, now: int, victim: Option<string>): (bool, Transfers) {
    if id in t then (false, t)
    else if |t| < MAX_RETAINED then (true, t[id := Progress(Starting, NO_PROGRESS, now)])
    else
      match victim
      case None => (false, t)
      case Some(v) => (true, (t - {v})[id := Progress(Starting, NO_PROGRESS, now)])
  }

  /** The victim is an oldest finished transfer, and there is none only if nothing finished. */
  ghost predicate FairVictim(t: Transfers, victim: Option<string>) {
    match victim
    case None => forall id <- t :: !IsTerminal(t[id])
    case Some(v) => OldestTerminal(t, v)
  }

  /** A transfer is admitted unless its id is taken, or all of 128 are unfinished. It begins with
      nothing done; if there were 128, one that finished earliest makes room; no other changes. */
  ghost predicate Admits(t: Transfers, t': Transfers, id: string, now: int, ok: bool, victim: Option<string>) {
    && (ok <==> id !in t && (|t| < 128 || victim.Some?))
    && (!ok ==> t' == t)
    && (ok ==> id in t' && t'[id] == Progress(Starting, Snapshot(0, 0, 0, 0, 0), now))
    && (forall other <- t' :: other != id ==> other in t && t'[other] == t[other])
    && (forall other <- t :: ok && other !in t' ==> |t| >= 128 && victim == Some(other))
    && (ok && |t| >= 128 ==> victim.value !in t')
  }

  lemma AdmittedAdmits(t: Transfers, id: string, now: int, victim: Option<string>)
    requires FairVictim(t, victim)
    ensures var (ok, t') := Admitted(t, id, now, victim); Admits(t, t', id, now, ok, victim)
  {}

  function Observed(t: Transfers, id: string, snapshot: Snapshot, now: int): Transfers {
    if id in t then t[id := Progress(Downloading, snapshot, now)] else t
  }

  function Finished(t: Transfers, id: string, status: Status, now: int): Transfers {
    if id in t then
      var s := t[id].snapshot;
      t[id := Progress(status, if status.Completed? then s.(percent := 100) else s, now)]
    else t
  }

  class Handler {
    var transfers: Transfers

    constructor ()
      ensures transfers == map[]
    {
      transfers := map[];
    }

    /** `removeExpiredTransfersLocked` */
    method RemoveExpired(now: int)
      modifies this
      ensures transfers == Unexpired(old(transfers), now)
      ensures forall id <- transfers :: id in old(transfers) && transfers[id] == old(transfers)[id]
      ensures forall id <- old(transfers) :: id in transfers <==>
                (old(transfers)[id].status.Starting? || old(transfers)[id].status.Downloading?
                 || now - old(transfers)[id].updatedAt <= 600_000_000_000)
    {
      ghost var t := transfers;
      var pending := transfers.Keys;
      while pending != {}
        invariant pending <= t.Keys
        invariant transfers == map id | id in t && (id in pending || !Expired(t[id], now)) :: t[id]
        decreases |pending|
      {
        var id :| id in pending;
        pending := pending - {id};
        if Expired(transfers[id], now) {
          transfers := transfers - {id};
        }
      }
    }

    /** `removeOldestTerminalTransferLocked`; the map is ranged over in no particular order. */
    method RemoveOldestTerminal() returns (removed: bool, ghost victim: Option<string>)
      requires forall id <- transfers :: ValidTaskID(id)
      modifies this
      ensures FairVictim(old(transfers), victim) && (removed <==> victim.Some?)
      ensures transfers == if removed then old(transfers) - {victim.value} else old(transfers)
    {
      var oldest := "";
      var oldestUpdate := 0;
      var pending := transfers.Keys;
      while pending != {}
        invariant pending <= transfers.Keys && transfers == old(transfers)
        invariant oldest == "" ==> forall id <- transfers :: id in pending || !IsTerminal(transfers[id])
        invariant oldest != "" ==> oldest in transfers && IsTerminal(transfers[oldest]) && transfers[oldest].updatedAt == oldestUpdate
        invariant oldest != "" ==> forall id <- transfers :: id in pending || !IsTerminal(transfers[id]) || oldestUpdate <= transfers[id].updatedAt
        decreases |pending|
      {
        var id :| id in pending;
        pending := pending - {id};
        if !IsTerminal(transfers[id]) {
          continue;
        }
        if oldest == "" || transfers[id].updatedAt < oldestUpdate {
          oldest := id;
          oldestUpdate := transfers[id].updatedAt;
        }
      }
      if oldest == "" {
        return false, None;
      }
      transfers := transfers - {oldest};
      return true, Some(oldest);
    }

    /** `beginTransfer` */
    method BeginTransfer(id: string, now: int) returns (ok: bool, ghost victim: Option<string>)
      requires ValidTaskID(id) && forall other <- transfers :: ValidTaskID(other)
      modifies this
      ensures FairVictim(Unexpired(old(transfers), now), victim)
      ensures (ok, transfers) == Admitted(Unexpired(old(transfers), now), id, now, victim)
      ensures forall other <- transfers :: ValidTaskID(other)
      ensures Admits(Unexpired(old(transfers), now), transfers, id, now, ok, victim)
    {
      RemoveExpired(now);
      ghost var t := transfers;
      ok, victim := AddTransfer(id, now);
      AdmittedAdmits(t, id, now, victim);
    }

    /** The same, once what is expired is gone. */
    method AddTransfer(id: string, now: int) returns (ok: bool, ghost victim: Option<string>)
      requires ValidTaskID(id) && forall other <- transfers :: ValidTaskID(other)
      modifies this
      ensures FairVictim(old(transfers), victim) && (ok, transfers) == Admitted(old(transfers), id, now, victim)
    {
      victim := AVictim(transfers);
      if id in transfers {
        return false, victim;
      }
      if |transfers| >= MAX_RETAINED {
        var removed;
        removed, victim := RemoveOldestTerminal();
        if !removed {
          return false, victim;
        }
      }
      transfers := transfers[id := Progress(Starting, NO_PROGRESS, now)];
      return true, victim;
    }

    /** The callback that `progressObserver` makes for a task. It touches that task only, never
        brings back one that is gone, and shows it downloading with the latest figures. */
    method Observe(id: string, snapshot: Snapshot, now: int)
      modifies this
      ensures transfers == Observed(old(transfers), id, snapshot, now)
      ensures transfers.Keys == old(transfers).Keys
      ensures forall other <- transfers | other != id :: transfers[other] == old(transfers)[other]
      ensures id in transfers ==> transfers[id].snapshot == snapshot && transfers[id].updatedAt == now
                                  && transfers[id].status.Downloading? && !IsTerminal(transfers[id])
    {
      if id in transfers {
        transfers := transfers[id := Progress(Downloading, snapshot, now)];
      }
    }

    /** `finishTransfer`: the task, if still registered, is over, its figures as last seen but for
        the 100 percent of a completed one, and stays for the whole retention time; no other
        task changes, and none is added. */
    method FinishTransfer(id: string, status: Status, now: int)
      requires status.Completed? || status.Failed?
      modifies this
      ensures transfers == Finished(old(transfers), id, status, now)
      ensures transfers.Keys == old(transfers).Keys
      ensures forall other <- transfers | other != id :: transfers[other] == old(transfers)[other]
      ensures id in transfers ==> IsTerminal(transfers[id]) && (transfers[id].status.Completed? <==> status.Completed?)
      ensures id in transfers && status.Completed? ==>
                transfers[id].snapshot == old(transfers)[id].snapshot.(percent := 100)
      ensures id in transfers && status.Failed? ==> transfers[id].snapshot == old(transfers)[id].snapshot
      ensures id in transfers ==> forall later :: Expired(transfers[id], later) <==> later - now > 600_000_000_000
    {
      if id in transfers {
        var progress := transfers[id].(status := status);
        if status.Completed? {
          progress := progress.(snapshot := progress.snapshot.(percent := 100));
        }
        transfers := transfers[id := progress.(updatedAt := now)];
      }
    }
  }

  /** Among finished transfers, one is oldest. */
  lemma {:induction false} AVictim(t: Transfers) returns (victim: Option<string>)
    ensures FairVictim(t, victim)
    decreases |t|
  {
    if id :| id in t && IsTerminal(t[id]) {
      var rest := t - {id};
      assert rest.Keys == t.Keys - {id};
      var other := AVictim(rest);
      if other.Some? && t[other.value].updatedAt < t[id].updatedAt {
        assert forall o <- t :: o != id ==> rest[o] == t[o];
        victim := other;
      } else {
        assert forall o <- t :: o != id ==> o in rest && rest[o] == t[o];
        victim := Some(id);
      }
    } else {
      victim := None;
    }
  }

  // ----- requests and slots -----

  /** A request that holds a download slot: before `beginTransfer`, while its transfer is
      registered and unfinished, or on its way out. */
  datatype Request = Claimed(id: string) | Running(id: string) | Leaving

  datatype State = State(transfers: Transfers, holders: map<nat, Request>)

  datatype Action =
    | TakeSlot(request: nat, id: string)
    | Begin(request: nat, now: int, victim: Option<string>)
    | Observation(request: nat, snapshot: Snapshot, now: int)
    | Finish(request: nat, completed: bool, now: int)
    | ReleaseSlot(request: nat)
    | Poll(now: int)

  const INITIAL := State(map[], map[])

  ghost predicate Enabled(s: State, maxConcurrent: nat, a: Action) {
    match a
    case TakeSlot(r, id) => r !in s.holders && |s.holders| < maxConcurrent && (id == "" || ValidTaskID(id))
    case Begin(r, now, victim) => r in s.holders && s.holders[r].Claimed? && FairVictim(Unexpired(s.transfers, now), victim)
    case Observation(r, _, _) => r in s.holders && s.holders[r].Running?
    case Finish(r, _, _) => r in s.holders && s.holders[r].Running?
    case ReleaseSlot(r) => r in s.holders && s.holders[r].Leaving?
    case Poll(_) => true
  }

  function Step(s: State, a: Action): State
    requires a.Begin? || a.Observation? || a.Finish? || a.ReleaseSlot? ==> a.request in s.holders
    requires a.Begin? ==> s.holders[a.request].Claimed?
    requires a.Observation? || a.Finish? ==> s.holders[a.request].Running?
  {
    match a
    case TakeSlot(r, id) => s.(holders := s.holders[r := if id == "" then Leaving else Claimed(id)])
    case Begin(r, now, victim) =>
      var id := s.holders[r].id;
      var (ok, t) := Admitted(Unexpired(s.transfers, now), id, now, victim);
      State(t, s.holders[r := if ok then Running(id) else Leaving])
    case Observation(r, snapshot, now) => s.(transfers := Observed(s.transfers, s.holders[r].id, snapshot, now))
    case Finish(r, completed, now) =>
      State(Finished(s.transfers, s.holders[r].id, if completed then Completed else Failed, now), s.holders[r := Leaving])
    case ReleaseSlot(r) => s.(holders := s.holders - {r})
    case Poll(now) => s.(transfers := Unexpired(s.transfers, now))
  }

  /** The unfinished transfers are exactly those of the running requests, one each. */
  ghost predicate Owned(s: State) {
    && (forall r <- s.holders :: s.holders[r].Running? ==>
          s.holders[r].id in s.transfers && !IsTerminal(s.transfers[s.holders[r].id]))
    && (forall r <- s.holders, q <- s.holders :: s.holders[r].Running? && s.holders[r] == s.holders[q] ==> r == q)
    && (forall id <- s.transfers :: !IsTerminal(s.transfers[id]) ==> exists r <- s.holders :: s.holders[r] == Running(id))
  }

  ghost predicate Bounded(s: State, maxConcurrent: nat) {
    && |s.transfers| <= MAX_RETAINED && |s.holders| <= maxConcurrent
    && (forall id <- s.transfers :: ValidTaskID(id))
    && (forall r <- s.holders :: s.holders[r].Claimed? ==> ValidTaskID(s.holders[r].id))
  }

  ghost predicate Inv(s: State, maxConcurrent: nat) {
    Owned(s) && Bounded(s, maxConcurrent)
  }

  function Unfinished(t: Transfers): set<string> {
    set id | id in t && !IsTerminal(t[id])
  }

  function RunningIn(holders: map<nat, Request>): set<nat> {
    set r | r in holders && holders[r].Running?
  }

  function IDs(holders: map<nat, Request>, running: set<nat>): set<string>
    requires running <= RunningIn(holders)
  {
    set r | r in running :: holders[r].id
  }

  lemma {:induction false} FewerIDs(holders: map<nat, Request>, running: set<nat>)
    requires running <= RunningIn(holders)
    ensures |IDs(holders, running)| <= |running|
    decreases running
  {
    if r :| r in running {
      var rest := running - {r};
      FewerIDs(holders, rest);
      assert IDs(holders, running) == IDs(holders, rest) + {holders[r].id};
    }
  }

  lemma Subset<T>(a: set<T>, b: set<T>)
    requires a <= b
    ensures |a| <= |b| && (|a| == |b| ==> a == b)
  {
    assert b == a + (b - a);
  }

  /** Unfinished transfers never outnumber the running requests. */
  lemma UnfinishedAreRunning(s: State)
    requires Owned(s)
    ensures Unfinished(s.transfers) == IDs(s.holders, RunningIn(s.holders))
    ensures |Unfinished(s.transfers)| <= |RunningIn(s.holders)| <= |s.holders|
  {
    FewerIDs(s.holders, RunningIn(s.holders));
    Subset(RunningIn(s.holders), s.holders.Keys);
    forall id <- Unfinished(s.transfers) ensures id in IDs(s.holders, RunningIn(s.holders)) {
      var r :| r in s.holders && s.holders[r] == Running(id);
      assert r in RunningIn(s.holders);
    }
  }

  lemma UnexpiredKeeps(s: State, maxConcurrent: nat, now: int)
    requires Inv(s, maxConcurrent)
    ensures Inv(s.(transfers := Unexpired(s.transfers, now)), maxConcurrent)
    ensures Unfinished(Unexpired(s.transfers, now)) == Unfinished(s.transfers)
  {
    Subset(Unexpired(s.transfers, now).Keys, s.transfers.Keys);
  }

  /** `beginTransfer` refuses a slot holder only for a task id that is in the map, unless more
      than 128 slots are held. */
  lemma RefusedOnlyIfKnown(s: State, maxConcurrent: nat, r: nat, now: int, victim: Option<string>)
    requires Inv(s, maxConcurrent) && Enabled(s, maxConcurrent, Begin(r, now, victim))
    ensures var t := Unexpired(s.transfers, now);
            var admitted := Admitted(t, s.holders[r].id, now, victim).0;
            && (s.holders[r].id in t ==> !admitted)
            && (!admitted && s.holders[r].id !in t ==> |s.holders| > 128)
  {
    UnexpiredKeeps(s, maxConcurrent, now);
    var t := Unexpired(s.transfers, now);
    if |t| >= MAX_RETAINED && victim.None? {
      assert Unfinished(t) == t.Keys;
      ClaimantIsExtra(s, r);
    }
  }

  lemma ClaimantIsExtra(s: State, r: nat)
    requires Owned(s) && r in s.holders && !s.holders[r].Running?
    ensures |Unfinished(s.transfers)| < |s.holders|
  {
    UnfinishedAreRunning(s);
    var running := RunningIn(s.holders);
    Subset(running + {r}, s.holders.Keys);
    assert |running + {r}| == |running| + 1;
  }

  /** A finished transfer may go, and a request without one may leave. */
  lemma DropKeepsOwned(s: State, gone: set<string>)
    requires Owned(s) && forall id <- gone :: id in s.transfers ==> IsTerminal(s.transfers[id])
    ensures Owned(s.(transfers := s.transfers - gone))
  {}

  lemma LeaveKeepsOwned(s: State, r: nat)
    requires Owned(s) && r in s.holders && !s.holders[r].Running?
    ensures Owned(s.(holders := s.holders[r := Leaving]))
  {
    var s' := s.(holders := s.holders[r := Leaving]);
    forall id <- s.transfers | !IsTerminal(s.transfers[id]) ensures exists q <- s'.holders :: s'.holders[q] == Running(id) {
      var q :| q in s.holders && s.holders[q] == Running(id);
      assert s'.holders[q] == Running(id);
    }
  }

  lemma AddKeepsOwned(s: State, r: nat, id: string, now: int)
    requires Owned(s) && r in s.holders && !s.holders[r].Running? && id !in s.transfers
    ensures Owned(State(s.transfers[id := Progress(Starting, NO_PROGRESS, now)], s.holders[r := Running(id)]))
  {
    var s' := State(s.transfers[id := Progress(Starting, NO_PROGRESS, now)], s.holders[r := Running(id)]);
    forall other <- s'.transfers | !IsTerminal(s'.transfers[other])
      ensures exists q <- s'.holders :: s'.holders[q] == Running(other)
    {
      if other == id {
        assert s'.holders[r] == Running(other);
      } else {
        var q :| q in s.holders && s.holders[q] == Running(other);
        assert s'.holders[q] == Running(other);
      }
    }
  }

  lemma AdmittedIsBounded(t: Transfers, id: string, now: int, victim: Option<string>)
    requires |t| <= MAX_RETAINED && FairVictim(t, victim)
    ensures |Admitted(t, id, now, victim).1| <= MAX_RETAINED
    ensures Admitted(t, id, now, victim).1.Keys <= t.Keys + {id}
  {
    if id !in t && |t| == MAX_RETAINED && victim.Some? {
      assert (t - {victim.value}).Keys == t.Keys - {victim.value};
    }
  }

  lemma BeginKeepsOwned(u: State, r: nat, now: int, victim: Option<string>)
    requires Owned(u) && r in u.holders && u.holders[r].Claimed? && FairVictim(u.transfers, victim)
    ensures var (ok, t) := Admitted(u.transfers, u.holders[r].id, now, victim);
            Owned(State(t, u.holders[r := if ok then Running(u.holders[r].id) else Leaving]))
  {
    var id := u.holders[r].id;
    if id in u.transfers || (|u.transfers| >= MAX_RETAINED && victim.None?) {
      LeaveKeepsOwned(u, r);
    } else if |u.transfers| < MAX_RETAINED {
      AddKeepsOwned(u, r, id, now);
    } else {
      DropKeepsOwned(u, {victim.value});
      AddKeepsOwned(u.(transfers := u.transfers - {victim.value}), r, id, now);
    }
  }

  lemma BeginKeepsBounded(u: State, maxConcurrent: nat, r: nat, now: int, victim: Option<string>)
    requires Bounded(u, maxConcurrent) && r in u.holders && u.holders[r].Claimed? && FairVictim(u.transfers, victim)
    ensures var (ok, t) := Admitted(u.transfers, u.holders[r].id, now, victim);
            Bounded(State(t, u.holders[r := if ok then Running(u.holders[r].id) else Leaving]), maxConcurrent)
  {
    AdmittedIsBounded(u.transfers, u.holders[r].id, now, victim);
    var (ok, t) := Admitted(u.transfers, u.holders[r].id, now, victim);
    assert forall id <- t :: id in t.Keys;
    assert u.holders[r := if ok then Running(u.holders[r].id) else Leaving].Keys == u.holders.Keys;
  }

  lemma BeginKeeps(s: State, maxConcurrent: nat, r: nat, now: int, victim: Option<string>)
    requires Inv(s, maxConcurrent) && Enabled(s, maxConcurrent, Begin(r, now, victim))
    ensures Inv(Step(s, Begin(r, now, victim)), maxConcurrent)
  {
    UnexpiredKeeps(s, maxConcurrent, now);
    var u := s.(transfers := Unexpired(s.transfers, now));
    BeginKeepsOwned(u, r, now, victim);
    BeginKeepsBounded(u, maxConcurrent, r, now, victim);
  }

  lemma WorkKeeps(s: State, maxConcurrent: nat, a: Action)
    requires Inv(s, maxConcurrent) && Enabled(s, maxConcurrent, a) && (a.Observation? || a.Finish?)
    ensures Inv(Step(s, a), maxConcurrent)
  {
    var s' := Step(s, a);
    assert s'.transfers.Keys == s.transfers.Keys;
    assert s'.holders.Keys == s.holders.Keys;
    forall other <- s'.transfers | !IsTerminal(s'.transfers[other])
      ensures exists q <- s'.holders :: s'.holders[q] == Running(other)
    {
      assert !IsTerminal(s.transfers[other]);
      var q :| q in s.holders && s.holders[q] == Running(other);
      assert s'.holders[q] == Running(other);
    }
  }

  lemma TakeKeepsOwned(s: State, r: nat, h: Request)
    requires Owned(s) && !h.Running? && r !in s.holders
    ensures Owned(s.(holders := s.holders[r := h]))
  {
    var s' := s.(holders := s.holders[r := h]);
    forall id <- s.transfers | !IsTerminal(s.transfers[id]) ensures exists q <- s'.holders :: s'.holders[q] == Running(id) {
      var q :| q in s.holders && s.holders[q] == Running(id);
      assert s'.holders[q] == Running(id);
    }
  }

  lemma ReleaseKeepsOwned(s: State, r: nat)
    requires Owned(s) && r in s.holders && s.holders[r].Leaving?
    ensures Owned(s.(holders := s.holders - {r}))
  {
    var s' := s.(holders := s.holders - {r});
    forall id <- s.transfers | !IsTerminal(s.transfers[id]) ensures exists q <- s'.holders :: s'.holders[q] == Running(id) {
      var q :| q in s.holders && s.holders[q] == Running(id);
      assert s'.holders[q] == Running(id);
    }
  }

  lemma SlotKeeps(s: State, maxConcurrent: nat, a: Action)
    requires Inv(s, maxConcurrent) && Enabled(s, maxConcurrent, a) && (a.TakeSlot? || a.ReleaseSlot?)
    ensures Inv(Step(s, a), maxConcurrent)
  {
    match a
    case TakeSlot(r, id) =>
      TakeKeepsOwned(s, r, if id == "" then Leaving else Claimed(id));
    case ReleaseSlot(r) =>
      ReleaseKeepsOwned(s, r);
      Subset((s.holders - {r}).Keys, s.holders.Keys);
  }

  lemma StepKeepsInv(s: State, maxConcurrent: nat, a: Action)
    requires Inv(s, maxConcurrent) && Enabled(s, maxConcurrent, a)
    ensures Inv(Step(s, a), maxConcurrent)
  {
    match a
    case Begin(r, now, victim) => BeginKeeps(s, maxConcurrent, r, now, victim);
    case Observation(_, _, _) => WorkKeeps(s, maxConcurrent, a);
    case Finish(_, _, _) => WorkKeeps(s, maxConcurrent, a);
    case Poll(now) => UnexpiredKeeps(s, maxConcurrent, now);
    case TakeSlot(_, _) => SlotKeeps(s, maxConcurrent, a);
    case ReleaseSlot(_) => SlotKeeps(s, maxConcurrent, a);
  }

  /** What a transfer that goes has gone through: it is finished, and either its time is up or
      the registry is full and it is an oldest finished one of those still in time. */
  lemma OnlyFinishedGo(s: State, maxConcurrent: nat, a: Action, id: string)
    requires Inv(s, maxConcurrent) && Enabled(s, maxConcurrent, a)
    requires id in s.transfers && id !in Step(s, a).transfers
    ensures IsTerminal(s.transfers[id]) && (a.Begin? || a.Poll?)
    ensures a.now - s.transfers[id].updatedAt > 600_000_000_000
            || (a.Begin? && |Unexpired(s.transfers, a.now)| == 128 && OldestTerminal(Unexpired(s.transfers, a.now), id))
  {
    if a.Begin? || a.Poll? {
      Subset(Unexpired(s.transfers, a.now).Keys, s.transfers.Keys);
    }
  }

  /** Actions that are not enabled are skipped. */
  ghost function Run(maxConcurrent: nat, actions: seq<Action>): (s: State)
    ensures Inv(s, maxConcurrent)
  {
    if actions == [] then INITIAL
    else
      var before := Run(maxConcurrent, actions[..|actions| - 1]);
      var a := actions[|actions| - 1];
      if Enabled(before, maxConcurrent, a) then
        StepKeepsInv(before, maxConcurrent, a);
        Step(before, a)
      else before
  }

  /** Whatever requests, observations, ends and polls interleave: the registry holds at most
      128 transfers, unfinished ones never outnumber the held slots, and with at most 128 slots
      a slot holder is refused exactly when its task id is still in the map. */
  lemma RegistryIsBounded(maxConcurrent: nat, actions: seq<Action>, r: nat, now: int, victim: Option<string>)
    ensures var s := Run(maxConcurrent, actions);
            && |s.transfers| <= 128
            && |Unfinished(s.transfers)| <= |s.holders| <= maxConcurrent
            && (maxConcurrent <= 128 && Enabled(s, maxConcurrent, Begin(r, now, victim)) ==>
                  var t := Unexpired(s.transfers, now);
                  Admitted(t, s.holders[r].id, now, victim).0 <==> s.holders[r].id !in t)
  {
    var s := Run(maxConcurrent, actions);
    UnfinishedAreRunning(s);
    if Enabled(s, maxConcurrent, Begin(r, now, victim)) {
      RefusedOnlyIfKnown(s, maxConcurrent, r, now, victim);
    }
  }
}
