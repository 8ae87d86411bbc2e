/** A download can always be completed: from any state a run can reach, while the session
    lives and both sides can still seal as many packets as there are chunks missing, one
    timeout and then one request and one reply per missing chunk finish it. */
module Progress {
  import opened Bytes
  import opened Codec
  import opened Transfer
  import C = Chunks
  import R = Receiver
  import W = SendWindow

  /** Chunks not yet stored by the client. */
  function MissingChunks(v: R.View): int {
    v.meta.chunks - |v.stored|
  }

  predicate IsMissing(v: R.View, i: nat) {
    v.nextWrite <= i < v.nextRequest && i !in v.buffered
  }

  /** A request for index `i` that no replay check can refuse. */
  ghost predicate Waits(packets: set<Sealed>, highest: nat, sequence: nat, i: nat) {
    i <= MAX_UINT32 && Sealed(sequence, Get(i)) in packets && sequence > highest
  }

  /** `at` names such a request for each missing index of the window, later indices under
      later sequences. */
  ghost predicate Armed(v: R.View, packets: set<Sealed>, highest: nat, at: map<nat, nat>) {
    && (forall i: nat :: IsMissing(v, i) ==> i in at && Waits(packets, highest, at[i], i))
    && InOrder(v, at)
  }

  ghost predicate InOrder(v: R.View, at: map<nat, nat>) {
    forall i: nat, j: nat :: IsMissing(v, i) && IsMissing(v, j) && i < j ==> i in at && j in at && at[i] < at[j]
  }

  /** Live on both sides, nothing half done, and packets enough left. */
  ghost predicate Live(w: World, s: System)
    requires |w.archive| < 0x8000_0000_0000_0000
  {
    && Inv(w, s)
    && s.client.stage.Receiving? && s.server.phase == Ready && s.server.pending.None?
    && s.server.sealed + MissingChunks(s.client.view) <= MAX_UINT32
  }

  /** The steps of a run in which nothing fails: requests, replies and one kind of timeout. */
  predicate FaultFree(a: Action) {
    match a
    case ClientTimesOut(_) => true
    case ClientReceives(_, _) => true
    case ServerReceives(_, readable, sendable) => readable && sendable
    case ServerRecords => true
    case _ => false
  }

  predicate AllFaultFree(actions: seq<Action>) {
    forall a <- actions :: FaultFree(a)
  }

  // ----- one request answered -----

  lemma RequestIsWithin(w: World, s: System, q: nat, index: U32)
    requires w.Valid() && Inv(w, s) && s.server.phase == Ready && s.server.pending.None?
    requires Sealed(q, Get(index)) in s.toServer
    ensures w.Prepared().Some? && index < w.Prepared().value.chunks
    ensures W.WithinWindow(W.Base(s.server.sent, w.Prepared().value.chunks), index)
  {
    WindowsAgreeIn(w, s);
  }

  /** The server with chunk `index` just sent, and not yet recorded. */
  function Answered(w: World, s: System, index: U32): System
    requires w.Valid() && w.Prepared().Some? && index < w.Prepared().value.chunks
  {
    s.(server := s.server.(sealed := s.server.sealed + 1, pending := Some(index)),
       toClient := s.toClient
         + {Sealed(s.server.sealed + 1, Data(index, C.ChunkOf(w.archive, w.Prepared().value, index)))})
  }

  lemma GetIsAnswered(w: World, s: System, index: U32)
    requires w.Valid() && s.server.phase == Ready && s.server.sealed < MAX_UINT32
    requires w.Prepared().Some? && index < w.Prepared().value.chunks
    requires W.WithinWindow(W.Base(s.server.sent, w.Prepared().value.chunks), index)
    ensures ServerHandlesGet(w, s, index, true, true) == Answered(w, s, index)
  {}

  /** A request an honest client made, when it opens on a live session, is answered with
      its chunk, however late it arrives. */
  lemma RequestIsAnswered(w: World, s: System, q: nat, index: U32)
    requires w.Valid() && Inv(w, s)
    requires s.server.phase == Ready && s.server.pending.None? && s.server.sealed < MAX_UINT32
    requires Sealed(q, Get(index)) in s.toServer && s.server.seen.Fresh(q)
    ensures w.Prepared().Some? && index < w.Prepared().value.chunks
    ensures Enabled(w, s, Serve(q, index)) && Step(w, s, Serve(q, index)) == Answered(w, ServerOpens(s, q), index)
  {
    RequestIsWithin(w, s, q, index);
    GetIsAnswered(w, ServerOpens(s, q), index);
  }

  function Serve(q: nat, index: U32): Action {
    ServerReceives(Sealed(q, Get(index)), true, true)
  }

  /** The reply stores the chunk, and leaves no index missing that was not. */
  lemma ReplyIsStored(was: R.View, index: U32, data: bytes, room: nat)
    requires R.Sound(was) && IsMissing(was, index) && |data| == C.ExpectedLength(was.meta, index)
    ensures var v := R.Drain(R.Store(was, index, data));
            && R.Handle(was, Data(index, data), room) == R.Fill(v, room)
            && R.Sound(v) && v.meta == was.meta && v.nextRequest == was.nextRequest
            && was.nextWrite <= v.nextWrite
            && |v.stored| == |was.stored| + 1
            && (forall i: nat :: IsMissing(v, i) ==> IsMissing(was, i) && i != index)
  {
    var stored := R.Store(was, index, data);
    R.StoreKeeps(was, index, data);
    R.DrainKeeps(stored);
    DrainMisses(stored);
    forall i: nat | IsMissing(R.Drain(stored), i) ensures IsMissing(was, i) && i != index {
      assert IsMissing(stored, i);
    }
  }

  /** The client opens the server's latest packet and handles it. */
  lemma LatestOpens(w: World, s: System, p: Packet, room: nat)
    requires w.Valid() && s.client.stage.Receiving? && s.client.sealed + room <= MAX_UINT32
    requires Sealed(s.server.sealed, p) in s.toClient && s.client.seen.highest < s.server.sealed
    ensures var a := ClientReceives(Sealed(s.server.sealed, p), room);
            && Enabled(w, s, a)
            && Step(w, s, a) == ClientHandles(w,
                 ClientOpens(s, s.server.sealed), p, room)
  {}

  /** Draining writes only what was buffered. */
  lemma {:induction false} DrainMisses(v: R.View)
    requires R.Sound(v)
    ensures forall i: nat :: IsMissing(R.Drain(v), i) ==> IsMissing(v, i)
    decreases |v.buffered|
  {
    if v.nextWrite in v.buffered {
      R.WriteNextKeeps(v);
      var w := R.WriteNext(v);
      DrainMisses(w);
      R.DrainKeeps(w);
      forall i: nat | IsMissing(R.Drain(w), i) ensures IsMissing(v, i) {
        assert IsMissing(w, i);
      }
    }
  }

  // ----- one round: request, record, reply -----

  lemma Prepend(w: World, s: System, a: Action, rest: seq<Action>)
    requires w.Valid() && Enabled(w, s, a) && Runs(w, Step(w, s, a), rest)
    ensures Runs(w, s, [a] + rest) && Run(w, s, [a] + rest) == Run(w, Step(w, s, a), rest)
  {
    assert ([a] + rest)[1..] == rest;
  }

  lemma ServeAndRecord(w: World, s: System, q: nat, index: U32)
    requires w.Valid() && Live(w, s) && s.server.sealed < MAX_UINT32
    requires Sealed(q, Get(index)) in s.toServer && q > s.server.seen.highest
    ensures w.Prepared().Some? && index < w.Prepared().value.chunks
    ensures Runs(w, s, [Serve(q, index), ServerRecords])
    ensures var t := Run(w, s, [Serve(q, index), ServerRecords]);
            Inv(w, t) && t == Recorded(Answered(w, ServerOpens(s, q), index), index)
  {
    RequestIsAnswered(w, s, q, index);
    var s1 := Step(w, s, Serve(q, index));
    assert Enabled(w, s1, ServerRecords) && Step(w, s1, ServerRecords) == Recorded(s1, index);
    Prepend(w, s1, ServerRecords, []);
    Prepend(w, s, Serve(q, index), [ServerRecords]);
    RunKeepsInv(w, s, [Serve(q, index), ServerRecords]);
  }

  function Recorded(s: System, index: nat): System {
    s.(server := s.server.(sent := s.server.sent + {index}, pending := None))
  }

  /** The receiver's half of a round: one chunk more, the window refilled, nothing else missing. */
  lemma ReplyRefills(was: R.View, index: U32, data: bytes, room: nat)
    requires R.AtLoopHead(was) && IsMissing(was, index) && |data| == C.ExpectedLength(was.meta, index)
    requires was.meta.chunks - was.nextRequest <= room
    ensures var e := R.Handle(was, Data(index, data), room);
            && e.outcome.Waiting? && R.AtLoopHead(e.view)
            && e.view.meta == was.meta && was.nextRequest <= e.view.nextRequest <= was.meta.chunks
            && |e.view.stored| == |was.stored| + 1
            && e.requests == R.Range(was.nextRequest, e.view.nextRequest)
            && (forall i: nat :: IsMissing(e.view, i) && i < was.nextRequest ==> IsMissing(was, i) && i != index)
  {
    ReplyIsStored(was, index, data, room);
    var v := R.Drain(R.Store(was, index, data));
    R.FillKeeps(v, room);
    R.HandleKeeps(was, Data(index, data), room);
    var e := R.Fill(v, room);
    forall i: nat | IsMissing(e.view, i) && i < was.nextRequest ensures IsMissing(was, i) && i != index {
      assert IsMissing(v, i);
    }
  }

  lemma HandlesReply(w: World, t: System, index: U32, data: bytes, room: nat)
    requires w.Valid() && Inv(w, t) && t.client.stage.Receiving?
    requires IsMissing(t.client.view, index) && |data| == C.ExpectedLength(t.client.view.meta, index)
    requires Truthful(w, Served(t.server.sent, t.server.pending), Data(index, data))
    requires t.client.sealed + room <= MAX_UINT32
    requires t.client.view.meta.chunks - t.client.view.nextRequest <= room
    ensures ClientHandles(w, t, Data(index, data), room) == AfterBurst(t, R.Handle(t.client.view, Data(index, data), room))
    ensures Inv(w, ClientHandles(w, t, Data(index, data), room))
  {
    ReplyRefills(t.client.view, index, data, room);
    ReceivingKeeps(w, t, Data(index, data), room);
  }

  /** The client's half of a round. */
  lemma ReplyAdvances(w: World, s: System, index: U32, data: bytes, room: nat)
    requires w.Valid() && Inv(w, ClientOpens(s, s.server.sealed)) && s.client.stage.Receiving?
    requires Truthful(w, Served(s.server.sent, s.server.pending), Data(index, data))
    requires IsMissing(s.client.view, index) && |data| == C.ExpectedLength(s.client.view.meta, index)
    requires Sealed(s.server.sealed, Data(index, data)) in s.toClient && s.client.seen.highest < s.server.sealed
    requires s.client.view.meta.chunks - s.client.view.nextRequest <= room <= MAX_UINT32 - s.client.sealed
    ensures Enabled(w, s, ClientReceives(Sealed(s.server.sealed, Data(index, data)), room))
    ensures Step(w, s, ClientReceives(Sealed(s.server.sealed, Data(index, data)), room))
         == AfterBurst(ClientOpens(s, s.server.sealed), R.Handle(s.client.view, Data(index, data), room))
  {
    LatestOpens(w, s, Data(index, data), room);
    HandlesReply(w, ClientOpens(s, s.server.sealed), index, data, room);
  }

  ghost predicate Ascending(indices: seq<U32>) {
    forall j, k | 0 <= j < k < |indices| :: indices[j] < indices[k]
  }

  /** The sequences under which one burst of requests goes out. */
  function Named(sealed: nat, indices: seq<U32>): map<nat, nat> {
    if indices == [] then map[]
    else Named(sealed, indices[..|indices| - 1])[indices[|indices| - 1] := sealed + |indices|]
  }

  lemma {:induction false} NamedAt(sealed: nat, indices: seq<U32>, k: nat)
    requires Ascending(indices) && k < |indices|
    ensures indices[k] in Named(sealed, indices) && Named(sealed, indices)[indices[k]] == sealed + 1 + k
    ensures Sealed(sealed + 1 + k, Get(indices[k])) in Gets(sealed, indices)
  {
    if k < |indices| - 1 {
      NamedAt(sealed, indices[..|indices| - 1], k);
    }
  }

  lemma {:induction false} NamedOnly(sealed: nat, indices: seq<U32>, i: nat)
    requires forall k | 0 <= k < |indices| :: indices[k] != i
    ensures i !in Named(sealed, indices)
  {
    if indices != [] {
      NamedOnly(sealed, indices[..|indices| - 1], i);
    }
  }

  /** Requests of one burst carry increasing sequences. */
  lemma NamedIn(sealed: nat, indices: seq<U32>, i: nat) returns (k: nat)
    requires Ascending(indices) && i in indices
    ensures k < |indices| && indices[k] == i && i in Named(sealed, indices) && Named(sealed, indices)[i] == sealed + 1 + k
    ensures i <= MAX_UINT32 && Sealed(sealed + 1 + k, Get(i)) in Gets(sealed, indices)
  {
    k :| k < |indices| && indices[k] == i;
    NamedAt(sealed, indices, k);
  }

  lemma NamedIncreases(sealed: nat, indices: seq<U32>, i: nat, j: nat)
    requires Ascending(indices) && i in indices && j in indices && i < j
    ensures i in Named(sealed, indices) && j in Named(sealed, indices)
    ensures Named(sealed, indices)[i] < Named(sealed, indices)[j]
  {
    var k := NamedIn(sealed, indices, i);
    var l := NamedIn(sealed, indices, j);
  }

  lemma InRange(lo: nat, hi: nat, i: nat)
    requires lo <= hi <= MAX_UINT32 + 1
    ensures i in R.Range(lo, hi) <==> lo <= i < hi
  {
    if lo <= i < hi {
      assert R.Range(lo, hi)[i - lo] == i;
    }
  }

  /** An index that is missing after a round: missing before it and not answered, or new. */
  ghost predicate Remains(was: R.View, indices: seq<U32>, i: nat) {
    (i < was.nextRequest && IsMissing(was, i) && i != was.nextWrite) || (i >= was.nextRequest && i in indices)
  }

  lemma RearmAt(was: R.View, packets: set<Sealed>, sealed: nat, highest: nat, at: map<nat, nat>, indices: seq<U32>, i: nat)
    requires Armed(was, packets, highest, at) && IsMissing(was, was.nextWrite) && at[was.nextWrite] <= sealed
    requires Ascending(indices) && forall k | 0 <= k < |indices| :: indices[k] >= was.nextRequest
    requires Remains(was, indices, i)
    ensures var at' := at + Named(sealed, indices);
            i in at' && Waits(packets + Gets(sealed, indices), at[was.nextWrite], at'[i], i)
    ensures i < was.nextRequest ==> i in at && (at + Named(sealed, indices))[i] == at[i]
    ensures i >= was.nextRequest ==> i in Named(sealed, indices) && Named(sealed, indices)[i] > sealed
  {
    if i < was.nextRequest {
      assert Waits(packets, highest, at[i], i);
      NamedOnly(sealed, indices, i);
    } else {
      var k := NamedIn(sealed, indices, i);
    }
  }

  lemma RearmOrder(was: R.View, packets: set<Sealed>, sealed: nat, highest: nat, at: map<nat, nat>, indices: seq<U32>, i: nat, j: nat)
    requires Armed(was, packets, highest, at) && IsMissing(was, was.nextWrite) && at[was.nextWrite] <= sealed
    requires forall p <- packets :: p.sequence <= sealed
    requires Ascending(indices) && forall k | 0 <= k < |indices| :: indices[k] >= was.nextRequest
    requires Remains(was, indices, i) && Remains(was, indices, j) && i < j
    ensures var at' := at + Named(sealed, indices);
            i in at' && j in at' && at'[i] < at'[j]
  {
    RearmAt(was, packets, sealed, highest, at, indices, i);
    RearmAt(was, packets, sealed, highest, at, indices, j);
    if i >= was.nextRequest {
      NamedIncreases(sealed, indices, i, j);
    } else {
      assert Waits(packets, highest, at[i], i);
    }
  }

  /** Answering the first missing index leaves the others armed, and the refill arms the new ones. */
  lemma Rearm(was: R.View, packets: set<Sealed>, sealed: nat, highest: nat, at: map<nat, nat>, v: R.View)
    requires Armed(was, packets, highest, at) && IsMissing(was, was.nextWrite)
    requires forall p <- packets :: p.sequence <= sealed
    requires was.nextRequest <= v.nextRequest
    requires forall i: nat :: IsMissing(v, i) && i < was.nextRequest ==> IsMissing(was, i) && i != was.nextWrite
    ensures Armed(v, packets + Gets(sealed, R.Range(was.nextRequest, v.nextRequest)), at[was.nextWrite],
                  at + Named(sealed, R.Range(was.nextRequest, v.nextRequest)))
  {
    var indices := R.Range(was.nextRequest, v.nextRequest);
    var at' := at + Named(sealed, indices);
    assert Waits(packets, highest, at[was.nextWrite], was.nextWrite);
    forall i: nat | IsMissing(v, i) ensures Remains(was, indices, i) {
      InRange(was.nextRequest, v.nextRequest, i);
    }
    forall i: nat | IsMissing(v, i)
      ensures i in at' && Waits(packets + Gets(sealed, indices), at[was.nextWrite], at'[i], i)
    {
      RearmAt(was, packets, sealed, highest, at, indices, i);
    }
    forall i: nat, j: nat | IsMissing(v, i) && IsMissing(v, j) && i < j
      ensures i in at' && j in at' && at'[i] < at'[j]
    {
      RearmOrder(was, packets, sealed, highest, at, indices, i, j);
    }
  }

  /** Enough requests can still be sealed to ask for what the window has not reached. */
  ghost predicate CanAsk(s: System) {
    s.client.sealed + (s.client.view.meta.chunks - s.client.view.nextRequest) <= MAX_UINT32
  }

  /** What the client's half of a round changes. */
  ghost predicate Replied(s: System, t: System, index: nat) {
    var was, v := s.client.view, t.client.view;
    && t.server == s.server
    && v.meta == was.meta && was.nextRequest <= v.nextRequest <= v.meta.chunks
    && |v.stored| == |was.stored| + 1
    && t.client.sealed == s.client.sealed + (v.nextRequest - was.nextRequest)
    && t.toServer == s.toServer + Gets(s.client.sealed, R.Range(was.nextRequest, v.nextRequest))
    && (t.client.stage.Finishing? || t.client.stage.Receiving?)
    && (forall i: nat :: IsMissing(v, i) && i < was.nextRequest ==> IsMissing(was, i) && i != index)
  }

  lemma ReplyHalf(w: World, s: System, index: U32, data: bytes) returns (reply: Action)
    requires w.Valid() && Inv(w, s) && s.client.stage.Receiving? && CanAsk(s)
    requires IsMissing(s.client.view, index) && |data| == C.ExpectedLength(s.client.view.meta, index)
    requires Sealed(s.server.sealed, Data(index, data)) in s.toClient && s.client.seen.highest < s.server.sealed
    ensures reply.ClientReceives? && Enabled(w, s, reply)
    ensures Inv(w, Step(w, s, reply)) && Replied(s, Step(w, s, reply), index)
  {
    var room := MAX_UINT32 - s.client.sealed;
    reply := ClientReceives(Sealed(s.server.sealed, Data(index, data)), room);
    ClientOpensKeeps(w, s, Sealed(s.server.sealed, Data(index, data)));
    ReplyAdvances(w, s, index, data, room);
    ReplyRefills(s.client.view, index, data, room);
    StepKeepsInv(w, s, reply);
  }

  lemma RequestHalf(w: World, s: System, q: nat, index: U32) returns (actions: seq<Action>)
    requires w.Valid() && Live(w, s) && IsMissing(s.client.view, index)
    requires Waits(s.toServer, s.server.seen.highest, q, index)
    ensures |actions| == 2 && Runs(w, s, actions) && AllFaultFree(actions)
    ensures var t := Run(w, s, actions);
            && Inv(w, t) && t.client == s.client && t.toServer == s.toServer
            && t.server.phase == Ready && t.server.pending.None? && t.server.seen.highest == q
            && t.server.sealed == s.server.sealed + 1
            && Sealed(t.server.sealed, Data(index, C.ChunkOf(w.archive, s.client.view.meta, index))) in t.toClient
  {
    MissingSome(w, s);
    ServeAndRecord(w, s, q, index);
    ServedShape(w, s, q, index);
    actions := [Serve(q, index), ServerRecords];
  }

  lemma ServedShape(w: World, s: System, q: nat, index: U32)
    requires w.Valid() && w.Prepared().Some? && index < w.Prepared().value.chunks && q > s.server.seen.highest
    ensures var t := Recorded(Answered(w, ServerOpens(s, q), index), index);
            && t.client == s.client && t.toServer == s.toServer
            && t.server.phase == s.server.phase && t.server.pending.None? && t.server.seen.highest == q
            && t.server.sealed == s.server.sealed + 1
            && Sealed(t.server.sealed, Data(index, C.ChunkOf(w.archive, w.Prepared().value, index))) in t.toClient
  {}

  lemma StillArmed(s: System, at: map<nat, nat>, t: System)
    requires s.client.view.nextWrite in at && s.server.seen.highest == at[s.client.view.nextWrite]
    requires exists highest :: Armed(s.client.view, s.toServer, highest, at)
    requires IsMissing(s.client.view, s.client.view.nextWrite)
    requires forall p <- s.toServer :: p.sequence <= s.client.sealed
    requires Replied(s, t, s.client.view.nextWrite)
    ensures Armed(t.client.view, t.toServer, t.server.seen.highest,
                  at + Named(s.client.sealed, R.Range(s.client.view.nextRequest, t.client.view.nextRequest)))
  {
    var highest :| Armed(s.client.view, s.toServer, highest, at);
    Rearm(s.client.view, s.toServer, s.client.sealed, highest, at, t.client.view);
  }

  /** One round: the request for the first missing index is delivered, answered, recorded,
      and its reply delivered. */
  lemma Round(w: World, s: System, at: map<nat, nat>) returns (actions: seq<Action>, at': map<nat, nat>)
    requires w.Valid() && Live(w, s) && CanAsk(s) && Armed(s.client.view, s.toServer, s.server.seen.highest, at)
    ensures |actions| == 3 && Runs(w, s, actions) && AllFaultFree(actions)
    ensures var t := Run(w, s, actions);
            && Inv(w, t)
            && MissingChunks(t.client.view) == MissingChunks(s.client.view) - 1
            && (t.client.stage.Finishing? || (Live(w, t) && CanAsk(t) && Armed(t.client.view, t.toServer, t.server.seen.highest, at')))
  {
    var v := s.client.view;
    var index: U32 := v.nextWrite;
    assert IsMissing(v, index);
    var serve := RequestHalf(w, s, at[index], index);
    var s2 := Run(w, s, serve);
    var reply := ReplyHalf(w, s2, index, C.ChunkOf(w.archive, v.meta, index));
    var t := Step(w, s2, reply);
    StillArmed(s2, at, t);
    at' := at + Named(s.client.sealed, R.Range(v.nextRequest, t.client.view.nextRequest));
    actions := serve + [reply];
    Single(w, s2, reply);
    Concat(w, s, serve, [reply]);
  }

  lemma MissingSome(w: World, s: System)
    requires w.Valid() && Inv(w, s) && s.client.stage.Receiving?
    ensures MissingChunks(s.client.view) > 0
  {
    R.DoneWhenAllStored(s.client.view);
    R.BufferInside(s.client.view);
  }

  lemma {:induction false} Concat(w: World, s: System, first: seq<Action>, rest: seq<Action>)
    requires w.Valid() && Runs(w, s, first) && Runs(w, Run(w, s, first), rest)
    ensures Runs(w, s, first + rest) && Run(w, s, first + rest) == Run(w, Run(w, s, first), rest)
    ensures AllFaultFree(first) && AllFaultFree(rest) ==> AllFaultFree(first + rest)
    decreases |first|
  {
    if first == [] {
      assert first + rest == rest;
    } else {
      assert (first + rest)[1..] == first[1..] + rest;
      Concat(w, Step(w, s, first[0]), first[1..], rest);
    }
  }

  lemma Single(w: World, s: System, a: Action)
    requires w.Valid() && Enabled(w, s, a)
    ensures Runs(w, s, [a]) && Run(w, s, [a]) == Step(w, s, a)
    ensures FaultFree(a) ==> AllFaultFree([a])
  {
    Prepend(w, s, a, []);
    assert [a] + [] == [a];
  }

  // ----- all the rounds -----

  lemma FinishedMissesNone(w: World, t: System)
    requires w.Valid() && Inv(w, t) && t.client.stage.Finishing?
    ensures MissingChunks(t.client.view) <= 0
  {}

  /** As many rounds as there are chunks missing. */
  lemma {:induction false} Rounds(w: World, s: System, at: map<nat, nat>) returns (actions: seq<Action>)
    requires w.Valid() && Live(w, s) && CanAsk(s)
    requires Armed(s.client.view, s.toServer, s.server.seen.highest, at)
    ensures Runs(w, s, actions) && AllFaultFree(actions)
    ensures Run(w, s, actions).client.stage.Finishing?
    ensures |actions| == 3 * MissingChunks(s.client.view)
    decreases MissingChunks(s.client.view)
  {
    MissingSome(w, s);
    var round, at' := Round(w, s, at);
    var t := Run(w, s, round);
    if t.client.stage.Finishing? {
      actions := round;
      FinishedMissesNone(w, t);
    } else {
      var rest := Rounds(w, t, at');
      Concat(w, s, round, rest);
      actions := round + rest;
    }
  }

  lemma TimeoutStep(w: World, s: System, room: nat)
    requires w.Valid() && s.client.stage.Receiving? && s.client.view.nextWrite < s.client.view.meta.chunks
    requires |R.Missing(s.client.view, s.client.view.nextWrite)| <= room && s.client.sealed + room <= MAX_UINT32
    ensures var missing := R.Missing(s.client.view, s.client.view.nextWrite);
            Step(w, s, ClientTimesOut(room))
            == s.(client := s.client.(sealed := s.client.sealed + |missing|), toServer := s.toServer + Gets(s.client.sealed, missing))
  {}

  /** A timeout asks for every missing index of the window, and for nothing else. */
  lemma TimeoutArms(w: World, s: System, room: nat)
    requires w.Valid() && Inv(w, s) && s.client.stage.Receiving?
    requires s.client.sealed + MissingChunks(s.client.view) <= MAX_UINT32 && room == MAX_UINT32 - s.client.sealed
    ensures Enabled(w, s, ClientTimesOut(room))
    ensures var t := Step(w, s, ClientTimesOut(room));
            var missing := R.Missing(s.client.view, s.client.view.nextWrite);
            && t == s.(client := s.client.(sealed := s.client.sealed + |missing|),
                       toServer := s.toServer + Gets(s.client.sealed, missing))
            && t.client.sealed + (s.client.view.meta.chunks - s.client.view.nextRequest) <= MAX_UINT32
            && Armed(t.client.view, t.toServer, t.server.seen.highest, Named(s.client.sealed, missing))
  {
    TimeoutFits(s.client.view);
    TimeoutStep(w, s, room);
    ArmedByTimeout(s.client.view, s.toServer, s.client.sealed, s.server.seen.highest);
  }

  /** What a timeout requests, and what the window has not reached, is no more than what is missing. */
  lemma TimeoutFits(v: R.View)
    requires R.Sound(v)
    ensures |R.Missing(v, v.nextWrite)| + (v.meta.chunks - v.nextRequest) == MissingChunks(v)
  {
    MissingCount(v, v.nextWrite);
    BufferedFrom(v);
  }

  lemma ArmedByTimeout(v: R.View, packets: set<Sealed>, sealed: nat, highest: nat)
    requires R.Sound(v) && highest <= sealed
    ensures var missing := R.Missing(v, v.nextWrite);
            Armed(v, packets + Gets(sealed, missing), highest, Named(sealed, missing))
  {
    var missing := R.Missing(v, v.nextWrite);
    MissingAre(v);
    NamedWait(v, packets, sealed, highest, missing);
    NamedInOrder(v, sealed, missing);
  }

  /** What a timeout requests is what is missing. */
  ghost predicate Lists(v: R.View, missing: seq<U32>) {
    Ascending(missing) && forall i: nat :: IsMissing(v, i) ==> i in missing
  }

  lemma MissingAre(v: R.View)
    requires R.Sound(v)
    ensures Lists(v, R.Missing(v, v.nextWrite))
  {
    R.MissingExact(v, v.nextWrite);
  }

  lemma NamedWait(v: R.View, packets: set<Sealed>, sealed: nat, highest: nat, missing: seq<U32>)
    requires Lists(v, missing) && highest <= sealed
    ensures forall i: nat :: IsMissing(v, i) ==>
              i in Named(sealed, missing) && Waits(packets + Gets(sealed, missing), highest, Named(sealed, missing)[i], i)
  {
    forall i: nat | IsMissing(v, i)
      ensures i in Named(sealed, missing) && Waits(packets + Gets(sealed, missing), highest, Named(sealed, missing)[i], i)
    {
      var k := NamedIn(sealed, missing, i);
    }
  }

  lemma NamedInOrder(v: R.View, sealed: nat, missing: seq<U32>)
    requires Lists(v, missing)
    ensures InOrder(v, Named(sealed, missing))
  {
    var at := Named(sealed, missing);
    forall i: nat, j: nat | IsMissing(v, i) && IsMissing(v, j) && i < j
      ensures i in at && j in at && at[i] < at[j]
    {
      NamedIncreases(sealed, missing, i, j);
    }
  }

  lemma {:induction false} MissingCount(v: R.View, from: nat)
    requires from <= v.nextRequest && forall k <- v.buffered :: k < v.nextRequest
    ensures |R.Missing(v, from)| == (v.nextRequest - from) - |set k | k in v.buffered && k >= from|
    decreases v.nextRequest - from
  {
    var later := set k | k in v.buffered && k >= from + 1;
    var all := set k | k in v.buffered && k >= from;
    if from == v.nextRequest {
      assert all == {};
    } else {
      MissingCount(v, from + 1);
      if from in v.buffered {
        assert all == later + {from};
      } else {
        assert all == later;
      }
    }
  }

  lemma BufferedFrom(v: R.View)
    requires R.Sound(v)
    ensures |set k | k in v.buffered && k >= v.nextWrite| == |v.buffered|
  {
    assert (set k | k in v.buffered && k >= v.nextWrite) == v.buffered.Keys;
    assert |v.buffered.Keys| == |v.buffered|;
  }

  /** The same, once the last reply has been recorded. */
  lemma SettledCompletes(w: World, s: System) returns (actions: seq<Action>)
    requires w.Valid() && Live(w, s)
    requires s.client.sealed + MissingChunks(s.client.view) <= MAX_UINT32
    ensures Runs(w, s, actions) && AllFaultFree(actions)
    ensures Run(w, s, actions).client.stage.Finishing?
    ensures |actions| == 1 + 3 * MissingChunks(s.client.view)
  {
    var room := MAX_UINT32 - s.client.sealed;
    var timeout := ClientTimesOut(room);
    TimeoutArms(w, s, room);
    var t := Step(w, s, timeout);
    StepKeepsInv(w, s, timeout);
    var rest := Rounds(w, t, Named(s.client.sealed, R.Missing(s.client.view, s.client.view.nextWrite)));
    Single(w, s, timeout);
    Concat(w, s, [timeout], rest);
    actions := [timeout] + rest;
  }

  /** Progress: from any reachable state with the session live and, on both sides, as many
      packets left to seal as chunks are missing, some fault-free run of one timeout and one
      round per missing chunk passes every check, with the whole archive written. */
  lemma CanAlwaysComplete(w: World, s: System) returns (actions: seq<Action>)
    requires w.Valid() && Inv(w, s) && PhaseInv(s) && s.client.stage.Receiving? && s.server.phase != Gone
    requires s.client.sealed + MissingChunks(s.client.view) <= MAX_UINT32
    requires s.server.sealed + MissingChunks(s.client.view) <= MAX_UINT32
    ensures Runs(w, s, actions) && AllFaultFree(actions)
    ensures Run(w, s, actions).client.stage.Finishing? && Run(w, s, actions).client.view.written == w.archive
    ensures |actions| <= 2 + 3 * MissingChunks(s.client.view)
  {
    if s.server.pending.None? {
      actions := SettledCompletes(w, s);
    } else {
      StepKeepsInv(w, s, ServerRecords);
      Single(w, s, ServerRecords);
      var rest := SettledCompletes(w, Step(w, s, ServerRecords));
      Concat(w, s, [ServerRecords], rest);
      actions := [ServerRecords] + rest;
    }
    RunKeepsInv(w, s, actions);
    FinishedIsWhole(w, Run(w, s, actions));
  }

  lemma FinishedIsWhole(w: World, t: System)
    requires w.Valid() && Inv(w, t) && t.client.stage.Finishing?
    ensures t.client.view.written == w.archive
  {
    WrittenIsPrefix(w, Served(t.server.sent, t.server.pending), t.client.view);
  }

  /** The same for runs: however a run from the start has gone, if the client is receiving and
      the session lives, the run can be continued, without a fault, to a finished download. */
  lemma AnyRunCanComplete(w: World, before: seq<Action>) returns (actions: seq<Action>)
    requires w.Valid() && Runs(w, INITIAL, before)
    requires var s := Run(w, INITIAL, before);
             && s.client.stage.Receiving? && s.server.phase != Gone
             && s.client.sealed + MissingChunks(s.client.view) <= MAX_UINT32
             && s.server.sealed + MissingChunks(s.client.view) <= MAX_UINT32
    ensures Runs(w, INITIAL, before + actions) && AllFaultFree(actions)
    ensures Run(w, INITIAL, before + actions).client.stage.Finishing?
    ensures Run(w, INITIAL, before + actions).client.view.written == w.archive
    ensures |actions| <= 2 + 3 * MissingChunks(Run(w, INITIAL, before).client.view)
  {
    RunKeepsInv(w, INITIAL, before);
    RunKeepsPhase(w, INITIAL, before);
    actions := CanAlwaysComplete(w, Run(w, INITIAL, before));
    Concat(w, INITIAL, before, actions);
  }
}
