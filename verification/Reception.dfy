/** What the receiver's loop does after any events, event by event, and when it is sure to
    finish. Everything is said of `Receive` on the events that came. */
module Reception {
  import opened Bytes
  import opened Codec
  import opened Chunks
  import opened Receiver

  // ----- one event more -----

  lemma {:induction false} LoopAppend(v: View, room: nat, before: seq<Event>, more: seq<Event>)
    ensures var t := Loop(v, room, before);
            Loop(v, room, before + more)
            == if t.ending.Starved? then After(t.requests, Loop(t.view, room - |t.requests|, more)) else t
    decreases |before|, 0
  {
    if v.nextWrite < v.meta.chunks {
      if before == [] {
        assert before + more == more;
        assert [] + Loop(v, room, more).requests == Loop(v, room, more).requests;
      } else {
        assert (before + more)[1..] == before[1..] + more;
        ResumeAppend(React(v, before[0], room), room, before[1..], more);
      }
    }
  }

  lemma {:induction false} ResumeAppend(e: Effect, room: nat, before: seq<Event>, more: seq<Event>)
    requires |e.requests| <= room
    ensures var t := Resume(e, room, before);
            Resume(e, room, before + more)
            == if t.ending.Starved? then After(t.requests, Loop(t.view, room - |t.requests|, more)) else t
    decreases |before|, 1
  {
    if e.outcome.Waiting? {
      var left := room - |e.requests|;
      LoopAppend(e.view, left, before, more);
      var t := Loop(e.view, left, before);
      if t.ending.Starved? {
        AfterBoth([], e.requests, t.requests, Loop(t.view, left - |t.requests|, more));
      }
    }
  }

  lemma ReceiveAppend(m: Meta, room: nat, before: seq<Event>, more: seq<Event>)
    ensures var t := Receive(m, room, before);
            Receive(m, room, before + more)
            == if t.ending.Starved? then After(t.requests, Loop(t.view, room - |t.requests|, more)) else t
  {
    ResumeAppend(Fill(Start(m), room), room, before, more);
  }

  /** A transfer that still waits is at a loop head, with chunks to come. */
  lemma WaitsAtHead(m: Meta, room: nat, events: seq<Event>)
    requires Receive(m, room, events).ending.Starved?
    ensures var t := Receive(m, room, events); AtLoopHead(t.view) && t.view.meta == m && t.view.nextWrite < m.chunks
  {
    var e := Fill(Start(m), room);
    StartIsSound(m, room);
    FillKeeps(Start(m), room);
    var left := ResumeRests(e, room, events);
    LoopWaits(e.view, left, events);
  }

  lemma ResumeRests(e: Effect, room: nat, events: seq<Event>) returns (left: nat)
    requires |e.requests| <= room && Resume(e, room, events).ending.Starved?
    ensures e.outcome.Waiting? && left == room - |e.requests|
    ensures Loop(e.view, left, events).ending.Starved?
    ensures Resume(e, room, events).view == Loop(e.view, left, events).view
  {
    left := room - |e.requests|;
  }

  lemma LoopWaits(v: View, room: nat, events: seq<Event>)
    requires AtLoopHead(v) && Loop(v, room, events).ending.Starved?
    ensures var t := Loop(v, room, events);
            AtLoopHead(t.view) && t.view.meta == v.meta && t.view.nextWrite < v.meta.chunks
  {
    LoopTransfers(v, room, events);
  }

  /** How a turn leaves the transfer. */
  function EndingOf(e: Effect): Ending {
    if e.outcome.Failed? then Broke(e.outcome.error)
    else if e.view.nextWrite >= e.view.meta.chunks then Wrote(e.view.received)
    else Starved
  }

  lemma OneTurn(v: View, room: nat, event: Event)
    requires v.nextWrite < v.meta.chunks
    ensures var e := React(v, event, room);
            Loop(v, room, [event]) == Transcript(e.view, e.requests, EndingOf(e))
  {
    var e := React(v, event, room);
    assert [event][1..] == [];
    assert Loop(v, room, [event]) == Turn(v, room, [event]) == Resume(e, room, []);
    assert e.requests + [] == e.requests;
  }

  lemma OneMore(m: Meta, room: nat, before: seq<Event>, event: Event) returns (t: Transcript, left: nat, e: Effect)
    requires Receive(m, room, before).ending.Starved?
    ensures t == Receive(m, room, before) && left == room - |t.requests| && e == React(t.view, event, left)
    ensures AtLoopHead(t.view) && t.view.meta == m && t.view.nextWrite < m.chunks
    ensures Receive(m, room, before + [event]) == Transcript(e.view, t.requests + e.requests, EndingOf(e))
  {
    t := Receive(m, room, before);
    left := room - |t.requests|;
    e := React(t.view, event, left);
    WaitsAtHead(m, room, before);
    ReceiveAppend(m, room, before, [event]);
    OneTurn(t.view, left, event);
  }

  // ----- what each event does -----

  /** The first window: indices 0, 1, …, as many as it holds and as can be sent. */
  lemma FirstWindow(m: Meta, room: nat)
    ensures var t := Receive(m, room, []);
            var window := if m.chunks < 64 then m.chunks else 64;
            && |t.requests| == (if room < window then room else window)
            && (forall k | 0 <= k < |t.requests| :: t.requests[k] == k)
            && t.view.stored == map[] && t.view.written == [] && t.view.nextWrite == 0
            && (room < window ==> t.ending == Broke("chunk request could not be sent"))
            && (room >= window ==> t.ending == if m.chunks == 0 then Wrote(0) else Starved)
  {
    var e := Fill(Start(m), room);
    assert e.requests + [] == e.requests;
  }

  /** The indices of the window that are not in the buffer. */
  ghost predicate Lacks(v: View, i: nat) {
    v.nextWrite <= i < v.nextRequest && i !in v.buffered
  }

  /** A timeout asks again for exactly the unbuffered indices of the window, ascending, for all
      of them if the requests can be sent and else for the lowest; nothing else changes. */
  lemma AfterTimeout(m: Meta, room: nat, before: seq<Event>)
    requires Receive(m, room, before).ending.Starved?
    ensures var t, w := Receive(m, room, before), Receive(m, room, before + [Timeout]);
            && w.view == t.view && t.requests <= w.requests
            && var again := w.requests[|t.requests|..];
            && (forall j, k | 0 <= j < k < |again| :: again[j] < again[k])
            && (forall i <- again :: Lacks(t.view, i))
            && (w.ending.Starved? <==> forall i: nat :: Lacks(t.view, i) ==> i in again)
            && (!w.ending.Starved? ==> w.ending == Broke("chunk request could not be sent") && |w.requests| == room)
            && (!w.ending.Starved? ==> forall i: nat, k <- again :: Lacks(t.view, i) && i < k ==> i in again)
            && (|t.requests| + 64 <= room ==> w.ending.Starved?)
            && |again| <= 64
  {
    var t, left, e := OneMore(m, room, before, Timeout);
    AsksAgain(t.view, left, e);
    assert (t.requests + e.requests)[|t.requests|..] == e.requests;
  }

  lemma AsksAgain(v: View, room: nat, e: Effect)
    requires AtLoopHead(v) && e == Retransmit(v, room)
    ensures e.view == v && |e.requests| <= 64
    ensures forall j, k | 0 <= j < k < |e.requests| :: e.requests[j] < e.requests[k]
    ensures forall i <- e.requests :: Lacks(v, i)
    ensures e.outcome.Waiting? <==> forall i: nat :: Lacks(v, i) ==> i in e.requests
    ensures e.outcome.Failed? ==> e.outcome == Failed("chunk request could not be sent") && |e.requests| == room
    ensures e.outcome.Failed? ==> forall i: nat, k <- e.requests :: Lacks(v, i) && i < k ==> i in e.requests
    ensures 64 <= room ==> e.outcome.Waiting?
  {
    var missing := Missing(v, v.nextWrite);
    MissingExact(v, v.nextWrite);
    MissingFits(v, v.nextWrite);
    if |missing| > room {
      LeftOut(missing, room);
    }
  }

  lemma {:induction false} MissingFits(v: View, from: nat)
    requires from <= v.nextRequest
    ensures |Missing(v, from)| <= v.nextRequest - from
    decreases v.nextRequest - from
  {
    if from < v.nextRequest {
      MissingFits(v, from + 1);
    }
  }

  /** The first elements of an ascending list are its lowest, and not all of them. */
  lemma LeftOut(missing: seq<U32>, n: nat)
    requires forall j, k | 0 <= j < k < |missing| :: missing[j] < missing[k]
    requires n < |missing|
    ensures missing[n] in missing && missing[n] !in missing[..n]
    ensures forall i <- missing, k <- missing[..n] :: i < k ==> i in missing[..n]
  {
    forall i <- missing, k <- missing[..n] | i < k ensures i in missing[..n] {
      var at :| 0 <= at < |missing| && missing[at] == i;
      if at >= n {
        assert false;
      }
    }
  }

  /** A datagram the session does not open, or a packet that is no chunk and no error. */
  ghost predicate Useless(event: Event) {
    && event.Arrival?
    && (event.inner.Some? && Header(event.inner.value).Ok? ==> Header(event.inner.value).value.0 !in {ErrorType, DataType})
  }

  lemma AfterUseless(m: Meta, room: nat, before: seq<Event>, event: Event)
    requires Receive(m, room, before).ending.Starved? && Useless(event)
    ensures Receive(m, room, before + [event]) == Receive(m, room, before)
  {
    var t, left, e := OneMore(m, room, before, event);
    assert t.requests + [] == t.requests;
    UselessReacts(t.view, event, left);
  }

  lemma UselessReacts(v: View, event: Event, room: nat)
    requires Useless(event)
    ensures React(v, event, room) == Effect(v, [], Waiting)
  {}

  /** An interruption, a failed read, an error from the server or a chunk packet that does not
      decode. */
  ghost predicate Fatal(event: Event, error: string) {
    match event
    case Timeout => false
    case Stopped => error == "transfer stopped"
    case ReadError => error == "read error"
    case Arrival(None) => false
    case Arrival(Some(inner)) =>
      && Header(inner).Ok?
      && match Header(inner).value.0
         case ErrorType => error == "server error"
         case DataType => Decode(_ => true, DataType, inner) == Err(error)
         case _ => false
  }

  lemma AfterFatal(m: Meta, room: nat, before: seq<Event>, event: Event, error: string)
    requires Receive(m, room, before).ending.Starved? && Fatal(event, error)
    ensures Receive(m, room, before + [event]) == Receive(m, room, before).(ending := Broke(error))
  {
    var t, left, e := OneMore(m, room, before, event);
    assert t.requests + [] == t.requests;
    FatalReacts(t.view, event, error, left);
  }

  lemma FatalReacts(v: View, event: Event, error: string, room: nat)
    requires Fatal(event, error)
    ensures React(v, event, room) == Effect(v, [], Failed(error))
  {}

  /** The event brings the bytes of a chunk. */
  ghost predicate Carries(event: Event, index: U32, data: bytes) {
    && event.Arrival? && event.inner.Some?
    && Header(event.inner.value).Ok? && Header(event.inner.value).value.0 == DataType
    && Decode(_ => true, DataType, event.inner.value).Ok?
    && Decode(_ => true, DataType, event.inner.value).value.1 == Data(index, data)
  }

  lemma CarriedReacts(v: View, event: Event, index: U32, data: bytes, room: nat)
    requires Carries(event, index, data)
    ensures React(v, event, room) == Handle(v, Data(index, data), room)
  {
    DataIsRead(v, event.inner.value, room);
  }

  /** A chunk that is outside the window, or there already, changes nothing. */
  lemma AfterStale(m: Meta, room: nat, before: seq<Event>, event: Event, index: U32, data: bytes)
    requires Receive(m, room, before).ending.Starved? && Carries(event, index, data)
    requires !Lacks(Receive(m, room, before).view, index)
    ensures Receive(m, room, before + [event]) == Receive(m, room, before)
  {
    var t, left, e := OneMore(m, room, before, event);
    assert t.requests + [] == t.requests;
    CarriedReacts(t.view, event, index, data, left);
  }

  /** A missing chunk of the wrong length ends the transfer, and is not stored. */
  lemma AfterWrongLength(m: Meta, room: nat, before: seq<Event>, event: Event, index: U32, data: bytes)
    requires Receive(m, room, before).ending.Starved? && Carries(event, index, data)
    requires Lacks(Receive(m, room, before).view, index) && |data| != ExpectedLength(m, index)
    ensures Receive(m, room, before + [event]) == Receive(m, room, before).(ending := Broke("chunk length"))
  {
    var t, left, e := OneMore(m, room, before, event);
    assert t.requests + [] == t.requests;
    CarriedReacts(t.view, event, index, data, left);
  }

  /** The chunks stored are those written and those in the buffer, and the first that is not
      stored is the next to write. */
  ghost predicate Settled(v: View) {
    && (forall k: nat :: k < v.nextWrite ==> k in v.stored)
    && v.nextWrite !in v.stored
    && (forall k: nat :: k in v.buffered <==> k in v.stored && k >= v.nextWrite)
  }

  /** A missing chunk of the right length is stored; the next to write is then the first not
      stored; the indices the window gains are requested, in order and once each, for as long as
      requests can be sent; and the loop is over when the last chunk is written. */
  lemma AfterChunk(m: Meta, room: nat, before: seq<Event>, event: Event, index: U32, data: bytes)
    requires Receive(m, room, before).ending.Starved? && Carries(event, index, data)
    requires Lacks(Receive(m, room, before).view, index) && |data| == ExpectedLength(m, index)
    ensures var t, w := Receive(m, room, before), Receive(m, room, before + [event]);
            && w.view.stored == t.view.stored[index := data] && Settled(w.view)
            && t.view.nextWrite <= w.view.nextWrite && t.requests <= w.requests
            && (forall k | |t.requests| <= k < |w.requests| :: w.requests[k] == t.view.nextRequest + k - |t.requests|)
            && w.view.nextRequest == t.view.nextRequest + |w.requests| - |t.requests|
            && var end := if m.chunks < w.view.nextWrite + 64 then m.chunks else w.view.nextWrite + 64;
            && (w.view.nextRequest < end ==>
                  w.ending == Broke("chunk request could not be sent") && |w.requests| == room)
            && (w.view.nextRequest >= end ==>
                  && w.view.nextRequest == end
                  && w.ending == if w.view.nextWrite == m.chunks then Wrote(|w.view.written|) else Starved)
  {
    var t, left, e := OneMore(m, room, before, event);
    CarriedReacts(t.view, event, index, data, left);
    ChunkFills(t.view, index, data, left, e);
  }

  lemma ChunkFills(v: View, index: U32, data: bytes, room: nat, e: Effect)
    requires AtLoopHead(v) && Lacks(v, index) && |data| == ExpectedLength(v.meta, index)
    requires e == Handle(v, Data(index, data), room)
    ensures e.view.meta == v.meta && e.view.stored == v.stored[index := data] && Settled(e.view)
    ensures e.view.received == |e.view.written| && v.nextWrite <= e.view.nextWrite <= v.meta.chunks
    ensures forall k | 0 <= k < |e.requests| :: e.requests[k] == v.nextRequest + k
    ensures e.view.nextRequest == v.nextRequest + |e.requests|
    ensures var end := if v.meta.chunks < e.view.nextWrite + 64 then v.meta.chunks else e.view.nextWrite + 64;
            && (e.view.nextRequest < end ==>
                  e.outcome == Failed("chunk request could not be sent") && |e.requests| == room)
            && (e.view.nextRequest >= end ==> e.view.nextRequest == end && e.outcome == Waiting)
  {
    var w := Drains(v, index, data);
    FillsTo(w, room);
  }

  lemma Drains(v: View, index: U32, data: bytes) returns (w: View)
    requires AtLoopHead(v) && Lacks(v, index) && |data| == ExpectedLength(v.meta, index)
    ensures w == Drain(Store(v, index, data))
    ensures w.meta == v.meta && w.stored == v.stored[index := data] && w.nextRequest == v.nextRequest
    ensures w.received == |w.written| && v.nextWrite <= w.nextWrite <= v.meta.chunks && w.nextRequest <= WindowEnd(w)
    ensures Settled(w)
  {
    var kept := Store(v, index, data);
    w := Drain(kept);
    StoreKeeps(v, index, data);
    DrainKeeps(kept);
  }

  lemma FillsTo(v: View, room: nat)
    requires v.nextRequest <= WindowEnd(v)
    ensures var e := Fill(v, room);
            && e.view == v.(nextRequest := v.nextRequest + |e.requests|)
            && (forall k | 0 <= k < |e.requests| :: e.requests[k] == v.nextRequest + k)
            && var end := if v.meta.chunks < v.nextWrite + 64 then v.meta.chunks else v.nextWrite + 64;
            && (e.view.nextRequest < end ==>
                  e.outcome == Failed("chunk request could not be sent") && |e.requests| == room)
            && (e.view.nextRequest >= end ==> e.view.nextRequest == end && e.outcome == Waiting)
  {}

  // ----- when the transfer is sure to finish -----

  function Timeouts(events: seq<Event>): nat {
    if events == [] then 0
    else Timeouts(events[..|events| - 1]) + if events[|events| - 1].Timeout? then 1 else 0
  }

  /** Nothing that ends a transfer: a timeout, a datagram without a chunk, or a chunk which, if
      the archive has it at all, has its length. */
  ghost predicate Benign(m: Meta, event: Event) {
    || event.Timeout?
    || Useless(event)
    || exists index: U32, data: bytes :: Carries(event, index, data) && (index < m.chunks ==> |data| == ExpectedLength(m, index))
  }

  /** The transfer still waits or is done, has not asked more often than once for each chunk of
      its window and 64 times for each timeout, and has stored what it stored before. */
  ghost predicate Ahead(m: Meta, t: Transcript, w: Transcript, asked: nat) {
    && !w.ending.Broke?
    && t.view.nextWrite <= w.view.nextWrite && t.view.stored.Keys <= w.view.stored.Keys
    && w.view.nextRequest <= m.chunks
    && |w.requests| + t.view.nextRequest <= |t.requests| + w.view.nextRequest + asked
  }

  lemma TimeoutStep(m: Meta, room: nat, before: seq<Event>)
    requires var t := Receive(m, room, before); t.ending.Starved? && |t.requests| + 64 <= room
    ensures Ahead(m, Receive(m, room, before), Receive(m, room, before + [Timeout]), 64)
  {
    WaitsAtHead(m, room, before);
    AfterTimeout(m, room, before);
  }

  lemma ChunkStep(m: Meta, room: nat, before: seq<Event>, event: Event, index: U32, data: bytes)
    requires var t := Receive(m, room, before);
             t.ending.Starved? && |t.requests| + m.chunks <= room + t.view.nextRequest && Lacks(t.view, index)
    requires Carries(event, index, data) && |data| == ExpectedLength(m, index)
    ensures Ahead(m, Receive(m, room, before), Receive(m, room, before + [event]), 0)
  {
    AfterChunk(m, room, before, event, index, data);
  }

  lemma BenignStep(m: Meta, room: nat, before: seq<Event>, event: Event)
    requires var t := Receive(m, room, before);
             && t.ending.Starved?
             && room + t.view.nextRequest >= |t.requests| + m.chunks + if event.Timeout? then 64 else 0
    requires Benign(m, event)
    ensures Ahead(m, Receive(m, room, before), Receive(m, room, before + [event]), if event.Timeout? then 64 else 0)
  {
    var t := Receive(m, room, before);
    WaitsAtHead(m, room, before);
    if event.Timeout? {
      TimeoutStep(m, room, before);
    } else if Useless(event) {
      AfterUseless(m, room, before, event);
    } else {
      var index: U32, data: bytes :| Carries(event, index, data) && (index < m.chunks ==> |data| == ExpectedLength(m, index));
      if Lacks(t.view, index) {
        ChunkStep(m, room, before, event, index, data);
      } else {
        AfterStale(m, room, before, event, index, data);
      }
    }
  }

  lemma {:induction false} BenignRun(m: Meta, room: nat, before: seq<Event>, more: seq<Event>)
    requires forall event <- more :: Benign(m, event)
    requires var t := Receive(m, room, before);
             && !t.ending.Broke? && t.view.nextRequest <= m.chunks
             && room + t.view.nextRequest >= |t.requests| + m.chunks + 64 * Timeouts(more)
    ensures Ahead(m, Receive(m, room, before), Receive(m, room, before + more), 64 * Timeouts(more))
    decreases |more|
  {
    if more == [] {
      assert before + more == before;
    } else {
      var some, event := more[..|more| - 1], more[|more| - 1];
      BenignRun(m, room, before, some);
      assert before + more == (before + some) + [event];
      var w := Receive(m, room, before + some);
      ReceiveAppend(m, room, before + some, [event]);
      if w.ending.Starved? {
        BenignStep(m, room, before + some, event);
      }
    }
  }

  /** Chunk `k` came with these bytes after it had been requested. */
  ghost predicate CameWhenAsked(m: Meta, room: nat, events: seq<Event>, k: U32, data: bytes) {
    exists j: nat :: j < |events| && Carries(events[j], k, data) && k in Receive(m, room, events[..j]).requests
  }

  /** The laws above leave no event out. */
  lemma Kinds(event: Event) returns (error: string, index: U32, data: bytes)
    ensures event.Timeout? || Useless(event) || Fatal(event, error) || Carries(event, index, data)
  {
    error, index, data := "", 0, [];
    match event
    case Timeout =>
    case Stopped => error := "transfer stopped";
    case ReadError => error := "read error";
    case Arrival(None) =>
    case Arrival(Some(inner)) =>
      if Header(inner).Ok? && Header(inner).value.0 == ErrorType {
        error := "server error";
      } else if Header(inner).Ok? && Header(inner).value.0 == DataType {
        var decoded := Decode(_ => true, DataType, inner);
        if decoded.Err? {
          error := decoded.error;
        } else {
          UnpackPack(_ => true, DataType, DecodeFrame(inner).value.2);
          index, data := decoded.value.1.index, decoded.value.1.data;
        }
      }
  }

  lemma StoredStep(m: Meta, room: nat, before: seq<Event>, event: Event, k: U32)
    requires Receive(m, room, before).ending.Starved?
    ensures var t, w := Receive(m, room, before), Receive(m, room, before + [event]);
            k in w.view.stored ==>
              || (k in t.view.stored && w.view.stored[k] == t.view.stored[k])
              || (Carries(event, k, w.view.stored[k]) && k < t.view.nextRequest)
  {
    var t := Receive(m, room, before);
    WaitsAtHead(m, room, before);
    var error, index, data := Kinds(event);
    if event.Timeout? {
      AfterTimeout(m, room, before);
    } else if Useless(event) {
      AfterUseless(m, room, before, event);
    } else if Fatal(event, error) {
      AfterFatal(m, room, before, event, error);
    } else if !Lacks(t.view, index) {
      AfterStale(m, room, before, event, index, data);
    } else if |data| != ExpectedLength(m, index) {
      AfterWrongLength(m, room, before, event, index, data);
    } else {
      AfterChunk(m, room, before, event, index, data);
    }
  }

  /** Whatever happens, what is stored came after it was requested. */
  lemma {:induction false} StoredCameWhenAsked(m: Meta, room: nat, events: seq<Event>, k: U32)
    requires k in Receive(m, room, events).view.stored
    ensures CameWhenAsked(m, room, events, k, Receive(m, room, events).view.stored[k])
    decreases |events|
  {
    if events == [] {
      FirstWindow(m, room);
      assert false;
    } else {
      var n := |events| - 1;
      var before, event := events[..n], events[n];
      assert events == before + [event];
      var data := Receive(m, room, events).view.stored[k];
      ReceiveAppend(m, room, before, [event]);
      var t := Receive(m, room, before);
      if t.ending.Starved? {
        StoredStep(m, room, before, event, k);
      }
      if k in t.view.stored && t.view.stored[k] == data {
        StoredCameWhenAsked(m, room, before, k);
        var j: nat :| j < |before| && Carries(before[j], k, data) && k in Receive(m, room, before[..j]).requests;
        assert before[..j] == events[..j] && events[j] == before[j];
      } else {
        ReceivesWhatArrived(m, room, before);
        assert events[n] == event && events[..n] == before;
      }
    }
  }

  lemma {:induction false} TimeoutsAdd(a: seq<Event>, b: seq<Event>)
    ensures Timeouts(a + b) == Timeouts(a) + Timeouts(b)
  {
    if b == [] {
      assert a + b == a;
    } else {
      TimeoutsAdd(a, b[..|b| - 1]);
      assert (a + b)[..|a + b| - 1] == a + b[..|b| - 1];
    }
  }

  /** Requests never run out: what is left covers the window and the timeouts to come. */
  lemma RequestsLast(m: Meta, room: nat, before: seq<Event>, more: seq<Event>)
    requires forall event <- before :: Benign(m, event)
    requires room >= m.chunks + 64 * (Timeouts(before) + Timeouts(more))
    ensures var t := Receive(m, room, before);
            && !t.ending.Broke? && t.view.nextRequest <= m.chunks
            && room + t.view.nextRequest >= |t.requests| + m.chunks + 64 * Timeouts(more)
  {
    FirstWindow(m, room);
    FirstAsks(m, room);
    BenignRun(m, room, [], before);
    assert [] + before == before;
  }

  lemma FirstAsks(m: Meta, room: nat)
    ensures var t := Receive(m, room, []); |t.requests| == t.view.nextRequest <= m.chunks
  {
    var e := Fill(Start(m), room);
    assert e.requests + [] == e.requests;
  }

  /** A chunk that comes after it was requested is stored at once. */
  lemma AskedIsStored(m: Meta, room: nat, before: seq<Event>, event: Event, k: U32, data: bytes)
    requires Benign(m, event) && Carries(event, k, data) && k < m.chunks
    requires var t := Receive(m, room, before); t.ending.Starved? && k in t.requests
    ensures k in Receive(m, room, before + [event]).view.stored
  {
    var t := Receive(m, room, before);
    WaitsAtHead(m, room, before);
    ReceivesWhatArrived(m, room, before);
    if Lacks(t.view, k) {
      CarriedIsBenign(m, event, k, data);
      AfterChunk(m, room, before, event, k, data);
    } else {
      AfterStale(m, room, before, event, k, data);
    }
  }

  lemma CarriedIsBenign(m: Meta, event: Event, k: U32, data: bytes)
    requires Benign(m, event) && Carries(event, k, data) && k < m.chunks
    ensures |data| == ExpectedLength(m, k)
  {}

  /** And it is stored for good. */
  lemma StoredForGood(m: Meta, room: nat, before: seq<Event>, after: seq<Event>, k: U32)
    requires forall event <- before + after :: Benign(m, event)
    requires room >= m.chunks + 64 * (Timeouts(before) + Timeouts(after))
    requires var t := Receive(m, room, before); t.ending.Wrote? || k in t.view.stored
    ensures var w := Receive(m, room, before + after); w.ending.Wrote? || (w.ending.Starved? && k in w.view.stored)
  {
    assert forall event <- before :: event in before + after;
    assert forall event <- after :: event in before + after;
    RequestsLast(m, room, before, after);
    BenignRun(m, room, before, after);
    ReceiveAppend(m, room, before, after);
  }

  lemma StoredNow(m: Meta, room: nat, before: seq<Event>, event: Event, k: U32, data: bytes)
    requires Benign(m, event) && Carries(event, k, data) && k < m.chunks
    requires var t := Receive(m, room, before); !t.ending.Broke? && k in t.requests
    ensures var w := Receive(m, room, before + [event]); w.ending.Wrote? || k in w.view.stored
  {
    ReceiveAppend(m, room, before, [event]);
    if Receive(m, room, before).ending.Starved? {
      AskedIsStored(m, room, before, event, k, data);
    }
  }

  lemma ComesIsStored(m: Meta, room: nat, before: seq<Event>, event: Event, after: seq<Event>, k: U32, data: bytes)
    requires (forall event <- before :: Benign(m, event)) && Benign(m, event) && forall event <- after :: Benign(m, event)
    requires room >= m.chunks + 64 * (Timeouts(before) + Timeouts([event]) + Timeouts(after))
    requires k < m.chunks && Carries(event, k, data) && k in Receive(m, room, before).requests
    ensures var t := Receive(m, room, (before + [event]) + after);
            t.ending.Wrote? || (t.ending.Starved? && k in t.view.stored)
  {
    RequestsLast(m, room, before, []);
    StoredNow(m, room, before, event, k, data);
    TimeoutsAdd(before, [event]);
    StoredForGood(m, room, before + [event], after, k);
  }

  /** Chunk `k` came after it had been requested. */
  ghost predicate Came(m: Meta, room: nat, events: seq<Event>, k: U32) {
    exists data: bytes :: CameWhenAsked(m, room, events, k, data)
  }

  lemma CameIsStored(m: Meta, room: nat, events: seq<Event>, k: U32)
    requires forall event <- events :: Benign(m, event)
    requires room >= m.chunks + 64 * Timeouts(events)
    requires k < m.chunks && Came(m, room, events, k)
    ensures var t := Receive(m, room, events); t.ending.Wrote? || (t.ending.Starved? && k in t.view.stored)
  {
    var data: bytes :| CameWhenAsked(m, room, events, k, data);
    var j: nat :| j < |events| && Carries(events[j], k, data) && k in Receive(m, room, events[..j]).requests;
    var before, event, after := events[..j], events[j], events[j + 1..];
    Parts(events, j);
    ComesIsStored(m, room, before, event, after, k, data);
  }

  lemma Parts(events: seq<Event>, j: nat)
    requires j < |events|
    ensures (events[..j] + [events[j]]) + events[j + 1..] == events
    ensures Timeouts(events) == Timeouts(events[..j]) + Timeouts([events[j]]) + Timeouts(events[j + 1..])
  {
    Cut(events, j);
    TimeoutsOfThree(events[..j], [events[j]], events[j + 1..]);
  }

  lemma Cut<T>(s: seq<T>, j: nat)
    requires j < |s|
    ensures (s[..j] + [s[j]]) + s[j + 1..] == s
  {}

  lemma TimeoutsOfThree(a: seq<Event>, b: seq<Event>, c: seq<Event>)
    ensures Timeouts((a + b) + c) == Timeouts(a) + Timeouts(b) + Timeouts(c)
  {
    TimeoutsAdd(a + b, c);
    TimeoutsAdd(a, b);
  }

  /** When nothing ends the transfer and the requests can be sent, it finishes if and only if
      every chunk comes after it was requested. */
  lemma CompletesIff(m: Meta, room: nat, events: seq<Event>)
    requires Consistent(m)
    requires forall event <- events :: Benign(m, event)
    requires room >= m.chunks + 64 * Timeouts(events)
    ensures Receive(m, room, events).ending
            == if forall k: U32 | k < m.chunks :: Came(m, room, events, k) then Wrote(m.size) else Starved
  {
    var t := Receive(m, room, events);
    RequestsLast(m, room, events, []);
    ReceivesWhatArrived(m, room, events);
    if t.ending.Wrote? {
      forall k: U32 | k < m.chunks ensures Came(m, room, events, k) {
        StoredCameWhenAsked(m, room, events, k);
      }
    } else {
      WaitsAtHead(m, room, events);
      if Came(m, room, events, t.view.nextWrite) {
        CameIsStored(m, room, events, t.view.nextWrite);
        assert false;
      }
    }
  }
}
