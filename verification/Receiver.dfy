/** internal/client/client.go, `receiveChunks`: a 64-chunk sliding window that buffers
    out-of-order chunks, writes them in order and re-requests what is missing. */
module Receiver {
  import opened Bytes
  import opened Codec
  import opened Chunks

  const TRANSFER_WINDOW := 64

  /** The loop's variables. `stored` is a history: every chunk ever put into the buffer. */
  datatype View = View(
    meta: Meta,
    buffered: map<nat, bytes>,
    nextWrite: nat,
    nextRequest: U32,
    received: nat,
    written: bytes,
    stored: map<nat, bytes>)

  datatype Outcome = Waiting | Failed(error: string)

  /** What a step did: the loop's new variables, the indices it requested, and how it went. */
  datatype Effect = Effect(view: View, requests: seq<U32>, outcome: Outcome)

  function Start(m: Meta): View {
    View(m, map[], 0, 0, 0, [], map[])
  }

  function Min(a: nat, b: nat): nat {
    if a < b then a else b
  }

  function WindowEnd(v: View): nat {
    Min(v.meta.chunks, v.nextWrite + TRANSFER_WINDOW)
  }

  /** lo, lo + 1, …, hi - 1 */
  function Range(lo: nat, hi: nat): (s: seq<U32>)
    requires lo <= hi <= MAX_UINT32 + 1
    ensures |s| == hi - lo
    ensures forall k | 0 <= k < |s| :: s[k] == lo + k
    decreases hi - lo
  {
    if lo == hi then [] else [lo] + Range(lo + 1, hi)
  }

  const SEND_ERROR := "chunk request could not be sent"

  /** `fillWindow` when `room` more requests can be sent. */
  function Fill(v: View, room: nat): (e: Effect)
    ensures |e.requests| <= room
  {
    var wanted := if v.nextRequest < WindowEnd(v) then WindowEnd(v) - v.nextRequest else 0;
    var n := Min(wanted, room);
    Effect(v.(nextRequest := v.nextRequest + n), Range(v.nextRequest, v.nextRequest + n),
           if n == wanted then Waiting else Failed(SEND_ERROR))
  }

  /** The unbuffered indices in [from, nextRequest), ascending. */
  function Missing(v: View, from: nat): seq<U32>
    decreases v.nextRequest - from
  {
    if from >= v.nextRequest then []
    else if from in v.buffered then Missing(v, from + 1)
    else [from] + Missing(v, from + 1)
  }

  /** A read timeout. */
  function Retransmit(v: View, room: nat): (e: Effect)
    ensures |e.requests| <= room
  {
    var missing := Missing(v, v.nextWrite);
    if |missing| <= room then Effect(v, missing, Waiting) else Effect(v, missing[..room], Failed(SEND_ERROR))
  }

  /** The in-order drain of the buffer. */
  function Drain(v: View): View
    decreases |v.buffered|
  {
    if v.nextWrite in v.buffered then Drain(WriteNext(v)) else v
  }

  function WriteNext(v: View): View
    requires v.nextWrite in v.buffered
  {
    var data := v.buffered[v.nextWrite];
    v.(written := v.written + data,
       buffered := v.buffered - {v.nextWrite},
       received := v.received + |data|,
       nextWrite := v.nextWrite + 1)
  }

  function Store(v: View, index: U32, data: bytes): View {
    v.(buffered := v.buffered[index := data], stored := v.stored[index := data])
  }

  /** One decrypted, well-formed packet. */
  function Handle(v: View, p: Packet, room: nat): (e: Effect)
    ensures |e.requests| <= room
  {
    match p
    case Error(_) => Effect(v, [], Failed("server error"))
    case Data(index, data) =>
      if index < v.nextWrite || index >= v.nextRequest then Effect(v, [], Waiting)
      else if index in v.buffered then Effect(v, [], Waiting)
      else if |data| != ExpectedLength(v.meta, index) then Effect(v, [], Failed("chunk length"))
      else Fill(Drain(Store(v, index, data)), room)
    case _ => Effect(v, [], Waiting)
  }

  /** One decrypted packet as bytes. */
  function HandleInner(v: View, inner: bytes, room: nat): (e: Effect)
    ensures |e.requests| <= room
  {
    if Header(inner).Err? then Effect(v, [], Waiting)
    else
      var t := Header(inner).value.0;
      if t != ErrorType && t != DataType then Effect(v, [], Waiting)
      else
        match Decode(_ => true, t, inner)
        case Err(error) => Effect(v, [], Failed(error))
        case Ok((_, p)) => Handle(v, p, room)
  }

  // ----- what every step keeps -----

  function SumLengths(m: Meta, n: nat): nat
    requires n <= m.chunks
  {
    if n == 0 then 0 else SumLengths(m, n - 1) + ExpectedLength(m, n - 1)
  }

  /** The chunks stored below `n`, joined in order. */
  function StoredPrefix(stored: map<nat, bytes>, n: nat): bytes
    requires forall k :: 0 <= k < n ==> k in stored
  {
    if n == 0 then [] else StoredPrefix(stored, n - 1) + stored[n - 1]
  }

  /** True at every moment, also halfway through the drain. */
  ghost predicate Sound(v: View) {
    && v.nextWrite <= v.nextRequest <= WindowEnd(v)
    && (forall k <- v.buffered :: v.nextWrite <= k < v.nextRequest && k in v.stored && v.buffered[k] == v.stored[k])
    && (forall k: nat :: k < v.nextWrite ==> k in v.stored)
    && (forall k <- v.stored :: (k < v.nextWrite || k in v.buffered) && |v.stored[k]| == ExpectedLength(v.meta, k))
    && v.received == SumLengths(v.meta, v.nextWrite) == |v.written|
    && v.written == StoredPrefix(v.stored, v.nextWrite)
    && |v.stored| == v.nextWrite + |v.buffered|
  }

  /** True at each loop head: the window is full and its first chunk is the missing one. */
  ghost predicate AtLoopHead(v: View) {
    && Sound(v)
    && v.nextRequest == WindowEnd(v)
    && v.nextWrite !in v.buffered
  }

  lemma {:induction false} StoredPrefixFrame(stored: map<nat, bytes>, k: nat, data: bytes, n: nat)
    requires forall i :: 0 <= i < n ==> i in stored
    requires n <= k
    ensures StoredPrefix(stored[k := data], n) == StoredPrefix(stored, n)
  {
    if n > 0 {
      StoredPrefixFrame(stored, k, data, n - 1);
    }
  }

  lemma {:induction false} DrainKeeps(v: View)
    requires Sound(v)
    ensures var w := Drain(v);
            && Sound(w) && w.nextWrite !in w.buffered
            && w.meta == v.meta && w.nextRequest == v.nextRequest && w.stored == v.stored
            && v.nextWrite <= w.nextWrite
    ensures v.nextWrite in v.buffered ==> v.nextWrite < Drain(v).nextWrite
    ensures v.written <= Drain(v).written
    decreases |v.buffered|
  {
    if v.nextWrite in v.buffered {
      WriteNextKeeps(v);
      DrainKeeps(WriteNext(v));
    }
  }

  lemma WriteNextKeeps(v: View)
    requires Sound(v) && v.nextWrite in v.buffered
    ensures Sound(WriteNext(v))
  {
    var w := WriteNext(v);
    assert v.buffered.Keys == w.buffered.Keys + {v.nextWrite};
    assert |w.buffered| == |v.buffered| - 1;
    assert w.written == StoredPrefix(v.stored, w.nextWrite);
    assert w.received == SumLengths(v.meta, w.nextWrite);
  }

  lemma StoreKeeps(v: View, index: U32, data: bytes)
    requires Sound(v) && v.nextWrite <= index < v.nextRequest && index !in v.buffered
    requires |data| == ExpectedLength(v.meta, index)
    ensures Sound(Store(v, index, data))
    ensures |Store(v, index, data).stored| == |v.stored| + 1
  {
    StoredPrefixFrame(v.stored, index, data, v.nextWrite);
    assert index !in v.stored;
  }

  lemma FillKeeps(v: View, room: nat)
    requires Sound(v)
    ensures var e := Fill(v, room);
            && Sound(e.view) && e.view.meta == v.meta && e.view.nextWrite == v.nextWrite && e.view.written == v.written
            && e.view.stored == v.stored && v.nextRequest <= e.view.nextRequest <= WindowEnd(v)
            && (e.outcome.Waiting? && v.nextWrite !in v.buffered ==> AtLoopHead(e.view))
            && e.requests == Range(v.nextRequest, e.view.nextRequest)
  {}

  /** What a packet may do to the loop: grow the window and the output, store at most one
      chunk, request exactly the indices the window gained, and stay at a loop head unless
      it ends the transfer. */
  ghost predicate Advances(v: View, e: Effect) {
    && Sound(e.view) && e.view.meta == v.meta
    && v.nextWrite <= e.view.nextWrite && v.nextRequest <= e.view.nextRequest && v.written <= e.view.written
    && (e.outcome.Waiting? ==> AtLoopHead(e.view))
    && |v.stored| <= |e.view.stored| <= |v.stored| + 1
    && e.requests == Range(v.nextRequest, e.view.nextRequest)
  }

  lemma AcceptKeeps(v: View, index: U32, data: bytes, room: nat)
    requires AtLoopHead(v) && v.nextWrite <= index < v.nextRequest && index !in v.buffered
    requires |data| == ExpectedLength(v.meta, index)
    ensures Advances(v, Fill(Drain(Store(v, index, data)), room))
  {
    var stored := Store(v, index, data);
    StoreKeeps(v, index, data);
    DrainKeeps(stored);
    FillKeeps(Drain(stored), room);
  }

  lemma HandleKeeps(v: View, p: Packet, room: nat)
    requires AtLoopHead(v)
    ensures Advances(v, Handle(v, p, room))
  {
    if p.Data? && v.nextWrite <= p.index < v.nextRequest && p.index !in v.buffered
       && |p.data| == ExpectedLength(v.meta, p.index)
    {
      AcceptKeeps(v, p.index, p.data, room);
    }
  }

  /** Reading the first chunk opens the window. */
  lemma StartIsSound(m: Meta, room: nat)
    ensures Sound(Start(m))
    ensures Fill(Start(m), room).outcome.Waiting? ==> AtLoopHead(Fill(Start(m), room).view)
  {}

  /** A timeout asks for exactly the unbuffered indices of the window, in order, each once,
      and the one the writer waits for first. */
  lemma {:induction false} MissingExact(v: View, from: nat)
    requires from <= v.nextRequest
    ensures var missing := Missing(v, from);
            && (forall i: nat :: i in missing <==> from <= i < v.nextRequest && i !in v.buffered)
            && (forall j, k | 0 <= j < k < |missing| :: missing[j] < missing[k])
            && (from < v.nextRequest && from !in v.buffered ==> |missing| > 0 && missing[0] == from)
    decreases v.nextRequest - from
  {
    if from < v.nextRequest {
      MissingExact(v, from + 1);
      var later := Missing(v, from + 1);
      assert forall k | 0 <= k < |later| :: later[k] in later;
    }
  }

  /** The buffer never holds more than 63 chunks. */
  lemma BufferBound(v: View)
    requires AtLoopHead(v)
    ensures |v.buffered| <= TRANSFER_WINDOW - 1
    ensures forall k <- v.buffered :: v.nextWrite < k < v.nextRequest == WindowEnd(v)
  {
    if v.nextWrite < v.nextRequest {
      RangeSize(v.nextWrite + 1, v.nextRequest, v.buffered.Keys);
    } else {
      assert v.buffered.Keys == {};
    }
    assert |v.buffered| == |v.buffered.Keys|;
  }

  lemma {:induction false} RangeSize(lo: nat, hi: nat, s: set<nat>)
    requires lo <= hi && forall k <- s :: lo <= k < hi
    ensures |s| <= hi - lo
    decreases hi - lo
  {
    if lo == hi {
      assert s == {};
    } else {
      RangeSize(lo + 1, hi, s - {lo});
    }
  }

  /** The loop ends exactly when as many chunks were stored as there are, and then the
      bytes received are the meta's size. */
  lemma DoneWhenAllStored(v: View)
    requires AtLoopHead(v) && Consistent(v.meta)
    ensures v.nextWrite == v.meta.chunks <==> |v.stored| == v.meta.chunks
    ensures v.received == PrefixSize(v.meta, v.nextWrite)
    ensures v.nextWrite == v.meta.chunks ==> v.received == v.meta.size && v.buffered == map[]
  {
    BufferInside(v);
    SumIsPrefix(v.meta, v.nextWrite);
    PrefixEnds(v.meta);
  }

  lemma BufferInside(v: View)
    requires AtLoopHead(v)
    ensures v.nextWrite < v.meta.chunks ==> |v.buffered| < v.meta.chunks - v.nextWrite
    ensures v.nextWrite == v.meta.chunks ==> |v.buffered| == 0
  {
    assert |v.buffered| == |v.buffered.Keys|;
    if v.nextWrite < v.meta.chunks {
      RangeSize(v.nextWrite + 1, v.nextRequest, v.buffered.Keys);
    } else {
      assert v.buffered.Keys == {};
    }
  }

  lemma {:induction false} SumIsPrefix(m: Meta, n: nat)
    requires Consistent(m) && n <= m.chunks
    ensures SumLengths(m, n) == PrefixSize(m, n)
  {
    PrefixEnds(m);
    if n > 0 {
      SumIsPrefix(m, n - 1);
      PrefixGrows(m, n - 1);
    }
  }

  lemma PrefixGrows(m: Meta, n: U32)
    requires Consistent(m) && n < m.chunks
    ensures PrefixSize(m, n) + ExpectedLength(m, n) == PrefixSize(m, n + 1)
  {
    LengthsAgree(m, n);
    OffsetInside(m.size, m.chunks, m.chunkSize, n);
  }

  lemma ErrorIsRead(v: View, inner: bytes, room: nat)
    requires Header(inner).Ok? && Header(inner).value.0 == ErrorType
    ensures HandleInner(v, inner, room) == Effect(v, [], Failed("server error"))
  {}

  lemma DataIsRead(v: View, inner: bytes, room: nat)
    requires Header(inner).Ok? && Header(inner).value.0 == DataType && Decode(_ => true, DataType, inner).Ok?
    ensures Decode(_ => true, DataType, inner).value.1.Data?
    ensures HandleInner(v, inner, room) == Handle(v, Decode(_ => true, DataType, inner).value.1, room)
  {
    UnpackPack(_ => true, DataType, DecodeFrame(inner).value.2);
  }

  /** The loop's end. */
  lemma LoopEnds(v: View)
    requires AtLoopHead(v) && v.nextWrite >= v.meta.chunks
    ensures v.nextWrite == v.meta.chunks && v.written == StoredPrefix(v.stored, v.meta.chunks) && v.received == |v.written|
    ensures Consistent(v.meta) ==> v.received == v.meta.size && |v.stored| == v.meta.chunks
  {
    if Consistent(v.meta) {
      DoneWhenAllStored(v);
    }
  }

  // ----- the whole transfer -----

  /** What one turn of the loop waits for. An arrival is a datagram; it carries the inner
      packet if the session opened it. */
  datatype Event = Timeout | ReadError | Stopped | Arrival(inner: Option<bytes>)

  /** How a loop ended: the last chunk was written, an error ended it, or it still waits. */
  datatype Ending = Wrote(count: nat) | Broke(error: string) | Starved

  /** How a transfer went: the variables at its end, every request it sent, how it ended. */
  datatype Transcript = Transcript(view: View, requests: seq<U32>, ending: Ending)

  /** The effect of one event that does not itself end the transfer. */
  function React(v: View, event: Event, room: nat): (e: Effect)
    ensures |e.requests| <= room
  {
    match event
    case Stopped => Effect(v, [], Failed("transfer stopped"))
    case ReadError => Effect(v, [], Failed("read error"))
    case Timeout => Retransmit(v, room)
    case Arrival(None) => Effect(v, [], Waiting)
    case Arrival(Some(inner)) => HandleInner(v, inner, room)
  }

  /** The rest of a transfer after one effect. */
  function Resume(e: Effect, room: nat, events: seq<Event>): (t: Transcript)
    requires |e.requests| <= room
    ensures |t.requests| <= room
    decreases |events|, 3
  {
    if e.outcome.Failed? then Transcript(e.view, e.requests, Broke(e.outcome.error))
    else
      var rest := Loop(e.view, room - |e.requests|, events);
      rest.(requests := e.requests + rest.requests)
  }

  /** The loop, from a loop head, when `room` more requests can be sent. */
  function Loop(v: View, room: nat, events: seq<Event>): (t: Transcript)
    ensures |t.requests| <= room
    decreases |events|, 2
  {
    if v.nextWrite >= v.meta.chunks then Transcript(v, [], Wrote(v.received))
    else if events == [] then Transcript(v, [], Starved)
    else Turn(v, room, events)
  }

  /** One turn of the loop, and what follows it. */
  function Turn(v: View, room: nat, events: seq<Event>): (t: Transcript)
    requires events != []
    ensures |t.requests| <= room
    decreases |events|, 1
  {
    Resume(React(v, events[0], room), room, events[1..])
  }

  /** `receiveChunks`: fill the first window, then loop. */
  function Receive(m: Meta, room: nat, events: seq<Event>): (t: Transcript)
    ensures |t.requests| <= room
  {
    Resume(Fill(Start(m), room), room, events)
  }

  /** Chunk `k` with these bytes was in a packet that arrived. */
  ghost predicate Arrived(events: seq<Event>, k: nat, data: bytes) {
    && k <= MAX_UINT32
    && exists inner: bytes ::
         && Arrival(Some(inner)) in events
         && Decode(_ => true, DataType, inner).Ok? && Decode(_ => true, DataType, inner).value.1 == Data(k, data)
  }

  /** Everything stored was stored before, or arrived. */
  ghost predicate StoredArrived(before: map<nat, bytes>, after: map<nat, bytes>, events: seq<Event>) {
    forall k <- after :: (k in before && before[k] == after[k]) || Arrived(events, k, after[k])
  }

  /** What one event does to the loop. Every request is for an index of the window, and the
      indices the window gained are all requested. */
  ghost predicate Reacts(v: View, event: Event, e: Effect) {
    && Sound(e.view) && e.view.meta == v.meta && (e.outcome.Waiting? ==> AtLoopHead(e.view))
    && v.nextWrite <= e.view.nextWrite && v.nextRequest <= e.view.nextRequest
    && Asks(v.nextRequest, e.view.nextRequest, e.requests)
    && StoredArrived(v.stored, e.view.stored, [event])
  }

  /** Requests for indices below `hi`, among them all from `lo`. */
  ghost predicate Asks(lo: nat, hi: nat, requests: seq<U32>) {
    (forall i <- requests :: i < hi) && (forall i: nat :: lo <= i < hi ==> i in requests)
  }

  lemma RangeAsks(lo: nat, hi: nat)
    requires lo <= hi <= MAX_UINT32
    ensures Asks(lo, hi, Range(lo, hi))
  {
    forall i: nat | lo <= i < hi ensures i in Range(lo, hi) {
      assert Range(lo, hi)[i - lo] == i;
    }
  }

  lemma DataReacts(v: View, inner: bytes, index: U32, data: bytes, room: nat)
    requires AtLoopHead(v)
    requires Decode(_ => true, DataType, inner).Ok? && Decode(_ => true, DataType, inner).value.1 == Data(index, data)
    ensures Reacts(v, Arrival(Some(inner)), Handle(v, Data(index, data), room))
  {
    var e := Handle(v, Data(index, data), room);
    HandleKeeps(v, Data(index, data), room);
    RangeAsks(v.nextRequest, e.view.nextRequest);
    assert Arrival(Some(inner)) in [Arrival(Some(inner))];
    assert Arrived([Arrival(Some(inner))], index, data);
    HandleStores(v, index, data, room);
  }

  /** Handling a chunk stores that chunk or nothing. */
  lemma HandleStores(v: View, index: U32, data: bytes, room: nat)
    requires AtLoopHead(v)
    ensures var stored := Handle(v, Data(index, data), room).view.stored;
            stored == v.stored || stored == v.stored[index := data]
  {
    if v.nextWrite <= index < v.nextRequest && index !in v.buffered && |data| == ExpectedLength(v.meta, index) {
      StoreKeeps(v, index, data);
      DrainKeeps(Store(v, index, data));
    }
  }

  lemma TimeoutReacts(v: View, room: nat)
    requires AtLoopHead(v)
    ensures Reacts(v, Timeout, Retransmit(v, room))
  {
    MissingExact(v, v.nextWrite);
    var missing := Missing(v, v.nextWrite);
    forall i <- Retransmit(v, room).requests ensures i in missing {}
  }

  lemma NothingReacts(v: View, event: Event, outcome: Outcome)
    requires AtLoopHead(v)
    ensures Reacts(v, event, Effect(v, [], outcome))
  {}

  /** Whatever packet a datagram holds, it is a chunk or it changes nothing. */
  lemma InnerReads(v: View, inner: bytes, room: nat)
    ensures var e := HandleInner(v, inner, room);
            || e == Effect(v, [], e.outcome)
            || (Decode(_ => true, DataType, inner).Ok? && Decode(_ => true, DataType, inner).value.1.Data?
                && e == Handle(v, Decode(_ => true, DataType, inner).value.1, room))
  {
    if Header(inner).Ok? && Header(inner).value.0 == DataType && Decode(_ => true, DataType, inner).Ok? {
      DataIsRead(v, inner, room);
    }
  }

  lemma EventReacts(v: View, event: Event, room: nat)
    requires AtLoopHead(v)
    ensures Reacts(v, event, React(v, event, room))
  {
    var e := React(v, event, room);
    if event.Timeout? {
      TimeoutReacts(v, room);
    } else if e == Effect(v, [], e.outcome) {
      NothingReacts(v, event, e.outcome);
    } else {
      var inner := event.inner.value;
      InnerReads(v, inner, room);
      var p := Decode(_ => true, DataType, inner).value.1;
      DataReacts(v, inner, p.index, p.data, room);
    }
  }

  /** What a whole loop does: as one event does, over all of them. */
  ghost predicate Transfers(v: View, events: seq<Event>, t: Transcript) {
    && Sound(t.view) && t.view.meta == v.meta && v.nextRequest <= t.view.nextRequest
    && Asks(v.nextRequest, t.view.nextRequest, t.requests)
    && StoredArrived(v.stored, t.view.stored, events)
    && (t.ending.Wrote? ==> AtLoopHead(t.view) && t.view.nextWrite == v.meta.chunks && t.ending.count == t.view.received)
    && (t.ending.Starved? ==> AtLoopHead(t.view) && t.view.nextWrite < v.meta.chunks)
  }

  lemma Combine(v: View, event: Event, e: Effect, events: seq<Event>, t: Transcript)
    requires Reacts(v, event, e) && events != [] && events[0] == event
    requires Transfers(e.view, events[1..], t)
    ensures Transfers(v, events, t.(requests := e.requests + t.requests))
  {
    assert Asks(v.nextRequest, t.view.nextRequest, e.requests + t.requests);
    forall k <- t.view.stored ensures (k in v.stored && v.stored[k] == t.view.stored[k]) || Arrived(events, k, t.view.stored[k]) {
      var data := t.view.stored[k];
      if Arrived(events[1..], k, data) {
        ArrivedIn(events[1..], events, k, data);
      } else if Arrived([event], k, data) {
        ArrivedIn([event], events, k, data);
      }
    }
  }

  lemma ArrivedIn(some: seq<Event>, events: seq<Event>, k: nat, data: bytes)
    requires Arrived(some, k, data) && forall event <- some :: event in events
    ensures Arrived(events, k, data)
  {}

  lemma Turns(v: View, room: nat, events: seq<Event>) returns (e: Effect, t: Transcript, left: nat)
    requires AtLoopHead(v) && v.nextWrite < v.meta.chunks && events != []
    ensures Reacts(v, events[0], e) && e == React(v, events[0], room) && left == room - |e.requests|
    ensures e.outcome.Waiting? ==> t == Loop(e.view, left, events[1..])
    ensures e.outcome.Failed? ==> t == Transcript(e.view, [], Broke(e.outcome.error))
    ensures Loop(v, room, events) == After(e.requests, t)
  {
    e := React(v, events[0], room);
    EventReacts(v, events[0], room);
    left := room - |e.requests|;
    t := if e.outcome.Failed? then Transcript(e.view, [], Broke(e.outcome.error)) else Loop(e.view, left, events[1..]);
    assert e.requests + [] == e.requests;
    assert Loop(v, room, events) == Turn(v, room, events) == Resume(e, room, events[1..]);
  }

  lemma {:induction false} LoopTransfers(v: View, room: nat, events: seq<Event>)
    requires AtLoopHead(v)
    ensures Transfers(v, events, Loop(v, room, events))
    decreases |events|
  {
    if v.nextWrite >= v.meta.chunks {
      Ends(v, events);
    } else if events == [] {
      Waits(v, events);
    } else {
      var e, t, left := Turns(v, room, events);
      if e.outcome.Waiting? {
        LoopTransfers(e.view, left, events[1..]);
      } else {
        Breaks(e.view, events[1..], e.outcome.error);
      }
      Combine(v, events[0], e, events, t);
    }
  }

  lemma Ends(v: View, events: seq<Event>)
    requires AtLoopHead(v) && v.nextWrite >= v.meta.chunks
    ensures Transfers(v, events, Transcript(v, [], Wrote(v.received)))
  {}

  lemma Waits(v: View, events: seq<Event>)
    requires AtLoopHead(v) && v.nextWrite < v.meta.chunks
    ensures Transfers(v, events, Transcript(v, [], Starved))
  {}

  lemma Breaks(v: View, events: seq<Event>, error: string)
    requires Sound(v)
    ensures Transfers(v, events, Transcript(v, [], Broke(error)))
  {}

  /** Whatever arrives, times out or fails: every byte written is, chunk by chunk and in order,
      the data of a packet that arrived under its index and had the length due; every index
      below the window's end was requested, and nothing else; and success means the last chunk
      was written and the count returned is the number of bytes written. */
  lemma ReceivesWhatArrived(m: Meta, room: nat, events: seq<Event>)
    ensures var t := Receive(m, room, events);
            && t.view.nextRequest <= m.chunks && t.view.nextWrite <= m.chunks
            && (forall k: nat :: k < t.view.nextWrite ==>
                  k in t.view.stored && Arrived(events, k, t.view.stored[k]) && |t.view.stored[k]| == ExpectedLength(m, k))
            && t.view.written == StoredPrefix(t.view.stored, t.view.nextWrite)
            && (forall i: nat :: i in t.requests <==> i < t.view.nextRequest)
            && (t.ending.Wrote? ==> t.view.nextWrite == m.chunks && t.ending.count == |t.view.written|)
            && (t.ending.Wrote? && Consistent(m) ==> t.ending.count == m.size && |t.view.stored| == m.chunks)
  {
    var e := Fill(Start(m), room);
    StartIsSound(m, room);
    FillKeeps(Start(m), room);
    RangeAsks(0, e.view.nextRequest);
    if e.outcome.Waiting? {
      LoopTransfers(e.view, room - |e.requests|, events);
      var t := Loop(e.view, room - |e.requests|, events);
      if t.ending.Wrote? {
        LoopEnds(t.view);
      }
    }
  }

  // ----- the loop itself -----

  /** `receiveChunks` as an object: the variables its closures share. `budget` is how many
      more requests can be sealed and written; `requests` logs the ones that were. */
  class ChunkReceiver {
    const meta: Meta
    var buffered: map<nat, bytes>
    var nextWrite: nat
    var nextRequest: U32
    var received: nat
    var written: bytes
    var budget: nat
    var requests: seq<U32>
    ghost var stored: map<nat, bytes>

    ghost function State(): View
      reads this
    {
      View(meta, buffered, nextWrite, nextRequest, received, written, stored)
    }

    /** The step `e` happened, starting from a given log and budget. */
    ghost predicate Did(e: Effect, budgetWas: nat, requestsWere: seq<U32>)
      reads this
    {
      && State() == e.view
      && requests == requestsWere + e.requests
      && budget == budgetWas - |e.requests|
    }

    constructor (m: Meta, budget: nat)
      ensures State() == Start(m) && requests == [] && this.budget == budget
    {
      meta := m;
      buffered, nextWrite, nextRequest, received, written := map[], 0, 0, 0, [];
      this.budget, requests, stored := budget, [], map[];
    }

    method SendChunkRequest(index: U32) returns (ok: bool)
      modifies this`budget, this`requests
      ensures ok == (old(budget) > 0)
      ensures ok ==> budget == old(budget) - 1 && requests == old(requests) + [index]
      ensures !ok ==> budget == old(budget) && requests == old(requests)
    {
      ok := budget > 0;
      if ok {
        budget := budget - 1;
        requests := requests + [index];
      }
    }

    method FillWindow() returns (outcome: Outcome)
      requires nextRequest <= meta.chunks
      modifies this
      ensures Did(Fill(old(State()), old(budget)), old(budget), old(requests))
      ensures outcome == Fill(old(State()), old(budget)).outcome
    {
      ghost var was := State();
      var windowEnd := nextWrite + TRANSFER_WINDOW;
      while nextRequest < meta.chunks && nextRequest < windowEnd
        invariant was.nextRequest <= nextRequest
        invariant nextRequest == was.nextRequest || nextRequest <= WindowEnd(was)
        invariant State() == was.(nextRequest := nextRequest)
        invariant requests == old(requests) + Range(was.nextRequest, nextRequest)
        invariant budget == old(budget) - (nextRequest - was.nextRequest)
      {
        var ok := SendChunkRequest(nextRequest);
        if !ok {
          return Failed(SEND_ERROR);
        }
        RangeSnoc(was.nextRequest, nextRequest);
        nextRequest := nextRequest + 1;
      }
      return Waiting;
    }

    method RequestMissing() returns (outcome: Outcome)
      modifies this`budget, this`requests
      ensures Did(Retransmit(old(State()), old(budget)), old(budget), old(requests))
      ensures outcome == Retransmit(old(State()), old(budget)).outcome
    {
      ghost var was := State();
      ghost var missing := Missing(was, nextWrite);
      ghost var done := 0;
      var index := nextWrite;
      while index < nextRequest
        invariant State() == was && nextWrite <= index
        invariant done <= |missing| && missing[done..] == Missing(was, index)
        invariant requests == old(requests) + missing[..done]
        invariant budget == old(budget) - done
      {
        if index !in buffered {
          assert missing[done] == index && missing[done + 1..] == Missing(was, index + 1) by {
            assert missing[done..] == [index] + Missing(was, index + 1);
            assert missing[done + 1..] == missing[done..][1..];
          }
          var ok := SendChunkRequest(index);
          if !ok {
            return Failed(SEND_ERROR);
          }
          assert missing[..done + 1] == missing[..done] + [index];
          done := done + 1;
        }
        index := index + 1;
      }
      assert missing[..done] == missing;
      return Waiting;
    }

    method DrainBuffer()
      modifies this
      ensures State() == Drain(old(State()))
      ensures budget == old(budget) && requests == old(requests)
    {
      while nextWrite in buffered
        invariant Drain(State()) == Drain(old(State()))
        invariant budget == old(budget) && requests == old(requests)
        decreases |buffered|
      {
        var data := buffered[nextWrite];
        written := written + data;
        buffered := buffered - {nextWrite};
        received := received + |data|;
        nextWrite := nextWrite + 1;
      }
    }

    method HandlePacket(inner: bytes) returns (outcome: Outcome)
      requires AtLoopHead(State())
      modifies this
      ensures Did(HandleInner(old(State()), inner, old(budget)), old(budget), old(requests))
      ensures outcome == HandleInner(old(State()), inner, old(budget)).outcome
    {
      var header := Header(inner);
      if header.Err? {
        return Waiting;
      }
      var packetType := header.value.0;
      if packetType == ErrorType {
        ErrorIsRead(State(), inner, budget);
        return Failed("server error");
      }
      if packetType != DataType {
        return Waiting;
      }
      var decoded := Decode(_ => true, DataType, inner);
      if decoded.Err? {
        return Failed(decoded.error);
      }
      DataIsRead(State(), inner, budget);
      var p := decoded.value.1;
      outcome := HandleData(p.index, p.data);
    }

    method HandleData(index: U32, data: bytes) returns (outcome: Outcome)
      requires AtLoopHead(State())
      modifies this
      ensures Did(Handle(old(State()), Data(index, data), old(budget)), old(budget), old(requests))
      ensures outcome == Handle(old(State()), Data(index, data), old(budget)).outcome
    {
      if index < nextWrite || index >= nextRequest {
        return Waiting;
      }
      if index in buffered {
        return Waiting;
      }
      if |data| != ExpectedLength(meta, index) {
        return Failed("chunk length");
      }
      StoreKeeps(State(), index, data);
      buffered := buffered[index := data];
      stored := stored[index := data];
      DrainKeeps(State());
      DrainBuffer();
      outcome := FillWindow();
    }

    /** One turn of the loop. */
    method TakeTurn(event: Event) returns (outcome: Outcome)
      requires AtLoopHead(State())
      modifies this
      ensures Did(React(old(State()), event, old(budget)), old(budget), old(requests))
      ensures outcome == React(old(State()), event, old(budget)).outcome
    {
      match event
      case Stopped => return Failed("transfer stopped");
      case ReadError => return Failed("read error");
      case Timeout => outcome := RequestMissing();
      case Arrival(None) => return Waiting;
      case Arrival(Some(inner)) => outcome := HandlePacket(inner);
    }

    /** The same, as the first turn of what is still to come. */
    method TakeFirst(events: seq<Event>) returns (outcome: Outcome, ghost sent: seq<U32>, ghost t: Transcript)
      requires AtLoopHead(State()) && nextWrite < meta.chunks && events != []
      modifies this
      ensures requests == old(requests) + sent && budget == old(budget) - |sent|
      ensures Loop(old(State()), old(budget), events) == After(sent, t)
      ensures outcome.Failed? ==> t == Transcript(State(), [], Broke(outcome.error))
      ensures outcome.Waiting? ==> AtLoopHead(State()) && t == Loop(State(), budget, events[1..])
    {
      ghost var e, left;
      e, t, left := Turns(State(), budget, events);
      outcome := TakeTurn(events[0]);
      sent := e.requests;
    }

    /** The loop, fed by a finite stream of events. */
    method RunLoop(events: seq<Event>) returns (r: Result<nat>)
      requires AtLoopHead(State())
      modifies this
      ensures var t := Loop(old(State()), old(budget), events);
              && State() == t.view
              && (t.ending.Wrote? ==> r == Ok(t.ending.count)) && (t.ending.Broke? ==> r == Err(t.ending.error))
              && (t.ending.Starved? ==> r == Err("no more events"))
              && requests == old(requests) + t.requests && budget == old(budget) - |t.requests|
    {
      ghost var sent: seq<U32> := [];
      ghost var whole := Loop(State(), budget, events);
      var i := 0;
      while nextWrite < meta.chunks
        invariant 0 <= i <= |events| && AtLoopHead(State())
        invariant requests == old(requests) + sent && budget == old(budget) - |sent|
        invariant whole == After(sent, Loop(State(), budget, events[i..]))
        decreases |events| - i
      {
        if i == |events| {
          return Err("no more events");
        }
        var outcome, more, t := TakeFirst(events[i..]);
        AfterBoth(old(requests), sent, more, t);
        assert events[i..][1..] == events[i + 1..];
        sent := sent + more;
        i := i + 1;
        if outcome.Failed? {
          return Err(outcome.error);
        }
      }
      return Ok(received);
    }

    /** Fill the first window, then loop: what `Receive` says, to the variables, the requests
        and the result. */
    method ReceiveChunks(events: seq<Event>) returns (r: Result<nat>)
      requires State() == Start(meta)
      modifies this
      ensures var t := Receive(meta, old(budget), events);
              && State() == t.view
              && (t.ending.Wrote? ==> r == Ok(t.ending.count)) && (t.ending.Broke? ==> r == Err(t.ending.error))
              && (t.ending.Starved? ==> r == Err("no more events"))
              && requests == old(requests) + t.requests && budget == old(budget) - |t.requests|
    {
      StartIsSound(meta, budget);
      FillKeeps(Start(meta), budget);
      var outcome := FillWindow();
      if outcome.Failed? {
        return Err(outcome.error);
      }
      r := RunLoop(events);
    }
  }

  /** A transcript after some earlier requests. */
  function After(sent: seq<U32>, t: Transcript): Transcript {
    t.(requests := sent + t.requests)
  }

  lemma AfterBoth(log: seq<U32>, sent: seq<U32>, more: seq<U32>, t: Transcript)
    ensures After(sent, After(more, t)) == After(sent + more, t)
    ensures (log + sent) + more == log + (sent + more)
  {
    assert sent + (more + t.requests) == (sent + more) + t.requests;
  }

  lemma RangeSnoc(lo: nat, hi: nat)
    requires lo <= hi <= MAX_UINT32
    ensures Range(lo, hi) + [hi] == Range(lo, hi + 1)
  {}
}
