/** internal/server/server.go, `handleGet` and `markChunkSent`: which chunks have been sent,
    kept as a base index and a 256-bit bitmap above it. */
module SendWindow {
  import opened Bytes
  import opened Codec
  import opened Chunks
  import opened Replay
  import opened Words

  const SEND_WINDOW := 256

  /** The least index not in `sent`, looking from `lo`; `hi` when there is none below it. */
  function FirstGap(sent: set<nat>, lo: nat, hi: nat): nat
    decreases hi - lo
  {
    if lo >= hi || lo !in sent then lo else FirstGap(sent, lo + 1, hi)
  }

  /** `sentWindowBase` as a function of the chunks sent. */
  function Base(sent: set<nat>, chunks: nat): nat {
    FirstGap(sent, 0, chunks)
  }

  /** `chunkWithinSendWindow` */
  predicate WithinWindow(base: nat, index: nat) {
    index < base || index - base < SEND_WINDOW
  }

  lemma {:induction false} GapIsLeast(sent: set<nat>, lo: nat, hi: nat)
    requires lo <= hi
    ensures var b := FirstGap(sent, lo, hi);
            && lo <= b <= hi && (forall i: nat :: lo <= i < b ==> i in sent)
            && (b < hi ==> b !in sent)
    decreases hi - lo
  {
    if lo < hi && lo in sent {
      GapIsLeast(sent, lo + 1, hi);
    }
  }

  lemma {:induction false} GapIs(sent: set<nat>, lo: nat, hi: nat, b: nat)
    requires lo <= b <= hi && (forall i: nat :: lo <= i < b ==> i in sent) && (b < hi ==> b !in sent)
    ensures FirstGap(sent, lo, hi) == b
    decreases hi - lo
  {
    if lo < b {
      GapIs(sent, lo + 1, hi, b);
    }
  }

  /** The least unsent index only grows. */
  lemma {:induction false} GapGrows(sent: set<nat>, more: set<nat>, lo: nat, hi: nat)
    requires sent <= more
    ensures FirstGap(sent, lo, hi) <= FirstGap(more, lo, hi)
    decreases hi - lo
  {
    if lo < hi && lo in sent {
      GapGrows(sent, more, lo + 1, hi);
    } else if lo < hi {
      GapIsLeast(more, lo, hi);
    }
  }

  // ----- bytes and chunks sent -----

  /** Bytes in the chunks of `sent` below `n`. */
  function SumSent(m: Meta, sent: set<nat>, n: nat): nat
    requires n <= m.chunks
  {
    if n == 0 then 0
    else SumSent(m, sent, n - 1) + (if n - 1 in sent then ExpectedLength(m, n - 1) else 0)
  }

  lemma {:induction false} SumSentAdd(m: Meta, sent: set<nat>, index: nat, n: nat)
    requires n <= m.chunks && index !in sent && index < m.chunks
    ensures SumSent(m, sent + {index}, n) == SumSent(m, sent, n) + (if index < n then ExpectedLength(m, index) else 0)
  {
    if n > 0 {
      SumSentAdd(m, sent, index, n - 1);
    }
  }

  lemma {:induction false} SumSentNone(m: Meta, n: nat)
    requires n <= m.chunks
    ensures SumSent(m, {}, n) == 0
  {
    if n > 0 {
      SumSentNone(m, n - 1);
    }
  }

  /** A chunk of `length` bytes, if new, adds so much to the bytes sent. */
  ghost predicate Adds(m: Meta, sent: set<nat>, index: nat, length: nat) {
    index !in sent ==> SumSent(m, sent + {index}, m.chunks) == SumSent(m, sent, m.chunks) + length
  }

  lemma ChunkAdds(m: Meta, file: bytes, sent: set<nat>, index: U32)
    requires Consistent(m) && m.size == |file| && index < m.chunks
    ensures Adds(m, sent, index, |ChunkOf(file, m, index)|)
  {
    LengthsAgree(m, index);
    if index !in sent {
      SumSentAdd(m, sent, index, m.chunks);
    }
  }

  /** The bytes sent never exceed the bytes there are, and reach them exactly when every
      chunk has been sent. */
  lemma {:induction false} SentBytesBound(m: Meta, sent: set<nat>, n: nat)
    requires Consistent(m) && n <= m.chunks
    ensures SumSent(m, sent, n) <= PrefixSize(m, n)
    ensures SumSent(m, sent, n) == PrefixSize(m, n) <==> forall i: nat :: i < n ==> i in sent
  {
    PrefixEnds(m);
    if n > 0 {
      SentBytesBound(m, sent, n - 1);
      LengthsAgree(m, n - 1);
      OffsetInside(m.size, m.chunks, m.chunkSize, n - 1);
      assert PrefixSize(m, n) == PrefixSize(m, n - 1) + ExpectedLength(m, n - 1);
      assert n - 1 in sent || SumSent(m, sent, n) == SumSent(m, sent, n - 1);
      assert (forall i: nat :: i < n ==> i in sent) <==> n - 1 in sent && (forall i: nat :: i < n - 1 ==> i in sent);
    }
  }

  /** `sentBytes = Size` iff the set of sent chunks is all of them. */
  lemma AllSentIff(m: Meta, sent: set<nat>)
    requires Consistent(m) && forall i <- sent :: i < m.chunks
    ensures SumSent(m, sent, m.chunks) == m.size <==> forall i: nat :: i < m.chunks ==> i in sent
    ensures SumSent(m, sent, m.chunks) == m.size <==> Base(sent, m.chunks) == m.chunks
  {
    SentBytesBound(m, sent, m.chunks);
    PrefixEnds(m);
    GapIsLeast(sent, 0, m.chunks);
  }

  // ----- the bitmap -----

  /** `shiftSentChunkWindow`: the 256-bit window moved down by one. */
  method ShiftSentChunkWindow(window: array<Word>)
    requires window.Length == WINDOW_WORDS
    modifies window
    ensures forall d: nat :: d < WINDOW ==>
              (BitOf(window[..], d) <==> d + 1 < WINDOW && BitOf(old(window[..]), d + 1))
  {
    ghost var was := window[..];
    var word := 0;
    while word < WINDOW_WORDS
      invariant 0 <= word <= WINDOW_WORDS
      invariant forall k: nat :: word <= k < WINDOW_WORDS ==> window[k] == was[k]
      invariant forall k: nat :: k < word ==> window[k] == ShiftedDown(was, k)
    {
      window[word] := Shr(window[word], 1);
      if word + 1 < WINDOW_WORDS {
        window[word] := OrWord(window[word], Shl(window[word + 1], 63));
      }
      word := word + 1;
    }
    forall d: nat | d < WINDOW
      ensures BitOf(window[..], d) <==> d + 1 < WINDOW && BitOf(was, d + 1)
    {
      BitShiftedDown(was, d / 64, d % 64);
      assert window[..][d / 64] == ShiftedDown(was, d / 64);
    }
  }

  function ShiftedDown(window: seq<Word>, word: nat): Word
    requires |window| == WINDOW_WORDS && word < WINDOW_WORDS
  {
    if word + 1 < WINDOW_WORDS then OrWord(Shr(window[word], 1), Shl(window[word + 1], 63)) else Shr(window[word], 1)
  }

  lemma BitShiftedDown(window: seq<Word>, word: nat, i: nat)
    requires |window| == WINDOW_WORDS && word < WINDOW_WORDS && i < 64
    ensures var d := 64 * word + i;
            Bit(ShiftedDown(window, word), i) <==> d + 1 < WINDOW && BitOf(window, d + 1)
  {
    var d := 64 * word + i;
    assert (d + 1) / 64 == (if i == 63 then word + 1 else word) && (d + 1) % 64 == (if i == 63 then 0 else i + 1);
    BitShr(window[word], 1, i);
    if i == 63 {
      PowWord();
      BitHigh(window[word], 64, 64);
    }
    if word + 1 < WINDOW_WORDS {
      BitOr(Shr(window[word], 1), Shl(window[word + 1], 63), i);
      BitShl(window[word + 1], 63, i);
    }
  }

  datatype Reply = Ignored | ReadFailed | NotSent | Sent(index: U32, data: bytes)

  /** The part of the server's `session` that answers chunk requests. */
  class ServedArchive {
    const meta: Meta
    const file: bytes
    var preparing: bool
    var sentBytes: nat
    var sentChunks: nat
    var sentWindowBase: nat
    const sentChunkWindow: array<Word>
    ghost var sent: set<nat>

    /** The bitmap and base stand for the set of sent chunks. */
    ghost predicate WindowHolds()
      reads this, sentChunkWindow
    {
      && sentChunkWindow.Length == WINDOW_WORDS
      && (forall i <- sent :: i < meta.chunks && i < sentWindowBase + SEND_WINDOW)
      && sentWindowBase <= meta.chunks
      && (forall i: nat :: i < sentWindowBase ==> i in sent)
      && (forall d: nat :: d < WINDOW ==> (BitOf(sentChunkWindow[..], d) <==> sentWindowBase + d in sent))
    }

    ghost predicate Valid()
      reads this, sentChunkWindow
    {
      Consistent(meta) && meta.size == |file| && Accounted()
    }

    /** Base, bitmap and counters say what the set of sent chunks says. */
    ghost predicate Accounted()
      reads this, sentChunkWindow
    {
      && WindowHolds()
      && sentWindowBase == Base(sent, meta.chunks)
      && sentChunks == |sent|
      && sentBytes == SumSent(meta, sent, meta.chunks)
    }

    constructor (m: Meta, file: bytes)
      requires Consistent(m) && m.size == |file|
      ensures Valid() && fresh(sentChunkWindow)
      ensures meta == m && this.file == file && sent == {} && !preparing
    {
      meta, this.file, preparing := m, file, false;
      sentBytes, sentChunks, sentWindowBase, sent := 0, 0, 0, {};
      sentChunkWindow := new Word[4](_ => 0);
      new;
      SumSentNone(m, m.chunks);
      forall d: nat | d < WINDOW ensures !BitOf(sentChunkWindow[..], d) {
        BitZero(d % 64);
      }
    }

    /** True exactly the first time an index inside the window is marked; the base ends on
        the least unsent index and never passes the chunk count. */
    method MarkChunkSent(index: U32) returns (first: bool)
      requires WindowHolds() && sentWindowBase == Base(sent, meta.chunks) && index < meta.chunks
      modifies this`sentWindowBase, this`sent, sentChunkWindow
      ensures WindowHolds() && sentWindowBase == Base(sent, meta.chunks)
      ensures first <==> index !in old(sent) && index < old(sentWindowBase) + 256
      ensures sent == if first then old(sent) + {index} else old(sent)
    {
      if index < sentWindowBase {
        return false;
      }
      var distance := index - sentWindowBase;
      if distance >= SEND_WINDOW {
        return false;
      }
      var word, mask := distance / 64, Shl(1, distance % 64);
      BitMask(sentChunkWindow[word], distance % 64);
      assert BitOf(sentChunkWindow[..], distance) == Bit(sentChunkWindow[word], distance % 64);
      if And(sentChunkWindow[word], mask) != 0 {
        return false;
      }
      ghost var was := sentChunkWindow[..];
      sentChunkWindow[word] := OrWord(sentChunkWindow[word], mask);
      sent := sent + {index};
      assert forall d: nat :: d < WINDOW ==> (BitOf(sentChunkWindow[..], d) <==> d == distance || BitOf(was, d));
      Advance();
      return true;
    }

    /** The shift loop of `markChunkSent`. */
    method Advance()
      requires WindowHolds()
      modifies this`sentWindowBase, sentChunkWindow
      ensures WindowHolds() && sentWindowBase == Base(sent, meta.chunks)
    {
      BitMask(sentChunkWindow[0], 0);
      assert BitOf(sentChunkWindow[..], 0) == Bit(sentChunkWindow[0], 0);
      while And(sentChunkWindow[0], 1) != 0
        invariant WindowHolds()
        invariant And(sentChunkWindow[0], 1) != 0 <==> sentWindowBase in sent
        decreases meta.chunks - sentWindowBase
      {
        ghost var was := sentChunkWindow[..];
        ShiftSentChunkWindow(sentChunkWindow);
        sentWindowBase := sentWindowBase + 1;
        BitMask(sentChunkWindow[0], 0);
        assert BitOf(sentChunkWindow[..], 0) == Bit(sentChunkWindow[0], 0);
      }
      GapIs(sent, 0, meta.chunks, sentWindowBase);
    }

    /** One chunk request on a live session. Whether the file could be read and the datagram
        sent is up to the system. A chunk counts as sent once, however often it is. */
    method HandleGet(index: U32, readable: bool, sendable: bool) returns (reply: Reply)
      requires Valid()
      modifies this`sentBytes, this`sentChunks, this`sentWindowBase, this`sent, sentChunkWindow
      ensures Valid()
      ensures reply.Ignored? <==> preparing || index >= meta.chunks || index >= old(sentWindowBase) + 256
      ensures reply.Sent? ==> readable && sendable && reply.index == index && index < meta.chunks
                              && reply.data == ChunkOf(file, meta, index) && sent == old(sent) + {index}
      ensures !reply.Sent? ==> sent == old(sent)
      ensures reply.ReadFailed? ==> !readable
      ensures reply.NotSent? ==> readable && !sendable
    {
      if preparing || index >= meta.chunks
         || !(index < sentWindowBase || index - sentWindowBase < SEND_WINDOW)
      {
        return Ignored;
      }
      var data := ReadChunk(index);
      if !readable {
        return ReadFailed;
      }
      if !sendable {
        return NotSent;
      }
      ChunkAdds(meta, file, sent, index);
      RecordSent(index, |data|);
      return Sent(index, data);
    }

    /** The bytes that `handleGet` reads for an index it accepted. */
    method ReadChunk(index: U32) returns (data: bytes)
      requires Consistent(meta) && meta.size == |file| && index < meta.chunks
      ensures data == ChunkOf(file, meta, index)
    {
      LengthsAgree(meta, index);
      var offset := index * meta.chunkSize;
      var length: int := meta.chunkSize;
      var remaining := meta.size - offset;
      if remaining < length {
        length := remaining;
      }
      return file[offset..offset + length];
    }

    /** The end of `handleGet`: a chunk sent for the first time is counted. */
    method RecordSent(index: U32, length: nat)
      requires Accounted() && index < meta.chunks && WithinWindow(sentWindowBase, index)
      requires Adds(meta, sent, index, length)
      modifies this`sentBytes, this`sentChunks, this`sentWindowBase, this`sent, sentChunkWindow
      ensures Accounted() && sent == old(sent) + {index}
    {
      var first := MarkChunkSent(index);
      if first {
        sentChunks := sentChunks + 1;
        sentBytes := sentBytes + length;
      }
    }
  }
}
