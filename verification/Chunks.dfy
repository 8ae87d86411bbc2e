/** How an archive is cut into chunks: the server's signed arithmetic, the client's
    unsigned arithmetic, and the slices both describe. */
module Chunks {
  import opened Bytes
  import opened Codec

  /** The meta `prepare` builds; None when the archive has too many chunks. */
  function PreparedMeta(size: nat, sha256: Block): Option<Meta>
    requires size < 0x8000_0000_0000_0000
  {
    var chunks := if size > 0 then (size + CHUNK_SIZE - 1) / CHUNK_SIZE else 0;
    if chunks > MAX_UINT32 then None else Some(Meta(size, chunks, CHUNK_SIZE, sha256))
  }

  /** `handleGet`: `int64` offset and length. */
  function ServerOffset(m: Meta, index: U32): int {
    index * m.chunkSize
  }

  function ServerLength(m: Meta, index: U32): int {
    var remaining := m.size - ServerOffset(m, index);
    if remaining < m.chunkSize then remaining else m.chunkSize
  }

  /** `expectedChunkLength`: `uint64` subtraction, which may wrap. */
  function ExpectedLength(m: Meta, index: U32): nat {
    var offset := index * m.chunkSize % Pow64();
    var remaining := (m.size - offset) % Pow64();
    if remaining < m.chunkSize then remaining else m.chunkSize
  }

  /** A meta whose count is the true ceiling. */
  predicate Consistent(m: Meta) {
    m.chunkSize > 0 && m.chunks == CeilDiv(m.size, m.chunkSize)
  }

  lemma MulBounds(index: nat, chunks: nat, chunkSize: nat)
    requires index < chunks
    ensures 0 <= index * chunkSize <= (chunks - 1) * chunkSize
  {
    assert (chunks - 1) * chunkSize == index * chunkSize + (chunks - 1 - index) * chunkSize;
  }

  /** Both ends compute the same length, in 1..chunkSize, and nothing wraps: for every
      consistent meta and every index below its count. */
  lemma LengthsAgree(m: Meta, index: U32)
    requires Consistent(m) && index < m.chunks
    ensures 0 <= ServerOffset(m, index) < m.size
    ensures 1 <= ServerLength(m, index) <= m.chunkSize
    ensures ExpectedLength(m, index) == ServerLength(m, index)
    ensures ServerOffset(m, index) + ServerLength(m, index)
         == if index + 1 == m.chunks then m.size else ServerOffset(m, index) + m.chunkSize
  {
    OffsetInside(m.size, m.chunks, m.chunkSize, index);
    LengthAt(m.size, m.chunkSize, index * m.chunkSize);
  }

  lemma LengthAt(size: U64, chunkSize: U16, offset: nat)
    requires offset < size
    ensures offset % Pow64() == offset && (size - offset) % Pow64() == size - offset
  {}

  lemma OffsetInside(size: nat, chunks: nat, chunkSize: nat, index: nat)
    requires chunkSize > 0 && chunks == CeilDiv(size, chunkSize) && index < chunks
    ensures 0 <= index * chunkSize < size
    ensures (index + 1) * chunkSize == index * chunkSize + chunkSize
    ensures if index + 1 < chunks then index * chunkSize + chunkSize <= size
            else size <= index * chunkSize + chunkSize
  {
    CeilBounds(size, chunkSize);
    MulBounds(index, chunks, chunkSize);
    NextOffset(index, chunkSize);
    if index + 1 < chunks {
      MulBounds(index + 1, chunks, chunkSize);
    }
  }

  lemma NextOffset(index: nat, chunkSize: nat)
    ensures (index + 1) * chunkSize == index * chunkSize + chunkSize
  {}

  lemma CeilBounds(size: nat, chunkSize: nat)
    requires chunkSize > 0
    ensures var chunks := CeilDiv(size, chunkSize);
            chunks * chunkSize >= size && (chunks > 0 ==> (chunks - 1) * chunkSize < size)
  {
    var sum := size + chunkSize - 1;
    var chunks := sum / chunkSize;
    assert sum == chunks * chunkSize + sum % chunkSize;
    if chunks > 0 {
      assert (chunks - 1) * chunkSize == chunks * chunkSize - chunkSize;
    }
  }

  /** What `prepare` computes passes `DecodeMeta`, and is the true count. */
  lemma PreparedMetaIsAccepted(size: nat, sha256: Block)
    requires size < 0x8000_0000_0000_0000
    ensures PreparedMeta(size, sha256).Some? <==> CeilDiv(size, 1120) <= 0xffff_ffff
    ensures PreparedMeta(size, sha256).Some? ==>
              var m := PreparedMeta(size, sha256).value;
              MetaAccepted(m) && Consistent(m) && m.size == size && m.chunkSize == 1120 && m.sha256 == sha256
  {}

  // ----- slices -----

  /** Chunk `index` of an archive, as `handleGet` reads it. */
  function ChunkOf(archive: bytes, m: Meta, index: U32): (chunk: bytes)
    requires Consistent(m) && m.size == |archive| && index < m.chunks
    ensures |chunk| == ExpectedLength(m, index)
  {
    LengthsAgree(m, index);
    archive[ServerOffset(m, index)..ServerOffset(m, index) + ServerLength(m, index)]
  }

  /** Bytes in the first `n` chunks. */
  function PrefixSize(m: Meta, n: nat): nat {
    if n * m.chunkSize < m.size then n * m.chunkSize else m.size
  }

  lemma PrefixStep(archive: bytes, m: Meta, n: U32)
    requires Consistent(m) && m.size == |archive| && n < m.chunks
    ensures archive[..PrefixSize(m, n)] + ChunkOf(archive, m, n) == archive[..PrefixSize(m, n + 1)]
    ensures PrefixSize(m, n) + ExpectedLength(m, n) == PrefixSize(m, n + 1)
  {
    LengthsAgree(m, n);
    OffsetInside(m.size, m.chunks, m.chunkSize, n);
  }

  lemma PrefixEnds(m: Meta)
    requires Consistent(m)
    ensures PrefixSize(m, 0) == 0 && PrefixSize(m, m.chunks) == m.size
  {
    CeilBounds(m.size, m.chunkSize);
  }

  /** The first `n` chunks, one after another. */
  function Joined(archive: bytes, m: Meta, n: nat): bytes
    requires Consistent(m) && m.size == |archive| && n <= m.chunks
  {
    if n == 0 then [] else Joined(archive, m, n - 1) + ChunkOf(archive, m, n - 1)
  }

  /** The chunks, joined, are a prefix of the archive, and all of them are the archive. */
  lemma JoinedIsPrefix(archive: bytes, m: Meta, n: nat)
    requires Consistent(m) && m.size == |archive| && n <= m.chunks
    ensures Joined(archive, m, n) == archive[..PrefixSize(m, n)]
    ensures Joined(archive, m, m.chunks) == archive
  {
    JoinedPrefix(archive, m, n);
    JoinedPrefix(archive, m, m.chunks);
    PrefixEnds(m);
  }

  lemma {:induction false} JoinedPrefix(archive: bytes, m: Meta, n: nat)
    requires Consistent(m) && m.size == |archive| && n <= m.chunks
    ensures Joined(archive, m, n) == archive[..PrefixSize(m, n)]
  {
    PrefixEnds(m);
    if n > 0 {
      JoinedPrefix(archive, m, n - 1);
      PrefixStep(archive, m, n - 1);
    }
  }
}
