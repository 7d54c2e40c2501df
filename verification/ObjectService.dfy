/** Storing, reading and range-reading whole objects over the metadata store and the block store. */
module ObjectService {
  import opened ByteData
  import opened Metadata
  import opened Contents
  import opened MemoryStores
  import opened Backends
  import opened Chunkers
  import opened Int64

  datatype ByteRange = ByteRange(start: int, end: int)

  datatype ReadResult = Data(bytes: Bytes) | ObjectMissing | BlockUnreadable | InvalidChunkRange

  datatype SelectedChunk = SelectedChunk(hash: string, size: int, data: Bytes)

  datatype ChunksResult = Chunks(manifest: Manifest, selected: seq<SelectedChunk>) | NoObject | NotInManifest | BadBlock

  // ---------------------------------------------------------------- specification of range reads

  /** body[start..end + 1], cut down to what the body has. */
  function Clip(body: Bytes, range: ByteRange): Bytes
    requires 0 <= range.start <= range.end + 1
  {
    body[Min(range.start, |body|)..Min(range.end + 1, |body|)]
  }

  /** A chunk holds at least one byte of the range. */
  predicate Intersects(c: ChunkRef, range: ByteRange) {
    c.size != 0 && c.offset <= range.end && range.start <= c.offset + c.size - 1
  }

  predicate InBoth(c: ChunkRef, range: ByteRange, p: int) {
    c.offset <= p < c.offset + c.size && range.start <= p <= range.end
  }

  /** That is, some byte position lies in both. */
  lemma IntersectsIff(c: ChunkRef, range: ByteRange)
    requires c.size >= 0 && range.start <= range.end
    ensures Intersects(c, range) <==> exists p :: InBoth(c, range, p)
  {
    if Intersects(c, range) {
      assert InBoth(c, range, Max(c.offset, range.start));
    }
  }

  function IntersectingHashes(chunks: seq<ChunkRef>, range: ByteRange): seq<string>
  {
    if |chunks| == 0 then []
    else IntersectingHashes(chunks[..|chunks| - 1], range) +
         if Intersects(chunks[|chunks| - 1], range) then [chunks[|chunks| - 1].hash] else []
  }

  function AllHashes(chunks: seq<ChunkRef>): seq<string> {
    seq(|chunks|, i requires 0 <= i < |chunks| => chunks[i].hash)
  }

  /** The part of a chunk that lies in the range. */
  function Share(piece: Bytes, offset: nat, range: ByteRange): Bytes
    requires range.start <= range.end && Intersects(ChunkRef("", offset, |piece|), range)
  {
    var first := if range.start > offset then range.start - offset else 0;
    var last := if range.end < offset + |piece| - 1 then range.end - offset else |piece| - 1;
    piece[first..last + 1]
  }

  /** The shares of consecutive chunks add up to the range of the body. */
  lemma ClipStep(before: Bytes, piece: Bytes, range: ByteRange)
    requires 0 <= range.start <= range.end
    ensures Clip(before + piece, range) == Clip(before, range) +
              if Intersects(ChunkRef("", |before|, |piece|), range) then Share(piece, |before|, range) else []
  {
    var all := before + piece;
    var lo, hi := Min(range.start, |all|), Min(range.end + 1, |all|);
    if hi <= |before| {
      assert all[lo..hi] == before[lo..hi];
    } else if lo >= |before| {
      assert all[lo..hi] == piece[lo - |before|..hi - |before|];
    } else {
      assert all[lo..hi] == before[lo..] + piece[..hi - |before|];
    }
  }

  /** The blocks a read opens: all of them, or those that intersect the range. */
  function Wanted(chunks: seq<ChunkRef>, range: Option<ByteRange>): seq<string> {
    if range.None? then AllHashes(chunks) else IntersectingHashes(chunks, range.value)
  }

  function Clipped(body: Bytes, range: Option<ByteRange>): Bytes
    requires range.Some? ==> 0 <= range.value.start <= range.value.end + 1
  {
    if range.None? then body else Clip(body, range.value)
  }

  lemma WantedStep(chunks: seq<ChunkRef>, i: nat, range: Option<ByteRange>)
    requires i < |chunks|
    ensures Wanted(chunks[..i + 1], range) == Wanted(chunks[..i], range) +
              if range.None? || Intersects(chunks[i], range.value) then [chunks[i].hash] else []
  {
    assert chunks[..i + 1][..i] == chunks[..i];
  }

  lemma ClippedStep(pieces: seq<Bytes>, i: nat, range: Option<ByteRange>)
    requires i < |pieces| && (range.Some? ==> 0 <= range.value.start <= range.value.end)
    ensures var before := Concat(pieces[..i]);
            Clipped(Concat(pieces[..i + 1]), range) == Clipped(before, range) +
              if range.None? then pieces[i]
              else if Intersects(ChunkRef("", |before|, |pieces[i]|), range.value)
              then Share(pieces[i], |before|, range.value)
              else []
  {
    ConcatStep(pieces, i);
    if range.Some? {
      ClipStep(Concat(pieces[..i]), pieces[i], range.value);
    }
  }

  lemma RefsStep(sha: Sha, pieces: seq<Bytes>, i: nat)
    requires i < |pieces|
    ensures RefsOf(sha, pieces[..i + 1]) ==
            RefsOf(sha, pieces[..i]) + [ChunkRef(sha(pieces[i]), |Concat(pieces[..i])|, |pieces[i]|)]
  {
    assert pieces[..i + 1][..i] == pieces[..i];
  }

  lemma {:induction false} RefsAt(sha: Sha, pieces: seq<Bytes>, i: nat)
    requires i < |pieces|
    ensures |RefsOf(sha, pieces)| == |pieces|
    ensures RefsOf(sha, pieces)[i] == ChunkRef(sha(pieces[i]), |Concat(pieces[..i])|, |pieces[i]|)
    ensures RefsOf(sha, pieces)[..i] == RefsOf(sha, pieces[..i])
    decreases |pieces|
  {
    var before := pieces[..|pieces| - 1];
    RefsLength(sha, before);
    if i < |pieces| - 1 {
      RefsAt(sha, before, i);
      assert before[..i] == pieces[..i];
    } else {
      assert before == pieces[..i];
    }
  }

  lemma {:induction false} RefsLength(sha: Sha, pieces: seq<Bytes>)
    ensures |RefsOf(sha, pieces)| == |pieces|
    decreases |pieces|
  {
    if |pieces| != 0 {
      RefsLength(sha, pieces[..|pieces| - 1]);
    }
  }

  lemma ContentIsPiece(sha: Sha, blocks: BlockMap, tenant: string, pieces: seq<Bytes>, i: nat)
    requires i < |pieces| && ContentNamed(sha, blocks) && CollisionFree(sha, blocks, pieces)
    requires (tenant, sha(pieces[i])) in blocks
    ensures blocks[(tenant, sha(pieces[i]))] == pieces[i]
  {
    assert pieces[i] in pieces;
  }

  /** The manifest and blocks a body stored as these pieces leaves behind. */
  ghost predicate Stored(sha: Sha, blocks: BlockMap, tenant: string, chunks: seq<ChunkRef>, pieces: seq<Bytes>) {
    && ContentNamed(sha, blocks) && CollisionFree(sha, blocks, pieces)
    && chunks == RefsOf(sha, pieces)
    && forall i :: 0 <= i < |pieces| ==> (tenant, sha(pieces[i])) in blocks
  }

  /** The first occurrences of the names in a list. */
  function Dedup(hashes: seq<string>): seq<string>
  {
    if |hashes| == 0 then []
    else
      var before := hashes[..|hashes| - 1];
      Dedup(before) + if hashes[|hashes| - 1] in before then [] else [hashes[|hashes| - 1]]
  }

  /** Each name once, in the order in which the list first has them. */
  ghost predicate EachOnce(hashes: seq<string>, names: seq<string>) {
    && (forall h :: h in names <==> h in hashes)
    && (forall i, j :: 0 <= i < j < |names| ==>
          names[i] != names[j] && exists p :: 0 <= p < |hashes| && hashes[p] == names[i] && names[j] !in hashes[..p])
  }

  lemma {:induction false} DedupIsEachOnce(hashes: seq<string>)
    ensures EachOnce(hashes, Dedup(hashes))
    decreases |hashes|
  {
    if |hashes| > 0 {
      var n := |hashes| - 1;
      var before, last := hashes[..n], hashes[n];
      DedupIsEachOnce(before);
      assert hashes == before + [last];
      var names, done := Dedup(hashes), Dedup(before);
      forall i, j | 0 <= i < j < |names|
        ensures names[i] != names[j]
        ensures exists p :: 0 <= p < |hashes| && hashes[p] == names[i] && names[j] !in hashes[..p]
      {
        if j < |done| {
          var p :| 0 <= p < |before| && before[p] == names[i] && names[j] !in before[..p];
          assert hashes[p] == names[i] && hashes[..p] == before[..p];
        } else {
          assert names[i] in done && names[i] in before;
          var p :| 0 <= p < |before| && before[p] == names[i];
          assert hashes[p] == names[i] && forall q :: q in hashes[..p] ==> q in before;
        }
      }
    }
  }

  function FirstWith(chunks: seq<ChunkRef>, hash: string): Option<ChunkRef>
  {
    if |chunks| == 0 then None
    else if chunks[0].hash == hash then Some(chunks[0]) else FirstWith(chunks[1..], hash)
  }

  /** Creating a pending object shows in no lookup and no reference count. */
  lemma CreateInvisible(s: StoreState, id: string, m: Manifest, now: int)
    requires id !in s.objects && IndexExact(s)
    ensures var s1 := CreatePending(s, id, m, now);
            && (forall k :: Lookup(s1, k) == Lookup(s, k))
            && (forall t, h :: RefOf(s1, t, h) == RefOf(s, t, h))
  {
  }

  lemma CreateCommits(s: StoreState, id: string, m: Manifest, now: int)
    ensures CanCommit(CreatePending(s, id, m, now), id) && CreatePending(s, id, m, now).objects[id].createdAt == now
  {
  }

  /** What a lookup finds right after the commit. */
  lemma CommitFound(s: StoreState, id: string, m: Manifest, at: Stamps)
    requires CanCommit(s, id)
    ensures GetObject(Commit(s, id, m, at), m.tenant, m.bucket, m.key) == Some(CommittedManifest(s, id, m, at.update))
  {
  }

  lemma DedupStep(hashes: seq<string>, i: nat)
    requires i < |hashes|
    ensures Dedup(hashes[..i + 1]) == Dedup(hashes[..i]) + if hashes[i] in hashes[..i] then [] else [hashes[i]]
  {
    assert hashes[..i + 1][..i] == hashes[..i];
  }

  /** The names of the selected chunks, in order. */
  function NamesOf(selected: seq<SelectedChunk>): seq<string> {
    seq(|selected|, i requires 0 <= i < |selected| => selected[i].hash)
  }

  /** The blocks behind these names are in the manifest and of the size it gives. */
  ghost predicate Servable(blocks: BlockMap, tenant: string, manifest: Option<Manifest>, hashes: seq<string>) {
    && manifest.Some?
    && forall h :: h in hashes ==> BlockServable(blocks, tenant, manifest.value.chunks, h)
  }

  ghost predicate BlockServable(blocks: BlockMap, tenant: string, chunks: seq<ChunkRef>, h: string) {
    var c := FirstWith(chunks, h);
    c.Some? && (tenant, h) in blocks && |blocks[(tenant, h)]| == c.value.size
  }

  /** A name the manifest does not have. */
  ghost predicate NamesStranger(chunks: seq<ChunkRef>, hashes: seq<string>) {
    exists h :: h in hashes && FirstWith(chunks, h).None?
  }

  /** The entity tag of a body: its digest in quotes. */
  function ETagOf(digestOf: Bytes -> string, body: Bytes): string { "\"" + digestOf(body) + "\"" }

  // ---------------------------------------------------------------- the service

  class Service {
    const sha: Sha
    const store: MemoryStore
    const backend: BlockStore
    /**
     Unless the service is calm, calls may be cancelled at any point and the metadata store may fail to
     create or commit an object; a commit that fails is rolled back.
     */
    const calm: bool
    /** The digest of a whole body, in hexadecimal. */
    const digestOf: Bytes -> string

    constructor (sha: Sha, digestOf: Bytes -> string, store: MemoryStore, backend: BlockStore, calm: bool)
      ensures this.sha == sha && this.digestOf == digestOf
      ensures this.store == store && this.backend == backend && this.calm == calm
    {
      this.sha, this.digestOf, this.store, this.backend, this.calm := sha, digestOf, store, backend, calm;
    }

    /** One chunk callback's backend work: write the block unless it is already there. */
    method EnsureBlock(tenant: string, hash: string, data: Bytes) returns (ok: bool)
      modifies backend
      ensures ok ==>
        backend.blocks ==
          if (tenant, hash) in old(backend.blocks) then old(backend.blocks)
          else old(backend.blocks)[(tenant, hash) := data]
      ensures !ok ==> backend.blocks == old(backend.blocks)
      ensures backend.reliable ==> ok
    {
      var present;
      ok, present := backend.HasBlock(tenant, hash);
      if ok && !present {
        ok := backend.PutBlock(tenant, hash, data);
      }
    }

    /**
     The callback loop over the chunks the chunker hands out: pieces of the body, in order, and the bytes
     the body's digest has been fed.  A stream that breaks ends the upload after the chunks already seen.
     */
    method StoreChunks(tenant: string, pieces: seq<Bytes>, streamOk: bool)
      returns (ok: bool, refs: seq<ChunkRef>, size: int, chunks: int, fed: Bytes)
      modifies backend
      ensures ok ==> streamOk
      ensures ok ==>
                refs == RefsOf(sha, pieces) && size == |Concat(pieces)| && chunks == |pieces| && fed == Concat(pieces)
      ensures ok ==> forall i :: 0 <= i < |pieces| ==> (tenant, sha(pieces[i])) in backend.blocks
      ensures old(backend.blocks).Keys <= backend.blocks.Keys
      ensures forall at :: at in old(backend.blocks) ==> backend.blocks[at] == old(backend.blocks)[at]
      ensures forall at :: at in backend.blocks && at !in old(backend.blocks) ==>
                at.0 == tenant && backend.blocks[at] in pieces && at.1 == sha(backend.blocks[at])
      ensures streamOk && backend.reliable ==> ok
    {
      var seenBlocks: set<string> := {};
      ok, refs, size, chunks, fed := true, [], 0, 0, [];
      var stream := WithOffsets(pieces);
      for i := 0 to |pieces|
        invariant ok && refs == RefsOf(sha, pieces[..i]) && size == |Concat(pieces[..i])| && chunks == i
        invariant fed == Concat(pieces[..i])
        invariant seenBlocks == set j | 0 <= j < i :: sha(pieces[j])
        invariant forall h :: h in seenBlocks ==> (tenant, h) in backend.blocks
        invariant old(backend.blocks).Keys <= backend.blocks.Keys
        invariant forall at :: at in old(backend.blocks) ==> backend.blocks[at] == old(backend.blocks)[at]
        invariant forall at :: at in backend.blocks && at !in old(backend.blocks) ==>
                    at.0 == tenant && backend.blocks[at] in pieces && at.1 == sha(backend.blocks[at])
      {
        OffsetsContiguous(pieces, i);
        RefsStep(sha, pieces, i);
        ConcatStep(pieces, i);
        var chunk := stream[i];
        fed := fed + chunk.data;
        var blockId := sha(chunk.data);
        if blockId !in seenBlocks {
          ok := EnsureBlock(tenant, blockId, chunk.data);
          if !ok {
            return;
          }
          seenBlocks := seenBlocks + {blockId};
        }
        var ref := ChunkRef(blockId, chunk.offset, |chunk.data|);
        size := size + ref.size;
        chunks := chunks + 1;
        refs := refs + [ref];
      }
      assert pieces[..|pieces|] == pieces;
      ok := streamOk;
    }

    /**
     Store a body.  The result is what a lookup returns right after the commit; a failure before the
     commit, or of the commit itself once every block is written, leaves every lookup and every reference
     count as it was.
     */
    method Put(freshId: string, tenant: string, bucket: string, key: string, pieces: seq<Bytes>, streamOk: bool,
               headers: map<string, string>, now: int, at: Stamps)
      returns (r: Option<Manifest>, ghost committed: bool)
      requires freshId != "" && freshId !in store.objects
      modifies store, backend
      ensures committed ==>
                var s := store.State();
                var m := GetObject(s, tenant, bucket, key);
                && m.Some? && (r.Some? ==> r == m)
                && m.value.id == freshId && m.value.chunks == RefsOf(sha, pieces) && m.value.size == |Concat(pieces)|
                && m.value.etag == "\"" + digestOf(Concat(pieces)) + "\"" && m.value.headers == headers
                && m.value.tenant == tenant && m.value.bucket == bucket && m.value.key == key
                && m.value.createdAt == now && m.value.updatedAt == at.update
                && forall i :: 0 <= i < |pieces| ==> (tenant, sha(pieces[i])) in backend.blocks
      ensures committed ==> streamOk
      ensures !committed ==> r == None
      ensures !committed && IndexExact(old(store.State())) ==>
                && (forall k :: Lookup(store.State(), k) == Lookup(old(store.State()), k))
                && (forall t, h :: RefOf(store.State(), t, h) == RefOf(old(store.State()), t, h))
      ensures old(backend.blocks).Keys <= backend.blocks.Keys
      ensures forall b :: b in old(backend.blocks) ==> backend.blocks[b] == old(backend.blocks)[b]
      ensures forall b :: b in backend.blocks && b !in old(backend.blocks) ==>
                backend.blocks[b] in pieces && b.1 == sha(backend.blocks[b])
      ensures streamOk && backend.reliable && calm ==> committed && r.Some?
    {
      hide CreatePending, Commit, GetObject, Lookup, RefOf, IndexExact, CanCommit, RefsOf, Concat;
      committed, r := false, None;
      var failed: bool := *;
      if !calm && failed {
        return;
      }
      ghost var s := store.State();
      var template := NO_MANIFEST.(tenant := tenant, bucket := bucket, key := key);
      var pendingId := store.CreatePendingObject(freshId, template, now);
      if IndexExact(s) {
        CreateInvisible(s, freshId, template, now);
      }
      var ok, refs, size, chunks, fed := StoreChunks(tenant, pieces, streamOk);
      if !ok {
        return;
      }
      var etag := ETagOf(digestOf, fed);
      var manifest := Manifest("", tenant, bucket, key, Pending, size, etag, headers, refs, ZERO_TIME, ZERO_TIME);
      // All blocks are written; the commit may be cancelled, or its transaction fail and be rolled back.
      failed := *;
      if !calm && failed {
        return;
      }
      CreateCommits(s, freshId, template, now);
      CommitFound(store.State(), freshId, manifest, at);
      ok := store.CommitObject(pendingId, manifest, at);
      committed := true;
      failed := *;
      if calm || !failed {
        r := store.Get(tenant, bucket, key);
      }
    }

    /** The loop body of the reader: None when the chunk lies outside the range. */
    method ReadPart(tenant: string, chunk: ChunkRef, byteRange: Option<ByteRange>) returns (part: Option<ReadResult>)
      requires byteRange.Some? ==> 0 <= byteRange.value.start <= byteRange.value.end
      requires (tenant, chunk.hash) in backend.blocks && |backend.blocks[(tenant, chunk.hash)]| == chunk.size
      requires chunk.offset >= 0
      ensures part.None? <==> byteRange.Some? && !Intersects(chunk, byteRange.value)
      ensures part.Some? ==> part.value.Data? || part.value.BlockUnreadable?
      ensures part.Some? && backend.reliable ==> part.value.Data?
      ensures part.Some? && part.value.Data? ==>
                var block := backend.blocks[(tenant, chunk.hash)];
                part.value.bytes == if byteRange.None? then block else Share(block, chunk.offset, byteRange.value)
    {
      var readStart, readEnd := 0, chunk.size - 1;
      if byteRange.Some? {
        var chunkStart, chunkEnd := chunk.offset, chunk.offset + chunk.size - 1;
        if chunk.size == 0 || chunkEnd < byteRange.value.start || chunkStart > byteRange.value.end {
          return None;
        }
        if byteRange.value.start > chunkStart {
          readStart := byteRange.value.start - chunkStart;
        }
        if byteRange.value.end < chunkEnd {
          readEnd := byteRange.value.end - chunkStart;
        }
      }
      var block := backend.GetBlock(tenant, chunk.hash);
      if block.None? {
        return Some(BlockUnreadable);
      }
      if readStart != 0 || readEnd != chunk.size - 1 {
        if readStart > |block.value| || readEnd >= |block.value| || readStart > readEnd {
          return Some(InvalidChunkRange);
        }
        return Some(Data(block.value[readStart..readEnd + 1]));
      }
      assert block.value[0..readEnd + 1] == block.value;
      return Some(Data(block.value));
    }

    /** Reading the blocks of a manifest, whole or clipped to a range. */
    method OpenChunks(tenant: string, manifest: Manifest, byteRange: Option<ByteRange>, ghost pieces: seq<Bytes>)
      returns (r: ReadResult, fetched: seq<string>)
      requires byteRange.Some? ==> 0 <= byteRange.value.start <= byteRange.value.end < manifest.size
      requires Stored(sha, backend.blocks, tenant, manifest.chunks, pieces) && manifest.size == |Concat(pieces)|
      ensures r.Data? ==> fetched == Wanted(manifest.chunks, byteRange)
      ensures r.Data? && byteRange.None? ==> r.bytes == Concat(pieces)
      ensures r.Data? && byteRange.Some? ==>
                r.bytes == Concat(pieces)[byteRange.value.start..byteRange.value.end + 1]
      ensures r.Data? || r.BlockUnreadable?
      ensures backend.reliable ==> r.Data?
    {
      hide RefsOf, ContentNamed, CollisionFree;
      var data: Bytes := [];
      fetched := [];
      RefsLength(sha, pieces);
      for i := 0 to |manifest.chunks|
        invariant fetched == Wanted(manifest.chunks[..i], byteRange)
        invariant data == Clipped(Concat(pieces[..i]), byteRange)
      {
        var chunk := manifest.chunks[i];
        RefsAt(sha, pieces, i);
        ContentIsPiece(sha, backend.blocks, tenant, pieces, i);
        WantedStep(manifest.chunks, i, byteRange);
        ClippedStep(pieces, i, byteRange);
        var part := ReadPart(tenant, chunk, byteRange);
        if part.None? {
          continue;
        }
        if !part.value.Data? {
          return part.value, fetched;
        }
        fetched := fetched + [chunk.hash];
        data := data + part.value.bytes;
      }
      assert manifest.chunks[..|manifest.chunks|] == manifest.chunks && pieces[..|pieces|] == pieces;
      r := Data(data);
    }

    /** The whole object. */
    method Open(tenant: string, bucket: string, key: string, ghost pieces: seq<Bytes>)
      returns (r: ReadResult, fetched: seq<string>)
      requires var m := GetObject(store.State(), tenant, bucket, key);
               m.Some? ==>
                 Stored(sha, backend.blocks, tenant, m.value.chunks, pieces) && m.value.size == |Concat(pieces)|
      ensures r.ObjectMissing? <==> GetObject(store.State(), tenant, bucket, key).None?
      ensures r.Data? ==> r.bytes == Concat(pieces)
      ensures !r.InvalidChunkRange?
      ensures backend.reliable ==> r.Data? || r.ObjectMissing?
    {
      var m := store.Get(tenant, bucket, key);
      if m.None? {
        return ObjectMissing, [];
      }
      r, fetched := OpenChunks(tenant, m.value, None, pieces);
    }

    /** What is stored is what is read back, whatever the store and the backend held before. */
    method PutThenOpen(freshId: string, tenant: string, bucket: string, key: string, pieces: seq<Bytes>, now: int,
                       at: Stamps)
      returns (r: ReadResult)
      requires freshId != "" && freshId !in store.objects
      requires ContentNamed(sha, backend.blocks) && CollisionFree(sha, backend.blocks, pieces)
      requires forall p, q :: p in pieces && q in pieces && sha(p) == sha(q) ==> p == q
      requires backend.reliable && calm
      modifies store, backend
      ensures r == Data(Concat(pieces))
    {
      var m;
      ghost var committed;
      m, committed := Put(freshId, tenant, bucket, key, pieces, true, map[], now, at);
      var fetched;
      r, fetched := Open(tenant, bucket, key, pieces);
    }

    /** Selected chunks of a manifest, each requested hash once, verified before it is returned. */
    method ReadChunks(tenant: string, bucket: string, key: string, hashes: seq<string>) returns (r: ChunksResult)
      ensures var m := GetObject(store.State(), tenant, bucket, key);
              && (r.NoObject? <==> m.None?)
              && (r.Chunks? ==> m == Some(r.manifest))
              && (m.Some? && NamesStranger(m.value.chunks, hashes) ==> !r.Chunks?)
              && (r.NotInManifest? ==> m.Some? && NamesStranger(m.value.chunks, hashes))
      ensures r.Chunks? ==> NamesOf(r.selected) == Dedup(hashes) && EachOnce(hashes, NamesOf(r.selected))
      ensures r.Chunks? ==> forall c :: c in r.selected ==> Selected(tenant, c)
      ensures backend.reliable && ContentNamed(sha, backend.blocks)
              && Servable(backend.blocks, tenant, GetObject(store.State(), tenant, bucket, key), hashes)
              ==> r.Chunks?
    {
      hide FirstWith, Dedup, GetObject, ContentNamed, ToSet, EachOnce;
      DedupIsEachOnce(hashes);
      var m := store.Get(tenant, bucket, key);
      if m.None? {
        return NoObject;
      }
      var manifest := m.value;
      if |hashes| == 0 {
        DedupNone();
        return Chunks(manifest, []);
      }
      var manifestChunks := IndexChunks(manifest.chunks);
      var seen: set<string> := {};
      var selected: seq<SelectedChunk> := [];
      DedupNone();
      for i := 0 to |hashes|
        invariant forall h :: h in seen <==> h in hashes[..i]
        invariant forall h :: h in seen ==> FirstWith(manifest.chunks, h).Some?
        invariant NamesOf(selected) == Dedup(hashes[..i])
        invariant forall c :: c in selected ==> Selected(tenant, c)
      {
        var hash := hashes[i];
        DedupStep(hashes, i);
        assert hashes[..i + 1] == hashes[..i] + [hash];
        assert hash in hashes;
        if hash in seen {
          continue;
        }
        seen := seen + {hash};
        if hash !in manifestChunks {
          return NotInManifest;
        }
        var chunk := manifestChunks[hash];
        var block := backend.GetBlock(tenant, hash);
        if block.None? || |block.value| != chunk.size || sha(block.value) != hash {
          BlockNamed(tenant, hash);
          assert !backend.reliable || !ContentNamed(sha, backend.blocks)
                 || !BlockServable(backend.blocks, tenant, manifest.chunks, hash);
          return BadBlock;
        }
        var next := SelectedChunk(hash, chunk.size, block.value);
        assert NamesOf(selected + [next]) == NamesOf(selected) + [hash];
        selected := selected + [next];
      }
      assert hashes[..|hashes|] == hashes;
      return Chunks(manifest, selected);
    }

    lemma BlockNamed(tenant: string, hash: string)
      ensures ContentNamed(sha, backend.blocks) && (tenant, hash) in backend.blocks ==>
                sha(backend.blocks[(tenant, hash)]) == hash
    {
    }

    /** A chunk handed out: the bytes of the block of that name, checked against it. */
    ghost predicate Selected(tenant: string, c: SelectedChunk)
      reads backend
    {
      && sha(c.data) == c.hash && |c.data| == c.size
      && (tenant, c.hash) in backend.blocks && backend.blocks[(tenant, c.hash)] == c.data
    }

    /** The first chunk of every name. */
    method IndexChunks(chunks: seq<ChunkRef>) returns (r: map<string, ChunkRef>)
      ensures forall h :: h in r <==> FirstWith(chunks, h).Some?
      ensures forall h :: h in r ==> FirstWith(chunks, h) == Some(r[h])
    {
      r := map[];
      for i := 0 to |chunks|
        invariant forall h :: h in r <==> FirstWith(chunks[..i], h).Some?
        invariant forall h :: h in r ==> FirstWith(chunks[..i], h) == Some(r[h])
      {
        var chunk := chunks[i];
        FirstWithSnoc(chunks[..i], chunk);
        assert chunks[..i + 1] == chunks[..i] + [chunk];
        if chunk.hash !in r {
          r := r[chunk.hash := chunk];
        }
      }
      assert chunks[..|chunks|] == chunks;
    }
  }

  lemma DedupNone()
    ensures Dedup([]) == []
  {
  }

  lemma {:induction false} FirstWithSnoc(chunks: seq<ChunkRef>, c: ChunkRef)
    ensures forall h :: FirstWith(chunks + [c], h) ==
              if FirstWith(chunks, h).Some? then FirstWith(chunks, h) else if c.hash == h then Some(c) else None
    decreases |chunks|
  {
    if |chunks| == 0 {
      assert chunks + [c] == [c];
    } else {
      FirstWithSnoc(chunks[1..], c);
      assert (chunks + [c])[1..] == chunks[1..] + [c];
    }
  }
}
