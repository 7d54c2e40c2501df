/**
 One tenant's SQLite shard: rows of objects, object_chunks and blocks, edited statement by
 statement inside transactions, and its simulation of the in-memory store.
 */
module RowStores {
  import opened Metadata
  import opened NatSets
  import opened MemoryStores

  datatype ObjectRow = ObjectRow(
    id: string, bucket: string, key: string, state: ObjectState, size: int, etag: string,
    headers: map<string, string>, createdAt: int, updatedAt: int)

  type ChunkRows = map<(string, nat), ChunkRef>

  datatype Rows = Rows(objects: map<string, ObjectRow>, chunks: ChunkRows, blocks: Blocks)

  const NO_ROWS := Rows(map[], map[], map[])

  datatype Outcome = Done | NotFound | Failed

  // ---------------------------------------------------------------- reading rows

  function Sequences(chunks: ChunkRows, id: string): set<nat> {
    set at | at in chunks && at.0 == id :: at.1
  }

  /** SELECT ... WHERE object_id = ? ORDER BY sequence_order. */
  function InOrder(chunks: ChunkRows, id: string, sequences: set<nat>): seq<ChunkRef>
    requires sequences <= Sequences(chunks, id)
    decreases |sequences|
  {
    if sequences == {} then []
    else
      var first := Smallest(sequences);
      [chunks[(id, first)]] + InOrder(chunks, id, sequences - {first})
  }

  function LoadObjectChunks(chunks: ChunkRows, id: string): seq<ChunkRef> {
    InOrder(chunks, id, Sequences(chunks, id))
  }

  function ToManifest(rows: Rows, tenant: string, row: ObjectRow): Manifest {
    Manifest(row.id, tenant, row.bucket, row.key, row.state, row.size, row.etag, row.headers,
             LoadObjectChunks(rows.chunks, row.id), row.createdAt, row.updatedAt)
  }

  predicate IsCommittedAt(rows: Rows, id: string, bucket: string, key: string) {
    && id in rows.objects && rows.objects[id].state == Committed
    && rows.objects[id].bucket == bucket && rows.objects[id].key == key
  }

  /** The primary key and the unique index on committed (bucket, key). */
  ghost predicate Sound(rows: Rows) {
    && (forall id :: id in rows.objects ==> rows.objects[id].id == id)
    && (forall i, j, bucket, key ::
          IsCommittedAt(rows, i, bucket, key) && IsCommittedAt(rows, j, bucket, key) ==> i == j)
  }

  function CommittedIds(rows: Rows, bucket: string, key: string): set<string> {
    set id | id in rows.objects && IsCommittedAt(rows, id, bucket, key)
  }

  /** The committed row of a key, when there is one. */
  ghost function CommittedAt(rows: Rows, bucket: string, key: string): (r: Option<string>)
    ensures r.Some? ==> IsCommittedAt(rows, r.value, bucket, key)
    ensures r.None? ==> forall id :: !IsCommittedAt(rows, id, bucket, key)
  {
    if exists id :: IsCommittedAt(rows, id, bucket, key)
    then var id :| IsCommittedAt(rows, id, bucket, key); Some(id)
    else None
  }

  ghost function Find(rows: Rows, tenant: string, bucket: string, key: string): Option<Manifest> {
    var id := CommittedAt(rows, bucket, key);
    if id.Some? then Some(ToManifest(rows, tenant, rows.objects[id.value])) else None
  }

  // ---------------------------------------------------------------- what transactions amount to

  function DetachedBlocks(blocks: Blocks, chunks: seq<ChunkRef>, now: int): Blocks {
    map h | h in blocks ::
      if h in HashSet(chunks)
      then blocks[h].(refCount := FloorZero(blocks[h].refCount - Count(chunks, h)), updatedAt := now)
      else blocks[h]
  }

  function FloorZero(n: int): int { if n > 0 then n else 0 }

  function WithoutObject(chunks: ChunkRows, id: string): ChunkRows {
    map at | at in chunks && at.0 != id :: chunks[at]
  }

  function WithChunks(rows: ChunkRows, id: string, chunks: seq<ChunkRef>): ChunkRows {
    map at: (string, nat) | at in rows.Keys + (set i | 0 <= i < |chunks| :: (id, i)) ::
      if at.0 == id && at.1 < |chunks| then chunks[at.1] else rows[at]
  }

  function DetachRows(rows: Rows, id: string, dec: int, update: int): Rows
    requires id in rows.objects
  {
    Rows(rows.objects[id := rows.objects[id].(state := Deleted, updatedAt := update)],
         WithoutObject(rows.chunks, id),
         DetachedBlocks(rows.blocks, LoadObjectChunks(rows.chunks, id), dec))
  }

  predicate ValidChunks(chunks: seq<ChunkRef>) {
    forall c :: c in chunks ==> c.hash != "" && c.size >= 0 && c.offset >= 0
  }

  predicate NoRowsFor(chunks: ChunkRows, id: string) { forall at :: at in chunks ==> at.0 != id }

  function CommitRow(row: ObjectRow, m: Manifest, update: int): ObjectRow {
    row.(state := Committed, size := m.size, etag := m.etag, headers := m.headers, updatedAt := update)
  }

  ghost function CommitRows(rows: Rows, pendingId: string, m: Manifest, at: Stamps): Rows
    requires pendingId in rows.objects
  {
    var previous := CommittedAt(rows, m.bucket, m.key);
    var r := if previous.Some? then DetachRows(rows, previous.value, at.dec, at.update) else rows;
    Rows(r.objects[pendingId := CommitRow(r.objects[pendingId], m, at.update)],
         WithChunks(r.chunks, pendingId, m.chunks),
         Incremented(r.blocks, m.chunks, at.inc))
  }

  ghost function DeleteRows(rows: Rows, bucket: string, key: string, at: Stamps): Rows {
    var id := CommittedAt(rows, bucket, key);
    if id.Some? then DetachRows(rows, id.value, at.dec, at.update) else rows
  }

  function ForgetRows(rows: Rows, hashes: set<string>): Rows {
    rows.(blocks := map h | h in rows.blocks && !(h in hashes && rows.blocks[h].refCount == 0) :: rows.blocks[h])
  }

  function CreateRow(rows: Rows, id: string, m: Manifest, now: int): Rows {
    rows.(objects := rows.objects[id := ObjectRow(id, m.bucket, m.key, Pending, m.size, m.etag, m.headers, now, now)])
  }

  // ---------------------------------------------------------------- the store

  lemma DetachStep(blocks: Blocks, chunks: seq<ChunkRef>, i: nat, now: int)
    requires i < |chunks|
    ensures var before := DetachedBlocks(blocks, chunks[..i], now);
            var h := chunks[i].hash;
            DetachedBlocks(blocks, chunks[..i + 1], now) ==
            if h in before
            then before[h := before[h].(refCount := FloorZero(before[h].refCount - 1), updatedAt := now)]
            else before
  {
    var h := chunks[i].hash;
    var before, after := DetachedBlocks(blocks, chunks[..i], now), DetachedBlocks(blocks, chunks[..i + 1], now);
    forall k | k in after ensures k != h ==> after[k] == before[k] {
      PrefixAt(chunks, i, k);
    }
    PrefixAt(chunks, i, h);
  }

  lemma WithNoChunks(rows: ChunkRows, id: string)
    ensures WithChunks(rows, id, []) == rows
  {
  }

  lemma WithChunksStep(rows: ChunkRows, id: string, chunks: seq<ChunkRef>, i: nat)
    requires i < |chunks|
    ensures WithChunks(rows, id, chunks[..i + 1]) == WithChunks(rows, id, chunks[..i])[(id, i) := chunks[i]]
  {
  }

  /** With the row's own key, only a negative size can fail the final update. */
  lemma CommitConflict(before: Rows, detached: Rows, bucket: string, key: string)
    requires Sound(before)
    requires forall i, b, k :: IsCommittedAt(detached, i, b, k) ==>
               IsCommittedAt(before, i, b, k) && Some(i) != CommittedAt(before, bucket, key)
    ensures CommittedIds(detached, bucket, key) == {}
  {
    assert forall id :: IsCommittedAt(detached, id, bucket, key) ==> IsCommittedAt(before, id, bucket, key);
  }

  lemma CommitSound(before: Rows, attached: Rows, after: Rows, pendingId: string)
    requires Sound(before)
    requires forall i, b, k :: IsCommittedAt(attached, i, b, k) ==> IsCommittedAt(before, i, b, k)
    requires pendingId in attached.objects
    requires after.objects.Keys == attached.objects.Keys
    requires forall id :: id in after.objects ==> after.objects[id].id == id
    requires forall id :: id in after.objects && id != pendingId ==> after.objects[id] == attached.objects[id]
    requires after.objects[pendingId].bucket == attached.objects[pendingId].bucket
    requires after.objects[pendingId].key == attached.objects[pendingId].key
    requires CommittedIds(attached, attached.objects[pendingId].bucket, attached.objects[pendingId].key) == {}
    ensures Sound(after)
  {
    forall id, b, k | IsCommittedAt(after, id, b, k) && id != pendingId ensures id in CommittedIds(attached, b, k) {
      assert IsCommittedAt(attached, id, b, k);
    }
    forall i, j, b, k | IsCommittedAt(after, i, b, k) && IsCommittedAt(after, j, b, k) ensures i == j {
      if i != pendingId && j != pendingId {
        assert i in CommittedIds(attached, b, k) && j in CommittedIds(attached, b, k);
      }
    }
  }

  predicate IsPending(rows: Rows, id: string) {
    id in rows.objects && rows.objects[id].state == Pending
  }

  class RowStore {
    const tenant: string
    /** The database reports no error of its own; otherwise any statement may fail. */
    const reliable: bool
    var objects: map<string, ObjectRow>
    var objectChunks: ChunkRows
    var blocks: Blocks

    constructor (tenant: string, reliable: bool)
      ensures this.tenant == tenant && this.reliable == reliable && State() == NO_ROWS
    {
      this.tenant, this.reliable := tenant, reliable;
      objects, objectChunks, blocks := map[], map[], map[];
    }

    function State(): (rows: Rows)
      reads this
    {
      Rows(objects, objectChunks, blocks)
    }

    method Glitch() returns (broken: bool)
      ensures reliable ==> !broken
    {
      broken := *;
      broken := broken && !reliable;
    }

    method Rollback(rows: Rows)
      modifies this
      ensures State() == rows
    {
      objects, objectChunks, blocks := rows.objects, rows.chunks, rows.blocks;
    }

    method CreatePendingObject(id: string, m: Manifest, now: int) returns (ok: bool)
      requires Sound(State())
      modifies this
      ensures ok ==> id !in old(objects) && m.size >= 0
      ensures reliable && id !in old(objects) && m.size >= 0 ==> ok
      ensures State() == if ok then CreateRow(old(State()), id, m, now) else old(State())
      ensures Sound(State())
    {
      var broken := Glitch();
      if broken || id in objects || m.size < 0 {
        return false;
      }
      objects := objects[id := ObjectRow(id, m.bucket, m.key, Pending, m.size, m.etag, m.headers, now, now)];
      assert forall i, b, k :: IsCommittedAt(State(), i, b, k) ==> IsCommittedAt(old(State()), i, b, k);
      return true;
    }

    method LoadCommitted(bucket: string, key: string) returns (id: Option<string>)
      requires Sound(State())
      ensures id == CommittedAt(State(), bucket, key)
    {
      var found := CommittedIds(State(), bucket, key);
      assert forall id :: IsCommittedAt(State(), id, bucket, key) ==> id in found;
      if found == {} {
        return None;
      }
      var i :| i in found;
      return Some(i);
    }

    /** On an error the caller rolls the transaction back, here and in the other steps of a transaction. */
    method DetachObjectChunks(id: string, chunks: seq<ChunkRef>, now: int) returns (ok: bool)
      modifies this`objectChunks, this`blocks
      ensures ok ==> blocks == DetachedBlocks(old(blocks), chunks, now)
      ensures ok ==> objectChunks == WithoutObject(old(objectChunks), id)
      ensures reliable ==> ok
    {
      assert DetachedBlocks(blocks, chunks[..0], now) == blocks;
      var broken;
      for i := 0 to |chunks|
        invariant blocks == DetachedBlocks(old(blocks), chunks[..i], now)
        invariant objectChunks == old(objectChunks)
      {
        broken := Glitch();
        if broken {
          return false;
        }
        DetachStep(old(blocks), chunks, i, now);
        var h := chunks[i].hash;
        if h in blocks {
          var row := blocks[h];
          blocks := blocks[h := row.(refCount := if row.refCount > 0 then row.refCount - 1 else 0, updatedAt := now)];
        }
      }
      assert chunks[..|chunks|] == chunks;
      broken := Glitch();
      if broken {
        return false;
      }
      objectChunks := map at | at in objectChunks && at.0 != id :: objectChunks[at];
      return true;
    }

    method AttachChunk(id: string, sequence: nat, chunk: ChunkRef, now: int) returns (ok: bool)
      modifies this`objectChunks, this`blocks
      ensures ok ==> ValidChunks([chunk]) && (id, sequence) !in old(objectChunks)
      ensures reliable && ValidChunks([chunk]) && (id, sequence) !in old(objectChunks) ==> ok
      ensures ok ==>
                var count := RefCountIn(old(blocks), chunk.hash);
                blocks == old(blocks)[chunk.hash := BlockRefCount(chunk.size, count + 1, now)]
      ensures ok ==> objectChunks == old(objectChunks)[(id, sequence) := chunk]
    {
      assert chunk in [chunk];
      var broken := Glitch();
      if broken {
        return false;
      }
      if chunk.hash == "" || chunk.size < 0 || chunk.offset < 0 {
        return false;
      }
      blocks := blocks[chunk.hash := BlockRefCount(chunk.size, RefCountIn(blocks, chunk.hash), now)];
      broken := Glitch();
      if broken || (id, sequence) in objectChunks {
        return false;
      }
      objectChunks := objectChunks[(id, sequence) := chunk];
      var row := blocks[chunk.hash];
      blocks := blocks[chunk.hash := row.(refCount := row.refCount + 1, updatedAt := now)];
      return true;
    }

    method AttachObjectChunks(id: string, chunks: seq<ChunkRef>, now: int) returns (ok: bool)
      modifies this`objectChunks, this`blocks
      ensures ok ==> ValidChunks(chunks)
      ensures reliable && NoRowsFor(old(objectChunks), id) && ValidChunks(chunks) ==> ok
      ensures ok ==> blocks == Incremented(old(blocks), chunks, now)
      ensures ok ==> objectChunks == WithChunks(old(objectChunks), id, chunks)
    {
      hide Incremented, Count, LastSize;
      ghost var rows, counts := objectChunks, blocks;
      IncrementNone(counts, now);
      WithNoChunks(rows, id);
      assert chunks[..0] == [];
      ok := true;
      for i := 0 to |chunks|
        invariant ok && ValidChunks(chunks[..i])
        invariant blocks == Incremented(counts, chunks[..i], now)
        invariant objectChunks == WithChunks(rows, id, chunks[..i])
      {
        IncrementStep(counts, chunks, i, now);
        WithChunksStep(rows, id, chunks, i);
        ok := AttachChunk(id, i, chunks[i], now);
        if !ok {
          return;
        }
        assert chunks[..i + 1] == chunks[..i] + [chunks[i]];
      }
      assert chunks[..|chunks|] == chunks;
    }

    /** Whatever fails on the way, the rows are those before or those of the whole commit. */
    method CommitObject(pendingId: string, m: Manifest, at: Stamps) returns (outcome: Outcome)
      requires Sound(State())
      modifies this
      ensures outcome == NotFound ==> !IsPending(old(State()), pendingId)
      ensures outcome == Done ==> IsPending(old(State()), pendingId) && ValidChunks(m.chunks) && m.size >= 0
      ensures outcome == Done ==> State() == CommitRows(old(State()), pendingId, m, at)
      ensures outcome != Done ==> State() == old(State())
      ensures Sound(State())
      ensures reliable && !IsPending(old(State()), pendingId) ==> outcome == NotFound
      ensures reliable && IsPending(old(State()), pendingId) && NoRowsFor(old(objectChunks), pendingId)
              && old(objects)[pendingId].bucket == m.bucket && old(objects)[pendingId].key == m.key
              && ValidChunks(m.chunks) && m.size >= 0
              ==> outcome == Done
    {
      var before := State();
      var broken := Glitch();
      if broken {
        return Failed;
      }
      if pendingId !in objects || objects[pendingId].state != Pending {
        return NotFound;
      }
      var previous := LoadCommitted(m.bucket, m.key);
      if previous.Some? {
        var id := previous.value;
        var detached := DetachObjectChunks(id, LoadObjectChunks(objectChunks, id), at.dec);
        broken := Glitch();
        if !detached || broken {
          Rollback(before);
          return Failed;
        }
        objects := objects[id := objects[id].(state := Deleted, updatedAt := at.update)];
      }
      assert State() == if previous.Some? then DetachRows(before, previous.value, at.dec, at.update) else before;
      var attached := AttachObjectChunks(pendingId, m.chunks, at.inc);
      if !attached {
        Rollback(before);
        return Failed;
      }
      var row := objects[pendingId];
      CommitConflict(before, State(), m.bucket, m.key);
      broken := Glitch();
      if broken || m.size < 0 || CommittedIds(State(), row.bucket, row.key) != {} {
        Rollback(before);
        return Failed;
      }
      ghost var attachedRows := State();
      row := row.(state := Committed, size := m.size, etag := m.etag, headers := m.headers, updatedAt := at.update);
      objects := objects[pendingId := row];
      CommitSound(before, attachedRows, State(), pendingId);
      return Done;
    }

    method GetObject(bucket: string, key: string) returns (r: Option<Manifest>)
      requires Sound(State())
      ensures r == Find(State(), tenant, bucket, key)
    {
      var found := LoadCommitted(bucket, key);
      if found.None? {
        return None;
      }
      return Some(ToManifest(State(), tenant, objects[found.value]));
    }

    method DeleteObject(bucket: string, key: string, at: Stamps) returns (outcome: Outcome, r: Option<Manifest>)
      requires Sound(State())
      modifies this
      ensures outcome == Done ==>
                var found := Find(old(State()), tenant, bucket, key);
                && found.Some? && r == Some(found.value.(state := Deleted, updatedAt := at.update))
                && State() == DeleteRows(old(State()), bucket, key, at)
      ensures outcome != Done ==> r == None && State() == old(State())
      ensures outcome == NotFound ==> Find(State(), tenant, bucket, key).None?
      ensures reliable ==> outcome == if Find(old(State()), tenant, bucket, key).None? then NotFound else Done
      ensures Sound(State())
    {
      var before := State();
      var broken := Glitch();
      if broken {
        return Failed, None;
      }
      var found := LoadCommitted(bucket, key);
      if found.None? {
        return NotFound, None;
      }
      var id := found.value;
      var manifest := ToManifest(State(), tenant, objects[id]);
      var detached := DetachObjectChunks(id, manifest.chunks, at.dec);
      broken := Glitch();
      if !detached || broken {
        Rollback(before);
        return Failed, None;
      }
      objects := objects[id := objects[id].(state := Deleted, updatedAt := at.update)];
      assert forall i, b, k :: IsCommittedAt(State(), i, b, k) ==> IsCommittedAt(before, i, b, k);
      return Done, Some(manifest.(state := Deleted, updatedAt := at.update));
    }

    method ForgetBlocks(hashes: seq<string>) returns (ok: bool)
      requires Sound(State())
      modifies this
      ensures State() == if ok then ForgetRows(old(State()), ToSet(hashes)) else old(State())
      ensures Sound(State())
      ensures reliable ==> ok
    {
      var rows := State();
      assert ForgetRows(rows, ToSet(hashes[..0])).blocks == blocks;
      for i := 0 to |hashes|
        invariant State() == ForgetRows(rows, ToSet(hashes[..i]))
      {
        var broken := Glitch();
        if broken {
          Rollback(rows);
          return false;
        }
        var hash := hashes[i];
        assert hashes[..i + 1] == hashes[..i] + [hash];
        if hash in blocks && blocks[hash].refCount == 0 {
          blocks := blocks - {hash};
        }
        assert blocks == ForgetRows(rows, ToSet(hashes[..i + 1])).blocks;
      }
      assert hashes[..|hashes|] == hashes;
      assert forall i, b, k :: IsCommittedAt(State(), i, b, k) ==> IsCommittedAt(rows, i, b, k);
      return true;
    }
  }
}
