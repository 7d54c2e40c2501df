/**
 After any sequence of operations of any tenants, every tenant's database rows agree with what the
 in-memory store holds for that tenant.  The lemmas up to ShardOpSimulates compare one database with
 one tenant's shard; the rest puts all tenants together.
 */
module RowSimulation {
  import opened Metadata
  import opened NatSets
  import opened MemoryStores
  import opened RowStores
  import opened Shards

  predicate RowAgrees(row: ObjectRow, m: Manifest) {
    && row.id == m.id && row.bucket == m.bucket && row.key == m.key
    && row.state == m.state && row.createdAt == m.createdAt
    && (m.state == Committed ==>
          row.size == m.size && row.etag == m.etag && row.headers == m.headers && row.updatedAt == m.updatedAt)
  }

  ghost predicate ObjectsAgree(rows: Rows, s: StoreState, tenant: string) {
    && rows.objects.Keys == s.objects.Keys
    && forall id :: id in s.objects ==> s.objects[id].tenant == tenant && RowAgrees(rows.objects[id], s.objects[id])
  }

  /** Chunk rows exist for committed objects only, numbered from 0 without gaps. */
  ghost predicate ChunksAgree(chunks: ChunkRows, objects: map<string, Manifest>) {
    && (forall at :: at in chunks <==>
          at.0 in objects && objects[at.0].state == Committed && at.1 < |objects[at.0].chunks|)
    && (forall at :: at in chunks ==> chunks[at] == objects[at.0].chunks[at.1])
  }

  /** Sizes are left out: only the in-memory store rewrites them on release. */
  predicate BlocksAgree(rows: Blocks, blocks: Blocks) {
    && rows.Keys == blocks.Keys
    && forall h :: h in rows ==> rows[h].refCount == blocks[h].refCount && rows[h].updatedAt == blocks[h].updatedAt
  }

  ghost predicate Agree(rows: Rows, s: StoreState, tenant: string) {
    && ObjectsAgree(rows, s, tenant) && ChunksAgree(rows.chunks, s.objects)
    && BlocksAgree(rows.blocks, TenantBlocks(s, tenant))
  }

  // ---------------------------------------------------------------- ref_count is a row count

  function RowsWith(chunks: ChunkRows, hash: string): set<(string, nat)> {
    set at | at in chunks && chunks[at].hash == hash
  }

  /** Every ref_count equals the number of object_chunks rows with that hash. */
  ghost predicate RowCounts(rows: Rows) {
    forall h :: |RowsWith(rows.chunks, h)| == RefCountIn(rows.blocks, h)
  }

  lemma AddedRow(chunks: ChunkRows, at: (string, nat), chunk: ChunkRef, hash: string)
    requires at !in chunks
    ensures |RowsWith(chunks[at := chunk], hash)| == |RowsWith(chunks, hash)| + if chunk.hash == hash then 1 else 0
  {
    var after := RowsWith(chunks[at := chunk], hash);
    if chunk.hash == hash {
      assert after == RowsWith(chunks, hash) + {at};
    } else {
      assert after == RowsWith(chunks, hash);
    }
  }

  lemma {:induction false} AttachedRowCount(base: ChunkRows, id: string, chunks: seq<ChunkRef>, hash: string)
    requires NoRowsFor(base, id)
    ensures |RowsWith(WithChunks(base, id, chunks), hash)| == |RowsWith(base, hash)| + Count(chunks, hash)
    decreases |chunks|
  {
    if |chunks| == 0 {
      assert WithChunks(base, id, chunks) == base;
    } else {
      var i := |chunks| - 1;
      AttachedRowCount(base, id, chunks[..i], hash);
      WithChunksStep(base, id, chunks, i);
      assert chunks[..i + 1] == chunks;
      AddedRow(WithChunks(base, id, chunks[..i]), (id, i), chunks[i], hash);
    }
  }

  lemma {:induction false} InOrderAll(chunks: ChunkRows, id: string, refs: seq<ChunkRef>, from: nat,
                                      sequences: set<nat>)
    requires from <= |refs|
    requires sequences <= Sequences(chunks, id) && forall i :: i in sequences <==> from <= i < |refs|
    requires forall i :: i in sequences ==> chunks[(id, i)] == refs[i]
    ensures InOrder(chunks, id, sequences) == refs[from..]
    decreases |refs| - from
  {
    if from < |refs| {
      assert from in sequences;
      assert Smallest(sequences) == from;
      InOrderAll(chunks, id, refs, from + 1, sequences - {from});
      assert refs[from..] == [refs[from]] + refs[from + 1..];
    } else {
      assert sequences == {} by { assert forall i :: i !in sequences; }
    }
  }

  lemma LoadAgrees(rows: Rows, s: StoreState, tenant: string, id: string)
    requires Agree(rows, s, tenant) && id in s.objects && s.objects[id].state == Committed
    ensures LoadObjectChunks(rows.chunks, id) == s.objects[id].chunks
  {
    var refs := s.objects[id].chunks;
    forall i: nat ensures i in Sequences(rows.chunks, id) <==> i < |refs| {
      assert i < |refs| ==> (id, i) in rows.chunks;
    }
    InOrderAll(rows.chunks, id, refs, 0, Sequences(rows.chunks, id));
  }

  /** The rows of a loaded object are the ones it was attached with. */
  lemma ReattachedRows(rows: Rows, s: StoreState, tenant: string, id: string)
    requires Agree(rows, s, tenant) && id in s.objects && s.objects[id].state == Committed
    ensures WithChunks(WithoutObject(rows.chunks, id), id, s.objects[id].chunks) == rows.chunks
  {
    var refs := s.objects[id].chunks;
    var left, right := WithChunks(WithoutObject(rows.chunks, id), id, refs), rows.chunks;
    forall at ensures at in left <==> at in right {
      assert (at.0, at.1) == at;
    }
    assert left.Keys == right.Keys;
  }

  // ---------------------------------------------------------------- release and attach

  lemma HeldHashes(s: StoreState, id: string, hash: string)
    requires CountsExact(s) && id in s.objects && s.objects[id].state == Committed
    ensures RefOf(s, s.objects[id].tenant, hash) >= Count(s.objects[id].chunks, hash)
    ensures hash in HashSet(s.objects[id].chunks) ==> hash in TenantBlocks(s, s.objects[id].tenant)
  {
    ReferencesAtLeast(s, id, s.objects[id].tenant, hash);
    assert RefOf(s, s.objects[id].tenant, hash) == References(s.objects, s.objects[id].tenant, hash);
    CountPositive(s.objects[id].chunks, hash);
  }

  lemma ReleasedBlocksAgree(rows: Blocks, blocks: Blocks, refs: seq<ChunkRef>, dec: int)
    requires BlocksAgree(rows, blocks) && HashSet(refs) <= blocks.Keys
    requires forall h :: h in rows ==> rows[h].refCount >= Count(refs, h)
    ensures BlocksAgree(DetachedBlocks(rows, refs, dec), Decremented(blocks, refs, dec))
  {
    var a, b := DetachedBlocks(rows, refs, dec), Decremented(blocks, refs, dec);
    assert a.Keys == b.Keys;
    forall h | h in a ensures a[h].refCount == b[h].refCount && a[h].updatedAt == b[h].updatedAt {
    }
  }

  lemma DetachBlocksAgree(rows: Rows, s: StoreState, tenant: string, id: string, dec: int)
    requires Agree(rows, s, tenant) && CountsExact(s) && id in s.objects && s.objects[id].state == Committed
    ensures BlocksAgree(DetachedBlocks(rows.blocks, s.objects[id].chunks, dec),
                        Decremented(TenantBlocks(s, tenant), s.objects[id].chunks, dec))
  {
    var refs := s.objects[id].chunks;
    forall h | h in rows.blocks ensures rows.blocks[h].refCount >= Count(refs, h) {
      HeldHashes(s, id, h);
    }
    forall h | h in HashSet(refs) ensures h in TenantBlocks(s, tenant) {
      HeldHashes(s, id, h);
    }
    ReleasedBlocksAgree(rows.blocks, TenantBlocks(s, tenant), refs, dec);
  }

  lemma DetachChunksAgree(chunks: ChunkRows, objects: map<string, Manifest>, id: string, gone: Manifest)
    requires ChunksAgree(chunks, objects) && id in objects && gone.state != Committed
    ensures ChunksAgree(WithoutObject(chunks, id), objects[id := gone])
  {
  }

  lemma DetachAgrees(rows: Rows, s: StoreState, tenant: string, id: string, dec: int, update: int)
    requires Agree(rows, s, tenant) && CountsExact(s) && id in s.objects && s.objects[id].state == Committed
    ensures Agree(DetachRows(rows, id, dec, update), DetachObject(s, tenant, id, dec, update), tenant)
  {
    LoadAgrees(rows, s, tenant, id);
    DetachBlocksAgree(rows, s, tenant, id, dec);
    var gone := s.objects[id].(state := Deleted, updatedAt := update);
    DetachChunksAgree(rows.chunks, s.objects, id, gone);
    var r, s1 := DetachRows(rows, id, dec, update), DetachObject(s, tenant, id, dec, update);
    assert s1.objects == s.objects[id := gone];
    assert ObjectsAgree(r, s1, tenant);
  }

  lemma ReleasedRowCount(before: ChunkRows, after: ChunkRows, id: string, refs: seq<ChunkRef>, blocks: Blocks, dec: int,
                         h: string)
    requires NoRowsFor(after, id) && before == WithChunks(after, id, refs)
    requires |RowsWith(before, h)| == RefCountIn(blocks, h)
    ensures |RowsWith(after, h)| == RefCountIn(DetachedBlocks(blocks, refs, dec), h)
  {
    AttachedRowCount(after, id, refs, h);
    CountPositive(refs, h);
  }

  lemma DetachRowCounts(rows: Rows, s: StoreState, tenant: string, id: string, dec: int, update: int)
    requires Agree(rows, s, tenant) && RowCounts(rows) && id in s.objects && s.objects[id].state == Committed
    ensures RowCounts(DetachRows(rows, id, dec, update))
  {
    LoadAgrees(rows, s, tenant, id);
    ReattachedRows(rows, s, tenant, id);
    var refs := s.objects[id].chunks;
    forall h
      ensures |RowsWith(WithoutObject(rows.chunks, id), h)| == RefCountIn(DetachedBlocks(rows.blocks, refs, dec), h)
    {
      assert |RowsWith(rows.chunks, h)| == RefCountIn(rows.blocks, h);
      ReleasedRowCount(rows.chunks, WithoutObject(rows.chunks, id), id, refs, rows.blocks, dec, h);
    }
  }

  /** Attaching the manifest's chunks and marking the row committed. */
  function AttachRows(rows: Rows, id: string, m: Manifest, at: Stamps): Rows
    requires id in rows.objects
  {
    Rows(rows.objects[id := CommitRow(rows.objects[id], m, at.update)], WithChunks(rows.chunks, id, m.chunks),
         Incremented(rows.blocks, m.chunks, at.inc))
  }

  lemma AttachAgrees(rows: Rows, s: StoreState, tenant: string, id: string, m: Manifest, at: Stamps)
    requires Agree(rows, s, tenant) && id in s.objects && s.objects[id].state == Pending
    requires m.tenant == tenant && m.bucket == s.objects[id].bucket && m.key == s.objects[id].key
    requires m.state == Committed && m.createdAt == s.objects[id].createdAt && m.updatedAt == at.update
    requires m.id == s.objects[id].id
    ensures NoRowsFor(rows.chunks, id)
    ensures Agree(AttachRows(rows, id, m, at),
                  s.(objects := s.objects[id := m],
                     blocks := s.blocks[tenant := Incremented(TenantBlocks(s, tenant), m.chunks, at.inc)]),
                  tenant)
  {
    hide BlocksAgree, Incremented, ChunksAgree, WithChunks;
    AttachBlocksAgree(rows.blocks, TenantBlocks(s, tenant), m.chunks, at.inc);
    AttachChunksAgree(rows.chunks, s.objects, id, m);
  }

  lemma AttachBlocksAgree(rows: Blocks, blocks: Blocks, chunks: seq<ChunkRef>, now: int)
    requires BlocksAgree(rows, blocks)
    ensures BlocksAgree(Incremented(rows, chunks, now), Incremented(blocks, chunks, now))
  {
    assert Incremented(rows, chunks, now).Keys == Incremented(blocks, chunks, now).Keys;
  }

  lemma AttachChunksAgree(rows: ChunkRows, objects: map<string, Manifest>, id: string, m: Manifest)
    requires ChunksAgree(rows, objects) && id in objects && objects[id].state == Pending && m.state == Committed
    ensures NoRowsFor(rows, id) && ChunksAgree(WithChunks(rows, id, m.chunks), objects[id := m])
  {
    var r := WithChunks(rows, id, m.chunks);
    forall at: (string, nat) | at in r
      ensures at.0 in objects[id := m] && objects[id := m][at.0].state == Committed
      ensures at.1 < |objects[id := m][at.0].chunks|
    {
      assert at in rows || (at.0 == id && at.1 < |m.chunks|);
    }
    forall at: (string, nat) | at.0 == id && at.1 < |m.chunks| ensures at in r {
      assert (at.0, at.1) == at;
    }
  }

  lemma AttachRowCounts(rows: Rows, id: string, m: Manifest, at: Stamps)
    requires RowCounts(rows) && NoRowsFor(rows.chunks, id) && id in rows.objects
    ensures RowCounts(AttachRows(rows, id, m, at))
  {
    var r := AttachRows(rows, id, m, at);
    forall h ensures |RowsWith(r.chunks, h)| == RefCountIn(r.blocks, h) {
      AttachedRowCount(rows.chunks, id, m.chunks, h);
      RefCountIncremented(rows.blocks, m.chunks, at.inc, h);
      assert |RowsWith(rows.chunks, h)| == RefCountIn(rows.blocks, h);
    }
  }

  // ---------------------------------------------------------------- operations

  /** What the service passes: tenant, bucket and key as given at create, well-formed chunks, no creation time. */
  predicate Served(s: StoreState, op: Op) {
    match op
    case OpCreate(_, m, _) => m.size >= 0
    case OpCommit(id, m, _) =>
      && m.createdAt == ZERO_TIME && m.size >= 0 && ValidChunks(m.chunks)
      && (CanCommit(s, id) ==>
            m.tenant == s.objects[id].tenant && m.bucket == s.objects[id].bucket && m.key == s.objects[id].key)
    case OpDelete(_, _, _, _) => true
    case OpForget(_, _) => true
  }

  ghost function ApplyRows(rows: Rows, op: Op): Rows {
    match op
    case OpCreate(id, m, now) => CreateRow(rows, id, m, now)
    case OpCommit(id, m, at) =>
      if id in rows.objects && rows.objects[id].state == Pending then CommitRows(rows, id, m, at) else rows
    case OpDelete(_, bucket, key, at) => DeleteRows(rows, bucket, key, at)
    case OpForget(_, hashes) => ForgetRows(rows, hashes)
  }

  ghost predicate ShardSimulates(rows: Rows, s: StoreState, tenant: string) {
    Agree(rows, s, tenant) && Inv(s) && RowCounts(rows) && NulFree(tenant)
  }

  lemma IndexAgrees(rows: Rows, s: StoreState, tenant: string, bucket: string, key: string)
    requires Agree(rows, s, tenant) && IndexExact(s) && ObjectsNamed(s) && NulFree(tenant) && NulFree(bucket)
    ensures var k := ObjectKey(tenant, bucket, key);
            CommittedAt(rows, bucket, key) == if k in s.index then Some(s.index[k]) else None
  {
    var k := ObjectKey(tenant, bucket, key);
    forall id | IsCommittedAt(rows, id, bucket, key) ensures k in s.index && s.index[k] == id {
      assert s.objects[id].state == Committed && s.objects[id].bucket == bucket && s.objects[id].key == key;
    }
    if k in s.index {
      var id := s.index[k];
      ObjectKeyInjective(tenant, bucket, key, s.objects[id].tenant, s.objects[id].bucket, s.objects[id].key);
      assert IsCommittedAt(rows, id, bucket, key);
    }
  }

  /** Both stores answer every lookup alike. */
  lemma LookupsAgree(rows: Rows, s: StoreState, tenant: string, bucket: string, key: string)
    requires ShardSimulates(rows, s, tenant) && NulFree(bucket)
    ensures Find(rows, tenant, bucket, key) == GetObject(s, tenant, bucket, key)
  {
    IndexAgrees(rows, s, tenant, bucket, key);
    var k := ObjectKey(tenant, bucket, key);
    if k in s.index {
      LoadAgrees(rows, s, tenant, s.index[k]);
    }
  }

  lemma CreateAgrees(rows: Rows, s: StoreState, tenant: string, id: string, m: Manifest, now: int)
    requires Agree(rows, s, tenant) && id !in s.objects && m.tenant == tenant
    ensures Agree(CreateRow(rows, id, m, now), CreatePending(s, id, m, now), tenant)
  {
    hide BlocksAgree, ChunksAgree, ObjectsAgree;
    var s1 := CreatePending(s, id, m, now);
    CreateObjectsAgree(rows, s, tenant, id, m, now);
    CreateChunksAgree(rows.chunks, s.objects, id, s1.objects[id]);
    assert TenantBlocks(s1, tenant) == TenantBlocks(s, tenant);
  }

  lemma CreateObjectsAgree(rows: Rows, s: StoreState, tenant: string, id: string, m: Manifest, now: int)
    requires ObjectsAgree(rows, s, tenant) && m.tenant == tenant
    ensures ObjectsAgree(CreateRow(rows, id, m, now), CreatePending(s, id, m, now), tenant)
  {
    hide TenantBlocks;
  }

  lemma CreateChunksAgree(rows: ChunkRows, objects: map<string, Manifest>, id: string, m: Manifest)
    requires ChunksAgree(rows, objects) && id !in objects && m.state != Committed
    ensures ChunksAgree(rows, objects[id := m])
  {
  }

  lemma CreateSimulates(rows: Rows, s: StoreState, tenant: string, op: Op)
    requires op.OpCreate? && ShardSimulates(rows, s, tenant)
    requires Allowed(s, op) && Served(s, op) && TenantOf(op) == tenant
    ensures ShardSimulates(ApplyRows(rows, op), Apply(s, op), tenant)
  {
    ApplyKeepsInv(s, op);
    CreateAgrees(rows, s, tenant, op.id, op.manifest, op.now);
    SameRowCounts(rows, ApplyRows(rows, op));
  }

  lemma SameRowCounts(rows: Rows, r: Rows)
    requires RowCounts(rows) && r.chunks == rows.chunks
    requires forall h :: RefCountIn(r.blocks, h) == RefCountIn(rows.blocks, h)
    ensures RowCounts(r)
  {
    forall h ensures |RowsWith(r.chunks, h)| == RefCountIn(r.blocks, h) {
      assert |RowsWith(rows.chunks, h)| == RefCountIn(rows.blocks, h);
    }
  }

  lemma ForgetSimulates(rows: Rows, s: StoreState, tenant: string, op: Op)
    requires op.OpForget? && ShardSimulates(rows, s, tenant)
    requires Allowed(s, op) && Served(s, op) && TenantOf(op) == tenant
    ensures ShardSimulates(ApplyRows(rows, op), Apply(s, op), tenant)
  {
    ApplyKeepsInv(s, op);
    var r := ApplyRows(rows, op);
    SameRowCounts(rows, r);
    assert r.blocks.Keys == TenantBlocks(Apply(s, op), tenant).Keys;
  }

  lemma DeleteSimulates(rows: Rows, s: StoreState, tenant: string, op: Op)
    requires op.OpDelete? && ShardSimulates(rows, s, tenant)
    requires Allowed(s, op) && Served(s, op) && TenantOf(op) == tenant
    ensures ShardSimulates(ApplyRows(rows, op), Apply(s, op), tenant)
  {
    ApplyKeepsInv(s, op);
    IndexAgrees(rows, s, tenant, op.bucket, op.key);
    var k := ObjectKey(tenant, op.bucket, op.key);
    if k in s.index {
      DetachAgrees(rows, s, tenant, s.index[k], op.at.dec, op.at.update);
      DetachRowCounts(rows, s, tenant, s.index[k], op.at.dec, op.at.update);
    }
  }

  lemma CommitSimulates(rows: Rows, s: StoreState, tenant: string, op: Op)
    requires op.OpCommit? && ShardSimulates(rows, s, tenant)
    requires Allowed(s, op) && Served(s, op) && TenantOf(op) == tenant
    ensures ShardSimulates(ApplyRows(rows, op), Apply(s, op), tenant)
  {
    ApplyKeepsInv(s, op);
    if CanCommit(s, op.pendingId) {
      CommitAgrees(rows, s, tenant, op.pendingId, op.manifest, op.at);
    }
  }

  /** The commit transaction row by row against the in-memory commit. */
  lemma CommitAgrees(rows: Rows, s: StoreState, tenant: string, id: string, manifest: Manifest, at: Stamps)
    requires ShardSimulates(rows, s, tenant) && CanCommit(s, id) && NulFree(manifest.bucket)
    requires manifest.tenant == tenant && manifest.createdAt == ZERO_TIME
    requires manifest.bucket == s.objects[id].bucket && manifest.key == s.objects[id].key
    ensures Agree(CommitRows(rows, id, manifest, at), Commit(s, id, manifest, at), tenant)
    ensures RowCounts(CommitRows(rows, id, manifest, at))
  {
    hide Agree, RowCounts, CountsExact, Incremented, DetachRows, WithChunks;
    var m := CommittedManifest(s, id, manifest, at.update);
    var k := ObjectKey(tenant, m.bucket, m.key);
    IndexAgrees(rows, s, tenant, m.bucket, m.key);
    SameIds(rows, s, tenant);
    var r, s1 := rows, s;
    if k in s.index {
      var previous := s.index[k];
      DetachAgrees(rows, s, tenant, previous, at.dec, at.update);
      DetachRowCounts(rows, s, tenant, previous, at.dec, at.update);
      r, s1 := DetachRows(rows, previous, at.dec, at.update), DetachObject(s, tenant, previous, at.dec, at.update);
      SameIds(r, s1, tenant);
    }
    AttachAgrees(r, s1, tenant, id, m, at);
    AttachRowCounts(r, id, m, at);
    CommitRowSame(r.objects[id], manifest, m, at.update);
    assert CommitRows(rows, id, manifest, at) == AttachRows(r, id, m, at);
    AgreesByParts(AttachRows(r, id, m, at),
                  s1.(objects := s1.objects[id := m],
                      blocks := s1.blocks[tenant := Incremented(TenantBlocks(s1, tenant), m.chunks, at.inc)]),
                  Commit(s, id, manifest, at), tenant);
  }

  lemma SameIds(rows: Rows, s: StoreState, tenant: string)
    requires Agree(rows, s, tenant)
    ensures rows.objects.Keys == s.objects.Keys
    ensures forall id :: id in s.objects ==> s.objects[id].tenant == tenant
  {
  }

  /** A commit copies from the manifest only what the committed manifest shares with it. */
  lemma CommitRowSame(row: ObjectRow, manifest: Manifest, m: Manifest, now: int)
    requires m.size == manifest.size && m.etag == manifest.etag && m.headers == manifest.headers
    requires m.bucket == manifest.bucket && m.key == manifest.key
    ensures CommitRow(row, manifest, now) == CommitRow(row, m, now)
  {
  }

  /** Agreement looks at objects and blocks only. */
  lemma AgreesByParts(rows: Rows, s: StoreState, t: StoreState, tenant: string)
    requires Agree(rows, s, tenant) && s.objects == t.objects && s.blocks == t.blocks
    ensures Agree(rows, t, tenant)
  {
    hide ChunksAgree, BlocksAgree;
  }

  lemma ShardOpSimulates(rows: Rows, s: StoreState, tenant: string, op: Op)
    requires ShardSimulates(rows, s, tenant) && Allowed(s, op) && Served(s, op) && TenantOf(op) == tenant
    ensures ShardSimulates(ApplyRows(rows, op), Apply(s, op), tenant)
  {
    match op
    case OpCreate(_, _, _) => CreateSimulates(rows, s, tenant, op);
    case OpCommit(_, _, _) => CommitSimulates(rows, s, tenant, op);
    case OpDelete(_, _, _, _) => DeleteSimulates(rows, s, tenant, op);
    case OpForget(_, _) => ForgetSimulates(rows, s, tenant, op);
  }

  // ---------------------------------------------------------------- all tenants

  /** One database per sanitized tenant name, empty when first opened. */
  type Databases = map<string, Rows>

  function RowsOf(databases: Databases, name: string): Rows {
    if name in databases then databases[name] else NO_ROWS
  }

  /** Every operation goes to the database of its tenant. */
  ghost function ApplyDatabases(digest: string -> string, databases: Databases, op: Op): Databases {
    var name := SafeTenant(digest, TenantOf(op));
    databases[name := ApplyRows(RowsOf(databases, name), op)]
  }

  /** Each of these tenants' databases holds what the one in-memory store holds for the tenant. */
  ghost predicate Simulates(digest: string -> string, tenants: set<string>, databases: Databases, s: StoreState) {
    && Inv(s)
    && forall tenant :: tenant in tenants && NulFree(tenant) ==>
         ShardSimulates(RowsOf(databases, SafeTenant(digest, tenant)), Shard(s, tenant), tenant)
  }

  /** An allowed operation is allowed on its tenant's shard taken alone. */
  lemma ShardAllows(s: StoreState, op: Op)
    requires Allowed(s, op) && Served(s, op)
    ensures StaysHome(s, op)
    ensures Allowed(Shard(s, TenantOf(op)), op) && Served(Shard(s, TenantOf(op)), op)
  {
  }

  /** Every operation of every tenant keeps all databases in agreement with the one in-memory store. */
  lemma OpSimulates(digest: string -> string, tenants: set<string>, databases: Databases, s: StoreState, op: Op)
    requires Simulates(digest, tenants, databases, s) && Separate(digest, tenants)
    requires Allowed(s, op) && Served(s, op) && TenantOf(op) in tenants
    ensures Simulates(digest, tenants, ApplyDatabases(digest, databases, op), Apply(s, op))
  {
    hide CountsExact, ShardSimulates, Shard, ApplyRows, Apply, Served, StaysHome, SafeTenant;
    ApplyKeepsInv(s, op);
    ShardAllows(s, op);
    OwnOperation(s, op);
    forall tenant | tenant in tenants && NulFree(tenant)
      ensures ShardSimulates(RowsOf(ApplyDatabases(digest, databases, op), SafeTenant(digest, tenant)),
                             Shard(Apply(s, op), tenant), tenant)
    {
      if tenant == TenantOf(op) {
        ShardOpSimulates(RowsOf(databases, SafeTenant(digest, tenant)), Shard(s, tenant), tenant, op);
      } else {
        OtherOperation(s, op, tenant);
      }
    }
  }

  /** What the service commits never fails halfway: the transaction's checks all pass. */
  lemma ServedCommitSucceeds(digest: string -> string, tenants: set<string>, databases: Databases, s: StoreState,
                             id: string, manifest: Manifest, at: Stamps)
    requires Simulates(digest, tenants, databases, s) && manifest.tenant in tenants
    requires CanCommit(s, id) && SafeNames(manifest) && Served(s, OpCommit(id, manifest, at))
    ensures var rows := RowsOf(databases, SafeTenant(digest, manifest.tenant));
            && id in rows.objects && rows.objects[id].state == Pending && NoRowsFor(rows.chunks, id)
            && rows.objects[id].bucket == manifest.bucket && rows.objects[id].key == manifest.key
    ensures ValidChunks(manifest.chunks) && manifest.size >= 0
  {
    hide RowCounts, Inv, ValidChunks, Shard, Agree, SafeTenant;
    var rows, mine := RowsOf(databases, SafeTenant(digest, manifest.tenant)), Shard(s, manifest.tenant);
    assert ShardSimulates(rows, mine, manifest.tenant);
    assert Agree(rows, mine, manifest.tenant);
    hide ShardSimulates, Simulates;
    OwnObject(s, manifest.tenant, id);
    PendingRow(rows, mine, manifest.tenant, id);
  }

  lemma OwnObject(s: StoreState, tenant: string, id: string)
    requires id in s.objects && s.objects[id].tenant == tenant
    ensures id in Shard(s, tenant).objects && Shard(s, tenant).objects[id] == s.objects[id]
  {
  }

  lemma PendingRow(rows: Rows, s: StoreState, tenant: string, id: string)
    requires Agree(rows, s, tenant) && CanCommit(s, id)
    ensures id in rows.objects && rows.objects[id].state == Pending && NoRowsFor(rows.chunks, id)
    ensures rows.objects[id].bucket == s.objects[id].bucket && rows.objects[id].key == s.objects[id].key
  {
    hide BlocksAgree;
  }

  ghost function RunDatabases(digest: string -> string, databases: Databases, ops: seq<Op>): Databases
    decreases |ops|
  {
    if |ops| == 0 then databases else RunDatabases(digest, ApplyDatabases(digest, databases, ops[0]), ops[1..])
  }

  predicate AllServed(s: StoreState, ops: seq<Op>)
    decreases |ops|
  {
    |ops| == 0 || (Served(s, ops[0]) && AllServed(Apply(s, ops[0]), ops[1..]))
  }

  predicate AllOf(tenants: set<string>, ops: seq<Op>) {
    forall op :: op in ops ==> TenantOf(op) in tenants
  }

  lemma {:induction false} RunSimulates(digest: string -> string, tenants: set<string>, databases: Databases,
                                        s: StoreState, ops: seq<Op>)
    requires Simulates(digest, tenants, databases, s) && Separate(digest, tenants)
    requires AllAllowed(s, ops) && AllServed(s, ops) && AllOf(tenants, ops)
    ensures Simulates(digest, tenants, RunDatabases(digest, databases, ops), RunOps(s, ops))
    decreases |ops|
  {
    hide Simulates, ApplyDatabases, Apply, Served, Separate;
    if |ops| != 0 {
      OpSimulates(digest, tenants, databases, s, ops[0]);
      RunSimulates(digest, tenants, ApplyDatabases(digest, databases, ops[0]), Apply(s, ops[0]), ops[1..]);
    }
  }

  lemma EmptySimulates(digest: string -> string, tenants: set<string>)
    ensures Simulates(digest, tenants, map[], EMPTY_STORE)
  {
    EmptyStoreInv();
    forall tenant ensures Shard(EMPTY_STORE, tenant) == EMPTY_STORE {
    }
    forall hash ensures |RowsWith(NO_ROWS.chunks, hash)| == RefCountIn(NO_ROWS.blocks, hash) {
      assert RowsWith(NO_ROWS.chunks, hash) == {};
    }
  }

  /** The database of a tenant after a run, and what a lookup in it gives. */
  ghost predicate AnswersAlike(digest: string -> string, ops: seq<Op>, tenant: string, bucket: string, key: string) {
    Find(RowsOf(RunDatabases(digest, map[], ops), SafeTenant(digest, tenant)), tenant, bucket, key) ==
    GetObject(RunOps(EMPTY_STORE, ops), tenant, bucket, key)
  }

  /**
   After any operation sequence of tenants that share no database, for every one of them: every ref_count
   is the number of chunk rows with that hash, and every lookup answers as the in-memory store does.
   */
  lemma RowStoreSimulatesMemoryStore(digest: string -> string, tenants: set<string>, ops: seq<Op>, tenant: string,
                                     bucket: string, key: string)
    requires Separate(digest, tenants) && tenant in tenants && NulFree(tenant) && NulFree(bucket)
    requires AllAllowed(EMPTY_STORE, ops) && AllServed(EMPTY_STORE, ops) && AllOf(tenants, ops)
    ensures var rows := RowsOf(RunDatabases(digest, map[], ops), SafeTenant(digest, tenant));
            && RowCounts(rows)
            && BlocksAgree(rows.blocks, TenantBlocks(RunOps(EMPTY_STORE, ops), tenant))
    ensures AnswersAlike(digest, ops, tenant, bucket, key)
  {
    hide CountsExact, RowCounts, BlocksAgree, ObjectsAgree, ChunksAgree, GetObject, Find, AllAllowed, AllServed, AllOf;
    hide Separate, SafeTenant, RunDatabases, RunOps;
    EmptySimulates(digest, tenants);
    RunSimulates(digest, tenants, map[], EMPTY_STORE, ops);
    var rows := RowsOf(RunDatabases(digest, map[], ops), SafeTenant(digest, tenant));
    var s := RunOps(EMPTY_STORE, ops);
    assert ShardSimulates(rows, Shard(s, tenant), tenant);
    LookupsAgree(rows, Shard(s, tenant), tenant, bucket, key);
    ShardLookup(s, tenant, bucket, key);
  }

  // ---------------------------------------------------------------- tenants that share a database

  /** All runs of these tenants, and all their lookups afterwards. */
  ghost predicate AlwaysAlike(digest: string -> string, tenants: set<string>) {
    forall ops, tenant, bucket, key ::
      && AllAllowed(EMPTY_STORE, ops) && AllServed(EMPTY_STORE, ops) && AllOf(tenants, ops)
      && tenant in tenants && NulFree(bucket) ==>
        AnswersAlike(digest, ops, tenant, bucket, key)
  }

  /** One tenant stores an empty object. */
  function StoreOne(tenant: string): seq<Op> {
    var template := NO_MANIFEST.(tenant := tenant, bucket := "b", key := "k");
    [OpCreate("a", template, 0), OpCommit("a", template, Stamps(0, 0, 0))]
  }

  lemma StoredOne(tenant: string)
    requires NulFree(tenant)
    ensures AllAllowed(EMPTY_STORE, StoreOne(tenant)) && AllServed(EMPTY_STORE, StoreOne(tenant))
    ensures RunOps(EMPTY_STORE, StoreOne(tenant)).index == map[ObjectKey(tenant, "b", "k") := "a"]
  {
    var ops := StoreOne(tenant);
    var s := Apply(EMPTY_STORE, ops[0]);
    assert ops[1..] == [ops[1]] && [ops[1]][1..] == [];
    assert RunOps(s, [ops[1]]) == RunOps(Apply(s, ops[1]), []);
  }

  lemma StoredRow(digest: string -> string, tenant: string)
    ensures var rows := RowsOf(RunDatabases(digest, map[], StoreOne(tenant)), SafeTenant(digest, tenant));
            IsCommittedAt(rows, "a", "b", "k")
  {
    hide SafeTenant;
    var ops := StoreOne(tenant);
    var first := ApplyDatabases(digest, map[], ops[0]);
    assert ops[1..] == [ops[1]] && [ops[1]][1..] == [];
    assert RunDatabases(digest, first, [ops[1]]) == RunDatabases(digest, ApplyDatabases(digest, first, ops[1]), []);
  }

  /** Two tenants with one database: one finds there what the other stored. */
  lemma SharedDatabase(digest: string -> string, owner: string, other: string)
    requires NulFree(owner) && NulFree(other) && owner != other
    requires SafeTenant(digest, owner) == SafeTenant(digest, other)
    ensures !AnswersAlike(digest, StoreOne(owner), other, "b", "k")
  {
    StoredOne(owner);
    StoredRow(digest, owner);
    if ObjectKey(other, "b", "k") == ObjectKey(owner, "b", "k") {
      ObjectKeyInjective(other, "b", "k", owner, "b", "k");
    }
  }

  /** The databases answer as the in-memory store does, in every run, if and only if no two tenants share one. */
  lemma AlikeIffSeparate(digest: string -> string, tenants: set<string>)
    requires forall tenant :: tenant in tenants ==> NulFree(tenant)
    ensures AlwaysAlike(digest, tenants) <==> Separate(digest, tenants)
  {
    hide AnswersAlike, SafeTenant, AllAllowed, AllServed;
    if Separate(digest, tenants) {
      forall ops, tenant, bucket, key |
        && AllAllowed(EMPTY_STORE, ops) && AllServed(EMPTY_STORE, ops) && AllOf(tenants, ops)
        && tenant in tenants && NulFree(bucket)
        ensures AnswersAlike(digest, ops, tenant, bucket, key)
      {
        RowStoreSimulatesMemoryStore(digest, tenants, ops, tenant, bucket, key);
      }
    } else {
      var owner, other :| owner in tenants && other in tenants && owner != other
                          && SafeTenant(digest, owner) == SafeTenant(digest, other);
      StoredOne(owner);
      SharedDatabase(digest, owner, other);
      assert AllOf(tenants, StoreOne(owner));
    }
  }

  /** The empty tenant and the one called default are such a pair. */
  lemma EmptyTenantIsDefault(digest: string -> string)
    ensures !AlwaysAlike(digest, {"", "default"})
  {
    hide AlwaysAlike;
    AlikeIffSeparate(digest, {"", "default"});
  }

  /** Forgetting blocks never drops one that a chunk row names. */
  lemma ForgetKeepsReferencedRows(rows: Rows, hashes: set<string>, at: (string, nat))
    requires RowCounts(rows) && at in rows.chunks
    ensures rows.chunks[at].hash in ForgetRows(rows, hashes).blocks
  {
    var h := rows.chunks[at].hash;
    assert at in RowsWith(rows.chunks, h);
    assert |RowsWith(rows.chunks, h)| == RefCountIn(rows.blocks, h);
  }
}
