/**
 The object metadata of one process: manifests, the committed index and the per-tenant block
 reference counts, as values.  Every operation of the in-memory store is a function on
 StoreState; class MemoryStore (MemoryStore.dfy) is proved against these functions.
 */
module Metadata {
  import opened Sums

  datatype Option<+T> = None | Some(value: T)

  datatype ChunkRef = ChunkRef(hash: string, offset: int, size: int)

  datatype ObjectState = Pending | Committed | Deleted

  datatype Manifest = Manifest(
    id: string, tenant: string, bucket: string, key: string, state: ObjectState,
    size: int, etag: string, headers: map<string, string>, chunks: seq<ChunkRef>,
    createdAt: int, updatedAt: int)

  datatype BlockRefCount = BlockRefCount(size: int, refCount: int, updatedAt: int)

  type Blocks = map<string, BlockRefCount>

  datatype StoreState = StoreState(
    objects: map<string, Manifest>,
    index: map<string, string>,
    blocks: map<string, Blocks>)

  /** The clock readings inside one call: the manifest's stamp, the decrement's and the increment's. */
  datatype Stamps = Stamps(update: int, dec: int, inc: int)

  const ZERO_TIME := 0
  const NO_MANIFEST := Manifest("", "", "", "", Deleted, 0, "", map[], [], ZERO_TIME, ZERO_TIME)
  const EMPTY_STORE := StoreState(map[], map[], map[])

  // ---------------------------------------------------------------- chunk lists

  /** Occurrences of a hash in a chunk list, with multiplicity. */
  function Count(chunks: seq<ChunkRef>, hash: string): nat
  {
    if |chunks| == 0 then 0
    else Count(chunks[..|chunks| - 1], hash) + if chunks[|chunks| - 1].hash == hash then 1 else 0
  }

  function HashSet(chunks: seq<ChunkRef>): set<string> {
    set chunk | chunk in chunks :: chunk.hash
  }

  /** The size the last chunk with this hash carries; 0 when there is none. */
  function LastSize(chunks: seq<ChunkRef>, hash: string): int
  {
    if |chunks| == 0 then 0
    else if chunks[|chunks| - 1].hash == hash then chunks[|chunks| - 1].size
    else LastSize(chunks[..|chunks| - 1], hash)
  }

  lemma {:induction false} CountPositive(chunks: seq<ChunkRef>, hash: string)
    ensures Count(chunks, hash) > 0 <==> hash in HashSet(chunks)
  {
    if |chunks| != 0 {
      var last := chunks[|chunks| - 1];
      CountPositive(chunks[..|chunks| - 1], hash);
      assert chunks == chunks[..|chunks| - 1] + [last];
    }
  }

  lemma {:induction false} CountMonotone(chunks: seq<ChunkRef>, i: nat, j: nat, hash: string)
    requires i <= j <= |chunks|
    ensures Count(chunks[..i], hash) <= Count(chunks[..j], hash)
    decreases j
  {
    if i < j {
      CountMonotone(chunks, i, j - 1, hash);
      assert chunks[..j][..j - 1] == chunks[..j - 1];
    }
  }

  // ---------------------------------------------------------------- reference counts

  function RefCountIn(blocks: Blocks, hash: string): int {
    if hash in blocks then blocks[hash].refCount else 0
  }

  /** What adding a chunk list to a tenant's counts amounts to. */
  function Incremented(blocks: Blocks, chunks: seq<ChunkRef>, now: int): Blocks {
    map hash | hash in blocks.Keys + HashSet(chunks) ::
      if hash in HashSet(chunks)
      then BlockRefCount(LastSize(chunks, hash), RefCountIn(blocks, hash) + Count(chunks, hash), now)
      else blocks[hash]
  }

  /** What removing a chunk list amounts to; counts are clamped at zero. */
  function Decremented(blocks: Blocks, chunks: seq<ChunkRef>, now: int): Blocks {
    map hash | hash in blocks.Keys + HashSet(chunks) ::
      if hash in HashSet(chunks)
      then BlockRefCount(LastSize(chunks, hash), Clamped(RefCountIn(blocks, hash), Count(chunks, hash)), now)
      else blocks[hash]
  }

  function Clamped(count: int, taken: nat): int {
    if count <= 0 then count else if count < taken then 0 else count - taken
  }

  function Occurrences(chunks: seq<ChunkRef>, hash: string): set<nat> {
    set i: nat | i < |chunks| && chunks[i].hash == hash
  }

  lemma {:induction false} CountIsOccurrences(chunks: seq<ChunkRef>, hash: string)
    ensures Count(chunks, hash) == |Occurrences(chunks, hash)|
    decreases |chunks|
  {
    if |chunks| == 0 {
      assert Occurrences(chunks, hash) == {};
    } else {
      var n := |chunks| - 1;
      CountIsOccurrences(chunks[..n], hash);
      if chunks[n].hash == hash {
        assert Occurrences(chunks, hash) == Occurrences(chunks[..n], hash) + {n};
      } else {
        assert Occurrences(chunks, hash) == Occurrences(chunks[..n], hash);
      }
    }
  }

  lemma {:induction false} LastSizeIsLast(chunks: seq<ChunkRef>, hash: string, i: nat)
    requires i < |chunks| && chunks[i].hash == hash && forall j :: i < j < |chunks| ==> chunks[j].hash != hash
    ensures LastSize(chunks, hash) == chunks[i].size
    decreases |chunks|
  {
    if i < |chunks| - 1 {
      LastSizeIsLast(chunks[..|chunks| - 1], hash, i);
    }
  }

  /**
   A block the list names is stamped, takes the size of its last mention, and its count moves by the number of
   mentions, down to zero at most; every other block is as it was.
   */
  lemma CountsMove(blocks: Blocks, chunks: seq<ChunkRef>, now: int, hash: string, i: nat)
    requires i < |chunks| && chunks[i].hash == hash && forall j :: i < j < |chunks| ==> chunks[j].hash != hash
    ensures var mentions, before := |Occurrences(chunks, hash)|, if hash in blocks then blocks[hash].refCount else 0;
            var up, down := Incremented(blocks, chunks, now), Decremented(blocks, chunks, now);
            && hash in up && up[hash] == BlockRefCount(chunks[i].size, before + mentions, now)
            && hash in down && down[hash].size == chunks[i].size && down[hash].updatedAt == now
            && (before >= 0 ==> down[hash].refCount == if before < mentions then 0 else before - mentions)
    ensures forall h :: (forall j :: 0 <= j < |chunks| ==> chunks[j].hash != h) ==>
              && (h in Incremented(blocks, chunks, now) <==> h in blocks)
              && (h in Decremented(blocks, chunks, now) <==> h in blocks)
              && (h in blocks ==> Incremented(blocks, chunks, now)[h] == blocks[h])
              && (h in blocks ==> Decremented(blocks, chunks, now)[h] == blocks[h])
  {
    hide Count, LastSize, Occurrences;
    CountIsOccurrences(chunks, hash);
    LastSizeIsLast(chunks, hash, i);
    assert chunks[i] in chunks && hash in HashSet(chunks);
    forall h | forall j :: 0 <= j < |chunks| ==> chunks[j].hash != h ensures h !in HashSet(chunks) {
    }
  }

  function TenantBlocks(s: StoreState, tenant: string): Blocks {
    if tenant in s.blocks then s.blocks[tenant] else map[]
  }

  function RefOf(s: StoreState, tenant: string, hash: string): int {
    RefCountIn(TenantBlocks(s, tenant), hash)
  }

  // ---------------------------------------------------------------- operations

  function ObjectKey(tenant: string, bucket: string, key: string): string {
    tenant + "\0" + bucket + "\0" + key
  }

  predicate NulFree(name: string) { '\0' !in name }

  predicate SafeNames(m: Manifest) { NulFree(m.tenant) && NulFree(m.bucket) }

  function CreatePending(s: StoreState, id: string, m: Manifest, now: int): StoreState {
    s.(objects := s.objects[id := m.(id := id, state := Pending, createdAt := now, updatedAt := now)],
       blocks := s.blocks[m.tenant := TenantBlocks(s, m.tenant)])
  }

  predicate CanCommit(s: StoreState, pendingId: string) {
    pendingId in s.objects && s.objects[pendingId].state == Pending
  }

  function CommittedManifest(s: StoreState, pendingId: string, m: Manifest, now: int): Manifest
    requires CanCommit(s, pendingId)
  {
    m.(id := pendingId, state := Committed, updatedAt := now,
       createdAt := if m.createdAt == ZERO_TIME then s.objects[pendingId].createdAt else m.createdAt)
  }

  /** A Go map read: the zero value when the key is absent. */
  function ObjectOrZero(s: StoreState, id: string): Manifest {
    if id in s.objects then s.objects[id] else NO_MANIFEST
  }

  function DetachObject(s: StoreState, tenant: string, id: string, dec: int, update: int): StoreState {
    var m := ObjectOrZero(s, id);
    s.(objects := s.objects[id := m.(state := Deleted, updatedAt := update)],
       blocks := s.blocks[tenant := Decremented(TenantBlocks(s, tenant), m.chunks, dec)])
  }

  /** CommitObject; the state is unchanged when the id is not pending. */
  function Commit(s: StoreState, pendingId: string, manifest: Manifest, at: Stamps): StoreState {
    if !CanCommit(s, pendingId) then s else
    var m := CommittedManifest(s, pendingId, manifest, at.update);
    var key := ObjectKey(m.tenant, m.bucket, m.key);
    var s1 := if key in s.index
              then DetachObject(s, ObjectOrZero(s, s.index[key]).tenant, s.index[key], at.dec, at.update)
              else s;
    StoreState(
      s1.objects[pendingId := m],
      s1.index[key := pendingId],
      s1.blocks[m.tenant := Incremented(TenantBlocks(s1, m.tenant), m.chunks, at.inc)])
  }

  function GetObject(s: StoreState, tenant: string, bucket: string, key: string): Option<Manifest> {
    Lookup(s, ObjectKey(tenant, bucket, key))
  }

  function Lookup(s: StoreState, indexKey: string): Option<Manifest> {
    if indexKey in s.index && ObjectOrZero(s, s.index[indexKey]).state == Committed
    then Some(ObjectOrZero(s, s.index[indexKey])) else None
  }

  function DeleteObject(s: StoreState, tenant: string, bucket: string, key: string, at: Stamps): StoreState {
    var indexKey := ObjectKey(tenant, bucket, key);
    if Lookup(s, indexKey).None? then s else
    var s1 := DetachObject(s, tenant, s.index[indexKey], at.dec, at.update);
    s1.(index := s1.index - {indexKey})
  }

  predicate Eligible(s: StoreState, tenant: string, hash: string, before: int) {
    var blocks := TenantBlocks(s, tenant);
    hash in blocks && blocks[hash].refCount == 0 && blocks[hash].updatedAt <= before
  }

  function ForgetBlocks(s: StoreState, tenant: string, hashes: set<string>): StoreState {
    if tenant !in s.blocks then s else
    s.(blocks := s.blocks[tenant :=
      map hash | hash in s.blocks[tenant] && !(hash in hashes && s.blocks[tenant][hash].refCount == 0) ::
        s.blocks[tenant][hash]])
  }

  // ---------------------------------------------------------------- the invariant

  function Contribution(m: Manifest, tenant: string, hash: string): int {
    if m.state == Committed && m.tenant == tenant then Count(m.chunks, hash) else 0
  }

  ghost function Contributions(objects: map<string, Manifest>, tenant: string, hash: string): map<string, int> {
    map id | id in objects :: Contribution(objects[id], tenant, hash)
  }

  /** Occurrences of a hash, with multiplicity, over all committed manifests of a tenant. */
  ghost function References(objects: map<string, Manifest>, tenant: string, hash: string): int {
    Sum(Contributions(objects, tenant, hash))
  }

  /** The index and the committed manifests are in one-to-one correspondence. */
  ghost predicate IndexExact(s: StoreState) {
    && (forall k :: k in s.index ==>
          && s.index[k] in s.objects
          && s.objects[s.index[k]].state == Committed
          && ObjectKey(s.objects[s.index[k]].tenant, s.objects[s.index[k]].bucket, s.objects[s.index[k]].key) == k)
    && (forall id :: id in s.objects && s.objects[id].state == Committed ==>
          var key := ObjectKey(s.objects[id].tenant, s.objects[id].bucket, s.objects[id].key);
          key in s.index && s.index[key] == id)
  }

  ghost predicate CountsExact(s: StoreState) {
    forall tenant, hash :: RefOf(s, tenant, hash) == References(s.objects, tenant, hash)
  }

  ghost predicate ObjectsNamed(s: StoreState) {
    forall id :: id in s.objects ==> s.objects[id].id == id && SafeNames(s.objects[id])
  }

  ghost predicate Inv(s: StoreState) {
    IndexExact(s) && CountsExact(s) && ObjectsNamed(s)
  }

  // ---------------------------------------------------------------- runs

  datatype Op =
    | OpCreate(id: string, manifest: Manifest, now: int)
    | OpCommit(pendingId: string, manifest: Manifest, at: Stamps)
    | OpDelete(tenant: string, bucket: string, key: string, at: Stamps)
    | OpForget(tenant: string, hashes: set<string>)

  function Apply(s: StoreState, op: Op): StoreState {
    match op
    case OpCreate(id, m, now) => CreatePending(s, id, m, now)
    case OpCommit(id, m, at) => Commit(s, id, m, at)
    case OpDelete(tenant, bucket, key, at) => DeleteObject(s, tenant, bucket, key, at)
    case OpForget(tenant, hashes) => ForgetBlocks(s, tenant, hashes)
  }

  /** Ids are fresh random values; names come validated from the API. */
  predicate Allowed(s: StoreState, op: Op) {
    match op
    case OpCreate(id, m, _) => id !in s.objects && SafeNames(m)
    case OpCommit(_, m, _) => SafeNames(m)
    case OpDelete(tenant, bucket, _, _) => NulFree(tenant) && NulFree(bucket)
    case OpForget(_, _) => true
  }

  function RunOps(s: StoreState, ops: seq<Op>): StoreState
    decreases |ops|
  {
    if |ops| == 0 then s else RunOps(Apply(s, ops[0]), ops[1..])
  }

  predicate AllAllowed(s: StoreState, ops: seq<Op>)
    decreases |ops|
  {
    |ops| == 0 || (Allowed(s, ops[0]) && AllAllowed(Apply(s, ops[0]), ops[1..]))
  }

  // ---------------------------------------------------------------- lemmas

  lemma FirstNul(a: string, r: string)
    requires NulFree(a)
    ensures (a + "\0" + r)[|a|] == '\0'
    ensures forall i :: 0 <= i < |a| ==> (a + "\0" + r)[i] != '\0'
  {
    forall i | 0 <= i < |a| ensures (a + "\0" + r)[i] != '\0' {
      assert (a + "\0" + r)[i] == a[i];
      assert a[i] in a;
    }
  }

  /** A prefix without the separator is determined by the joined string. */
  lemma CutInjective(a: string, r: string, b: string, q: string)
    requires NulFree(a) && NulFree(b)
    requires a + "\0" + r == b + "\0" + q
    ensures a == b && r == q
  {
    var l, m := a + "\0" + r, b + "\0" + q;
    FirstNul(a, r);
    FirstNul(b, q);
    assert |a| == |b|;
    assert a == l[..|a|] && b == m[..|b|];
    assert r == l[|a| + 1..] && q == m[|b| + 1..];
  }

  /** Index keys identify the object when tenant and bucket hold no NUL. */
  lemma ObjectKeyInjective(t: string, b: string, k: string, t': string, b': string, k': string)
    requires NulFree(t) && NulFree(b) && NulFree(t') && NulFree(b')
    requires ObjectKey(t, b, k) == ObjectKey(t', b', k')
    ensures t == t' && b == b' && k == k'
  {
    assert ObjectKey(t, b, k) == t + "\0" + (b + "\0" + k);
    assert ObjectKey(t', b', k') == t' + "\0" + (b' + "\0" + k');
    CutInjective(t, b + "\0" + k, t', b' + "\0" + k');
    CutInjective(b, k, b', k');
  }

  /** Replacing one manifest moves the reference total by the difference of the contributions. */
  lemma ReferencesUpdate(objects: map<string, Manifest>, id: string, m: Manifest, tenant: string, hash: string)
    ensures References(objects[id := m], tenant, hash) ==
            References(objects, tenant, hash)
              - (if id in objects then Contribution(objects[id], tenant, hash) else 0)
              + Contribution(m, tenant, hash)
  {
    var before := Contributions(objects, tenant, hash);
    assert Contributions(objects[id := m], tenant, hash) == before[id := Contribution(m, tenant, hash)];
    SumUpdate(before, id, Contribution(m, tenant, hash));
  }

  /** A committed manifest never outweighs the total. */
  lemma ReferencesAtLeast(s: StoreState, id: string, tenant: string, hash: string)
    ensures References(s.objects, tenant, hash) >= 0
    ensures id in s.objects ==> Contribution(s.objects[id], tenant, hash) <= References(s.objects, tenant, hash)
  {
    var parts := Contributions(s.objects, tenant, hash);
    SumNonNegative(parts);
    if id in s.objects {
      assert parts[id] == Contribution(s.objects[id], tenant, hash);
    }
  }

  lemma RefCountDecremented(blocks: Blocks, chunks: seq<ChunkRef>, now: int, hash: string)
    requires RefCountIn(blocks, hash) >= Count(chunks, hash)
    ensures RefCountIn(Decremented(blocks, chunks, now), hash) == RefCountIn(blocks, hash) - Count(chunks, hash)
  {
    CountPositive(chunks, hash);
  }

  lemma RefCountIncremented(blocks: Blocks, chunks: seq<ChunkRef>, now: int, hash: string)
    ensures RefCountIn(Incremented(blocks, chunks, now), hash) == RefCountIn(blocks, hash) + Count(chunks, hash)
  {
    CountPositive(chunks, hash);
  }

  /** Detaching a committed object keeps counts exact. */
  lemma DetachKeepsCounts(s: StoreState, id: string, dec: int, update: int)
    requires CountsExact(s)
    requires id in s.objects && s.objects[id].state == Committed
    ensures CountsExact(DetachObject(s, s.objects[id].tenant, id, dec, update))
  {
    var m := s.objects[id];
    var s1 := DetachObject(s, m.tenant, id, dec, update);
    var gone := m.(state := Deleted, updatedAt := update);
    forall tenant, hash ensures RefOf(s1, tenant, hash) == References(s1.objects, tenant, hash) {
      ReferencesUpdate(s.objects, id, gone, tenant, hash);
      ReferencesAtLeast(s, id, tenant, hash);
      assert RefOf(s, tenant, hash) == References(s.objects, tenant, hash);
      if tenant == m.tenant {
        RefCountDecremented(TenantBlocks(s, tenant), m.chunks, dec, hash);
      }
    }
  }

  /** Attaching a manifest under an id that carries no references keeps counts exact. */
  lemma AttachKeepsCounts(s: StoreState, id: string, m: Manifest, inc: int)
    requires CountsExact(s)
    requires m.state == Committed
    requires id in s.objects ==> s.objects[id].state != Committed
    ensures CountsExact(s.(objects := s.objects[id := m],
                           blocks := s.blocks[m.tenant := Incremented(TenantBlocks(s, m.tenant), m.chunks, inc)]))
  {
    hide References, Incremented;
    var s1 := s.(objects := s.objects[id := m],
                 blocks := s.blocks[m.tenant := Incremented(TenantBlocks(s, m.tenant), m.chunks, inc)]);
    forall tenant, hash ensures RefOf(s1, tenant, hash) == References(s1.objects, tenant, hash) {
      ReferencesUpdate(s.objects, id, m, tenant, hash);
      assert RefOf(s, tenant, hash) == References(s.objects, tenant, hash);
      if tenant == m.tenant {
        RefCountIncremented(TenantBlocks(s, tenant), m.chunks, inc, hash);
      }
    }
  }

  lemma CreateKeepsInv(s: StoreState, id: string, m: Manifest, now: int)
    requires Inv(s) && Allowed(s, OpCreate(id, m, now))
    ensures Inv(CreatePending(s, id, m, now))
  {
    hide CountsExact;
    CreateKeepsCounts(s, id, m, now);
  }

  lemma CreateKeepsCounts(s: StoreState, id: string, m: Manifest, now: int)
    requires CountsExact(s) && id !in s.objects
    ensures CountsExact(CreatePending(s, id, m, now))
  {
    hide References;
    var s1 := CreatePending(s, id, m, now);
    forall tenant, hash ensures RefOf(s1, tenant, hash) == References(s1.objects, tenant, hash) {
      ReferencesUpdate(s.objects, id, s1.objects[id], tenant, hash);
      assert RefOf(s, tenant, hash) == References(s.objects, tenant, hash);
    }
  }

  /** The manifests once the one committed under this key, if any, is marked deleted. */
  function Superseded(s: StoreState, indexKey: string, now: int): map<string, Manifest>
    requires indexKey in s.index ==> s.index[indexKey] in s.objects
  {
    if indexKey !in s.index then s.objects
    else s.objects[s.index[indexKey] := s.objects[s.index[indexKey]].(state := Deleted, updatedAt := now)]
  }

  /** A commit touches the index at one key and at most two objects. */
  lemma CommitShape(s: StoreState, pendingId: string, manifest: Manifest, at: Stamps)
    requires IndexExact(s) && CanCommit(s, pendingId)
    ensures var m := CommittedManifest(s, pendingId, manifest, at.update);
            var key := ObjectKey(m.tenant, m.bucket, m.key);
            var s1 := Commit(s, pendingId, manifest, at);
            && s1.index == s.index[key := pendingId]
            && s1.objects == Superseded(s, key, at.update)[pendingId := m]
  {
  }

  /** One key now names this manifest, and what it named before is no longer committed. */
  lemma IndexMoves(s: StoreState, s1: StoreState, id: string, m: Manifest, now: int)
    requires IndexExact(s) && CanCommit(s, id) && m.state == Committed
    requires var key := ObjectKey(m.tenant, m.bucket, m.key);
             s1.index == s.index[key := id] && s1.objects == Superseded(s, key, now)[id := m]
    ensures IndexExact(s1)
  {
    hide ObjectKey;
  }

  lemma NamesMove(s: StoreState, s1: StoreState, id: string, m: Manifest, key: string, now: int)
    requires ObjectsNamed(s) && m.id == id && SafeNames(m)
    requires key in s.index ==> s.index[key] in s.objects
    requires s1.objects == Superseded(s, key, now)[id := m]
    ensures ObjectsNamed(s1)
  {
    hide NulFree;
  }

  lemma CommitKeepsIndex(s: StoreState, pendingId: string, manifest: Manifest, at: Stamps)
    requires IndexExact(s) && ObjectsNamed(s) && SafeNames(manifest) && CanCommit(s, pendingId)
    ensures IndexExact(Commit(s, pendingId, manifest, at)) && ObjectsNamed(Commit(s, pendingId, manifest, at))
  {
    hide Commit, ObjectKey, ObjectsNamed, Superseded;
    CommitShape(s, pendingId, manifest, at);
    var m, s1 := CommittedManifest(s, pendingId, manifest, at.update), Commit(s, pendingId, manifest, at);
    IndexMoves(s, s1, pendingId, m, at.update);
    NamesMove(s, s1, pendingId, m, ObjectKey(m.tenant, m.bucket, m.key), at.update);
  }

  lemma CommitKeepsCounts(s: StoreState, pendingId: string, manifest: Manifest, at: Stamps)
    requires IndexExact(s) && CountsExact(s) && CanCommit(s, pendingId)
    ensures CountsExact(Commit(s, pendingId, manifest, at))
  {
    var m := CommittedManifest(s, pendingId, manifest, at.update);
    var key := ObjectKey(m.tenant, m.bucket, m.key);
    var s1 := s;
    if key in s.index {
      DetachKeepsCounts(s, s.index[key], at.dec, at.update);
      s1 := DetachObject(s, s.objects[s.index[key]].tenant, s.index[key], at.dec, at.update);
    }
    AttachKeepsCounts(s1, pendingId, m, at.inc);
    var t := s1.(objects := s1.objects[pendingId := m],
                 blocks := s1.blocks[m.tenant := Incremented(TenantBlocks(s1, m.tenant), m.chunks, at.inc)]);
    SameCounts(t, Commit(s, pendingId, manifest, at));
  }

  lemma SameCounts(s: StoreState, t: StoreState)
    requires CountsExact(s) && s.objects == t.objects && s.blocks == t.blocks
    ensures CountsExact(t)
  {
    forall tenant, hash ensures RefOf(t, tenant, hash) == References(t.objects, tenant, hash) {
      assert RefOf(s, tenant, hash) == References(s.objects, tenant, hash);
    }
  }

  lemma CommitKeepsInv(s: StoreState, pendingId: string, manifest: Manifest, at: Stamps)
    requires Inv(s) && SafeNames(manifest)
    ensures Inv(Commit(s, pendingId, manifest, at))
  {
    if CanCommit(s, pendingId) {
      CommitKeepsIndex(s, pendingId, manifest, at);
      CommitKeepsCounts(s, pendingId, manifest, at);
    }
  }

  lemma DeleteKeepsInv(s: StoreState, tenant: string, bucket: string, key: string, at: Stamps)
    requires Inv(s) && NulFree(tenant) && NulFree(bucket)
    ensures Inv(DeleteObject(s, tenant, bucket, key, at))
  {
    var indexKey := ObjectKey(tenant, bucket, key);
    if Lookup(s, indexKey).Some? {
      var id := s.index[indexKey];
      var m := s.objects[id];
      ObjectKeyInjective(tenant, bucket, key, m.tenant, m.bucket, m.key);
      DetachKeepsCounts(s, id, at.dec, at.update);
      var s1 := DetachObject(s, tenant, id, at.dec, at.update);
      var s2 := DeleteObject(s, tenant, bucket, key, at);
      forall t, hash ensures RefOf(s2, t, hash) == References(s2.objects, t, hash) {
        assert RefOf(s1, t, hash) == References(s1.objects, t, hash);
      }
    }
  }

  lemma ForgetKeepsInv(s: StoreState, tenant: string, hashes: set<string>)
    requires Inv(s)
    ensures Inv(ForgetBlocks(s, tenant, hashes))
    ensures forall t, hash :: RefOf(ForgetBlocks(s, tenant, hashes), t, hash) == RefOf(s, t, hash)
  {
    var s1 := ForgetBlocks(s, tenant, hashes);
    forall t, hash ensures RefOf(s1, t, hash) == References(s1.objects, t, hash) {
      assert RefOf(s, t, hash) == References(s.objects, t, hash);
    }
  }

  lemma ApplyKeepsInv(s: StoreState, op: Op)
    requires Inv(s) && Allowed(s, op)
    ensures Inv(Apply(s, op))
  {
    match op
    case OpCreate(id, m, now) => CreateKeepsInv(s, id, m, now);
    case OpCommit(id, m, at) => CommitKeepsInv(s, id, m, at);
    case OpDelete(tenant, bucket, key, at) => DeleteKeepsInv(s, tenant, bucket, key, at);
    case OpForget(tenant, hashes) => ForgetKeepsInv(s, tenant, hashes);
  }

  lemma EmptyStoreInv()
    ensures Inv(EMPTY_STORE)
  {
    forall tenant, hash ensures RefOf(EMPTY_STORE, tenant, hash) == References(EMPTY_STORE.objects, tenant, hash) {
      SumZero(Contributions(EMPTY_STORE.objects, tenant, hash));
    }
  }

  lemma {:induction false} RunKeepsInv(s: StoreState, ops: seq<Op>)
    requires Inv(s) && AllAllowed(s, ops)
    ensures Inv(RunOps(s, ops))
    decreases |ops|
  {
    if |ops| != 0 {
      ApplyKeepsInv(s, ops[0]);
      RunKeepsInv(Apply(s, ops[0]), ops[1..]);
    }
  }

  /** Every reachable store counts references exactly and indexes each committed object once. */
  lemma ReachableStoreExact(ops: seq<Op>)
    requires AllAllowed(EMPTY_STORE, ops)
    ensures Inv(RunOps(EMPTY_STORE, ops))
  {
    EmptyStoreInv();
    RunKeepsInv(EMPTY_STORE, ops);
  }

  /** While a committed manifest is being released chunk by chunk, each count is still positive. */
  lemma ClampNeverFires(s: StoreState, id: string, i: nat, dec: int)
    requires Inv(s)
    requires id in s.objects && s.objects[id].state == Committed
    requires i < |s.objects[id].chunks|
    ensures var m := s.objects[id];
            RefCountIn(Decremented(TenantBlocks(s, m.tenant), m.chunks[..i], dec), m.chunks[i].hash) > 0
  {
    var m := s.objects[id];
    var hash := m.chunks[i].hash;
    ReferencesAtLeast(s, id, m.tenant, hash);
    assert RefOf(s, m.tenant, hash) == References(s.objects, m.tenant, hash);
    CountMonotone(m.chunks, i + 1, |m.chunks|, hash);
    assert m.chunks[..|m.chunks|] == m.chunks;
    assert m.chunks[..i + 1][..i] == m.chunks[..i];
    RefCountDecremented(TenantBlocks(s, m.tenant), m.chunks[..i], dec, hash);
  }

  /** A chunk of a committed manifest keeps its count above zero. */
  lemma ReferencedIsCounted(s: StoreState, id: string, c: ChunkRef)
    requires Inv(s)
    requires id in s.objects && s.objects[id].state == Committed && c in s.objects[id].chunks
    ensures RefOf(s, s.objects[id].tenant, c.hash) > 0
  {
    var m := s.objects[id];
    ReferencesAtLeast(s, id, m.tenant, c.hash);
    CountPositive(m.chunks, c.hash);
    assert RefOf(s, m.tenant, c.hash) == References(s.objects, m.tenant, c.hash);
  }

  /** A nonzero count has a committed manifest behind it. */
  lemma CountedIsReferenced(s: StoreState, tenant: string, hash: string) returns (id: string, c: ChunkRef)
    requires Inv(s) && RefOf(s, tenant, hash) != 0
    ensures id in s.objects && s.objects[id].state == Committed && s.objects[id].tenant == tenant
    ensures c in s.objects[id].chunks && c.hash == hash
  {
    var parts := Contributions(s.objects, tenant, hash);
    assert RefOf(s, tenant, hash) == References(s.objects, tenant, hash);
    if forall k :: k in parts ==> parts[k] == 0 {
      SumZero(parts);
      assert false;
    }
    id :| id in parts && parts[id] != 0;
    CountPositive(s.objects[id].chunks, hash);
    c :| c in s.objects[id].chunks && c.hash == hash;
  }

  // ---------------------------------------------------------------- lookups as a plain map

  /** What readers can see: one manifest per index key. */
  ghost function Visible(s: StoreState): map<string, Manifest> {
    map k | k in s.index && Lookup(s, k).Some? :: Lookup(s, k).value
  }

  lemma CommitLookups(s: StoreState, id: string, m: Manifest, at: Stamps)
    requires IndexExact(s) && CanCommit(s, id)
    ensures var s1 := Commit(s, id, m, at);
            var key := ObjectKey(m.tenant, m.bucket, m.key);
            && Lookup(s1, key) == Some(CommittedManifest(s, id, m, at.update))
            && forall k :: k != key ==> Lookup(s1, k) == Lookup(s, k)
  {
    CommitShape(s, id, m, at);
    var s1 := Commit(s, id, m, at);
    var key := ObjectKey(m.tenant, m.bucket, m.key);
    forall k | k != key ensures Lookup(s1, k) == Lookup(s, k) {
      if k in s.index {
        assert s.index[k] != id;
        assert key in s.index ==> s.index[k] != s.index[key];
      }
    }
  }

  lemma CommitIsVisible(s: StoreState, id: string, m: Manifest, at: Stamps)
    requires IndexExact(s) && CanCommit(s, id)
    ensures Visible(Commit(s, id, m, at)) ==
            Visible(s)[ObjectKey(m.tenant, m.bucket, m.key) := CommittedManifest(s, id, m, at.update)]
  {
    CommitShape(s, id, m, at);
    CommitLookups(s, id, m, at);
    var committed := CommittedManifest(s, id, m, at.update);
    VisibleUpdate(s, Commit(s, id, m, at), ObjectKey(m.tenant, m.bucket, m.key), id, committed);
  }

  lemma VisibleUpdate(s: StoreState, s1: StoreState, key: string, id: string, m: Manifest)
    requires s1.index == s.index[key := id] && Lookup(s1, key) == Some(m)
    requires forall k :: k != key ==> Lookup(s1, k) == Lookup(s, k)
    ensures Visible(s1) == Visible(s)[key := m]
  {
    hide Lookup;
    assert Visible(s1).Keys == Visible(s).Keys + {key};
  }

  /** Same index, same lookups: nothing a reader sees has changed. */
  lemma SameVisible(s: StoreState, s1: StoreState)
    requires s1.index == s.index && forall k :: k in s.index ==> Lookup(s1, k) == Lookup(s, k)
    ensures Visible(s1) == Visible(s)
  {
  }

  lemma CannotCommit(s: StoreState, id: string, m: Manifest, at: Stamps)
    requires !CanCommit(s, id)
    ensures Commit(s, id, m, at) == s
  {
  }

  lemma DeleteIsVisible(s: StoreState, tenant: string, bucket: string, key: string, at: Stamps)
    requires IndexExact(s)
    ensures Visible(DeleteObject(s, tenant, bucket, key, at)) == Visible(s) - {ObjectKey(tenant, bucket, key)}
  {
    var s1, gone := DeleteObject(s, tenant, bucket, key, at), ObjectKey(tenant, bucket, key);
    forall k | k != gone ensures Lookup(s1, k) == Lookup(s, k) {
    }
    VisibleRemove(s, s1, gone);
  }

  lemma VisibleRemove(s: StoreState, s1: StoreState, key: string)
    requires s1.index == s.index - {key} || (s1.index == s.index && Lookup(s1, key).None?)
    requires forall k :: k != key ==> Lookup(s1, k) == Lookup(s, k)
    ensures Visible(s1) == Visible(s) - {key}
  {
    hide Lookup;
    assert Visible(s1).Keys == Visible(s).Keys - {key};
  }

  /** Commit is a map update, delete a map removal; creating and forgetting are invisible. */
  lemma LookupsAreAMap(s: StoreState, op: Op)
    requires Inv(s) && Allowed(s, op)
    ensures match op
            case OpCreate(_, _, _) => Visible(Apply(s, op)) == Visible(s)
            case OpForget(_, _) => Visible(Apply(s, op)) == Visible(s)
            case OpDelete(tenant, bucket, key, _) =>
              Visible(Apply(s, op)) == Visible(s) - {ObjectKey(tenant, bucket, key)}
            case OpCommit(id, m, at) =>
              Visible(Apply(s, op)) ==
                if CanCommit(s, id)
                then Visible(s)[ObjectKey(m.tenant, m.bucket, m.key) := CommittedManifest(s, id, m, at.update)]
                else Visible(s)
  {
    hide CountsExact, ObjectsNamed, Visible, Commit, DeleteObject, CommittedManifest, ObjectKey;
    match op
    case OpCommit(id, m, at) =>
      if CanCommit(s, id) { CommitIsVisible(s, id, m, at); } else { CannotCommit(s, id, m, at); }
    case OpDelete(tenant, bucket, key, at) => DeleteIsVisible(s, tenant, bucket, key, at);
    case OpCreate(id, m, now) => SameVisible(s, CreatePending(s, id, m, now));
    case OpForget(tenant, hashes) => SameVisible(s, ForgetBlocks(s, tenant, hashes));
  }
}
