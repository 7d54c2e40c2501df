/** The in-memory metadata store: maps updated in place, one call at a time under the store's mutex. */
module MemoryStores {
  import opened Metadata

  const DEFAULT_LIST_LIMIT := 1000

  /** One hash's multiplicity and last size after one more chunk. */
  lemma PrefixAt(chunks: seq<ChunkRef>, i: nat, h: string)
    requires i < |chunks|
    ensures h in HashSet(chunks[..i + 1]) <==> h in HashSet(chunks[..i]) || h == chunks[i].hash
    ensures Count(chunks[..i + 1], h) == Count(chunks[..i], h) + if chunks[i].hash == h then 1 else 0
    ensures LastSize(chunks[..i + 1], h) == if chunks[i].hash == h then chunks[i].size else LastSize(chunks[..i], h)
    ensures h !in HashSet(chunks[..i]) ==> Count(chunks[..i], h) == 0
  {
    assert chunks[..i + 1] == chunks[..i] + [chunks[i]];
    assert chunks[..i + 1][..i] == chunks[..i];
    CountPositive(chunks[..i], h);
  }

  lemma IncrementStep(blocks: Blocks, chunks: seq<ChunkRef>, i: nat, now: int)
    requires i < |chunks|
    ensures var before := Incremented(blocks, chunks[..i], now);
            var chunk := chunks[i];
            Incremented(blocks, chunks[..i + 1], now) ==
            before[chunk.hash := BlockRefCount(chunk.size, RefCountIn(before, chunk.hash) + 1, now)]
  {
    var chunk := chunks[i];
    var before, after := Incremented(blocks, chunks[..i], now), Incremented(blocks, chunks[..i + 1], now);
    var next := before[chunk.hash := BlockRefCount(chunk.size, RefCountIn(before, chunk.hash) + 1, now)];
    forall h ensures (h in after <==> h in next) && (h in after ==> after[h] == next[h]) {
      PrefixAt(chunks, i, h);
    }
  }

  lemma DecrementStep(blocks: Blocks, chunks: seq<ChunkRef>, i: nat, now: int)
    requires i < |chunks|
    ensures var before := Decremented(blocks, chunks[..i], now);
            var chunk := chunks[i];
            Decremented(blocks, chunks[..i + 1], now) ==
            before[chunk.hash := BlockRefCount(chunk.size, Clamped(RefCountIn(before, chunk.hash), 1), now)]
  {
    var chunk := chunks[i];
    var before, after := Decremented(blocks, chunks[..i], now), Decremented(blocks, chunks[..i + 1], now);
    var next := before[chunk.hash := BlockRefCount(chunk.size, Clamped(RefCountIn(before, chunk.hash), 1), now)];
    forall h ensures (h in after <==> h in next) && (h in after ==> after[h] == next[h]) {
      PrefixAt(chunks, i, h);
    }
  }

  lemma IncrementNone(b: Blocks, now: int)
    ensures Incremented(b, [], now) == b
  {
  }

  lemma DecrementNone(b: Blocks, now: int)
    ensures Decremented(b, [], now) == b
  {
  }

  function ToSet(hashes: seq<string>): set<string> {
    set h | h in hashes
  }

  predicate Distinct(names: seq<string>) {
    forall i, j :: 0 <= i < j < |names| ==> names[i] != names[j]
  }

  lemma ForgetStep(s: StoreState, tenant: string, hashes: seq<string>, i: nat)
    requires i < |hashes|
    ensures var s1 := ForgetBlocks(s, tenant, ToSet(hashes[..i]));
            ForgetBlocks(s, tenant, ToSet(hashes[..i + 1])) ==
              if hashes[i] in TenantBlocks(s1, tenant) && RefOf(s1, tenant, hashes[i]) == 0
              then s1.(blocks := s1.blocks[tenant := s1.blocks[tenant] - {hashes[i]}])
              else s1
  {
    assert hashes[..i + 1] == hashes[..i] + [hashes[i]];
    assert ToSet(hashes[..i + 1]) == ToSet(hashes[..i]) + {hashes[i]};
    if tenant in s.blocks {
      var s1 := ForgetBlocks(s, tenant, ToSet(hashes[..i]));
      var s2 := ForgetBlocks(s, tenant, ToSet(hashes[..i + 1]));
      assert s2.blocks[tenant] ==
        if hashes[i] in s1.blocks[tenant] && s1.blocks[tenant][hashes[i]].refCount == 0
        then s1.blocks[tenant] - {hashes[i]} else s1.blocks[tenant];
      assert s2.blocks == s1.blocks[tenant := s2.blocks[tenant]];
      assert s1.blocks[tenant := s1.blocks[tenant]] == s1.blocks;
    }
  }

  class MemoryStore {
    var objects: map<string, Manifest>
    var index: map<string, string>
    var blocks: map<string, Blocks>

    constructor ()
      ensures State() == EMPTY_STORE
    {
      objects, index, blocks := map[], map[], map[];
    }

    function State(): (s: StoreState)
      reads this
    {
      StoreState(objects, index, blocks)
    }

    method EnsureTenant(tenant: string)
      modifies this`blocks
      ensures blocks == old(blocks)[tenant := TenantBlocks(old(State()), tenant)]
    {
      if tenant !in blocks {
        blocks := blocks[tenant := map[]];
      }
    }

    method IncrementLocked(tenant: string, chunks: seq<ChunkRef>, now: int)
      modifies this`blocks
      ensures blocks == old(blocks)[tenant := Incremented(TenantBlocks(old(State()), tenant), chunks, now)]
    {
      hide Incremented, Count, LastSize;
      ghost var before := TenantBlocks(State(), tenant);
      ghost var current := before;
      EnsureTenant(tenant);
      IncrementNone(before, now);
      assert chunks[..0] == [];
      for i := 0 to |chunks|
        invariant blocks == old(blocks)[tenant := current]
        invariant current == Incremented(before, chunks[..i], now)
      {
        var chunk := chunks[i];
        var refCount := RefCountIn(blocks[tenant], chunk.hash);
        IncrementStep(before, chunks, i, now);
        current := current[chunk.hash := BlockRefCount(chunk.size, refCount + 1, now)];
        blocks := blocks[tenant := blocks[tenant][chunk.hash := BlockRefCount(chunk.size, refCount + 1, now)]];
      }
      assert chunks[..|chunks|] == chunks;
    }

    method DecrementLocked(tenant: string, chunks: seq<ChunkRef>, now: int)
      modifies this`blocks
      ensures blocks == old(blocks)[tenant := Decremented(TenantBlocks(old(State()), tenant), chunks, now)]
    {
      hide Decremented, Count, LastSize;
      ghost var before := TenantBlocks(State(), tenant);
      ghost var current := before;
      EnsureTenant(tenant);
      DecrementNone(before, now);
      assert chunks[..0] == [];
      for i := 0 to |chunks|
        invariant blocks == old(blocks)[tenant := current]
        invariant current == Decremented(before, chunks[..i], now)
      {
        var chunk := chunks[i];
        var refCount := RefCountIn(blocks[tenant], chunk.hash);
        if refCount > 0 {
          refCount := refCount - 1;
        }
        DecrementStep(before, chunks, i, now);
        current := current[chunk.hash := BlockRefCount(chunk.size, refCount, now)];
        blocks := blocks[tenant := blocks[tenant][chunk.hash := BlockRefCount(chunk.size, refCount, now)]];
      }
      assert chunks[..|chunks|] == chunks;
    }

    /** The generated id is a parameter; the caller of the model supplies a fresh one. */
    method CreatePendingObject(generatedId: string, manifest: Manifest, now: int) returns (id: string)
      modifies this
      ensures id == if manifest.id == "" then generatedId else manifest.id
      ensures State() == CreatePending(old(State()), id, manifest, now)
    {
      id := manifest.id;
      if id == "" {
        id := generatedId;
      }
      objects := objects[id := manifest.(id := id, state := Pending, createdAt := now, updatedAt := now)];
      EnsureTenant(manifest.tenant);
    }

    method CommitObject(pendingId: string, manifest: Manifest, at: Stamps) returns (ok: bool)
      modifies this
      ensures ok == CanCommit(old(State()), pendingId)
      ensures State() == Commit(old(State()), pendingId, manifest, at)
    {
      hide Incremented, Decremented, Count, LastSize, ObjectKey;
      if pendingId !in objects || objects[pendingId].state != Pending {
        return false;
      }
      var m := manifest.(id := pendingId, state := Committed);
      if m.createdAt == ZERO_TIME {
        m := m.(createdAt := objects[pendingId].createdAt);
      }
      m := m.(updatedAt := at.update);
      var key := ObjectKey(m.tenant, m.bucket, m.key);
      ghost var s := State();
      if key in index {
        var previousId := index[key];
        var previous := if previousId in objects then objects[previousId] else NO_MANIFEST;
        DecrementLocked(previous.tenant, previous.chunks, at.dec);
        objects := objects[previousId := previous.(state := Deleted, updatedAt := m.updatedAt)];
        assert State() == DetachObject(s, previous.tenant, previousId, at.dec, at.update);
      }
      ghost var s1 := State();
      EnsureTenant(m.tenant);
      IncrementLocked(m.tenant, m.chunks, at.inc);
      assert blocks == s1.blocks[m.tenant := Incremented(TenantBlocks(s1, m.tenant), m.chunks, at.inc)];
      objects := objects[pendingId := m];
      index := index[key := pendingId];
      return true;
    }

    method Get(tenant: string, bucket: string, key: string) returns (r: Option<Manifest>)
      ensures r == GetObject(State(), tenant, bucket, key)
    {
      var indexKey := ObjectKey(tenant, bucket, key);
      if indexKey !in index {
        return None;
      }
      var id := index[indexKey];
      var manifest := if id in objects then objects[id] else NO_MANIFEST;
      if manifest.state != Committed {
        return None;
      }
      return Some(manifest);
    }

    method Delete(tenant: string, bucket: string, key: string, at: Stamps) returns (r: Option<Manifest>)
      modifies this
      ensures var found := GetObject(old(State()), tenant, bucket, key);
              r == if found.None? then None else Some(found.value.(state := Deleted, updatedAt := at.update))
      ensures State() == DeleteObject(old(State()), tenant, bucket, key, at)
    {
      var indexKey := ObjectKey(tenant, bucket, key);
      if indexKey !in index {
        return None;
      }
      var id := index[indexKey];
      var manifest := if id in objects then objects[id] else NO_MANIFEST;
      if manifest.state != Committed {
        return None;
      }
      DecrementLocked(tenant, manifest.chunks, at.dec);
      manifest := manifest.(state := Deleted, updatedAt := at.update);
      objects := objects[id := manifest];
      index := index - {indexKey};
      return Some(manifest);
    }

    /** Some eligible blocks in no particular order, all of them unless the limit cuts the list. */
    method ListUnreferencedBlocksOlderThan(tenant: string, before: int, limit: int) returns (refs: seq<string>)
      ensures forall h :: h in refs ==> Eligible(State(), tenant, h, before)
      ensures Distinct(refs)
      ensures var bound := if limit <= 0 then DEFAULT_LIST_LIMIT else limit;
              |refs| <= bound &&
              (|refs| < bound ==> forall h :: Eligible(State(), tenant, h, before) ==> h in refs)
    {
      var bound := if limit <= 0 then DEFAULT_LIST_LIMIT else limit;
      refs := [];
      var tenantBlocks := TenantBlocks(State(), tenant);
      var rest := tenantBlocks.Keys;
      while rest != {}
        invariant rest <= tenantBlocks.Keys
        invariant |refs| < bound
        invariant forall h :: h in refs ==> h !in rest && Eligible(State(), tenant, h, before)
        invariant Distinct(refs)
        invariant forall h :: Eligible(State(), tenant, h, before) ==> h in refs || h in rest
        decreases rest
      {
        var hash :| hash in rest;
        rest := rest - {hash};
        var ref := tenantBlocks[hash];
        if ref.refCount == 0 && ref.updatedAt <= before {
          refs := refs + [hash];
          if |refs| == bound {
            break;
          }
        }
      }
    }

    method Forget(tenant: string, hashes: seq<string>)
      modifies this`blocks
      ensures State() == ForgetBlocks(old(State()), tenant, ToSet(hashes))
    {
      ghost var s := State();
      assert tenant in s.blocks ==> ForgetBlocks(s, tenant, ToSet(hashes[..0])).blocks[tenant] == s.blocks[tenant];
      assert ForgetBlocks(s, tenant, ToSet(hashes[..0])).blocks == s.blocks;
      for i := 0 to |hashes|
        invariant State() == ForgetBlocks(s, tenant, ToSet(hashes[..i]))
      {
        var hash := hashes[i];
        ForgetStep(s, tenant, hashes, i);
        if tenant in blocks && hash in blocks[tenant] && blocks[tenant][hash].refCount == 0 {
          blocks := blocks[tenant := blocks[tenant] - {hash}];
        }
      }
      assert hashes[..|hashes|] == hashes;
    }

    /** Every tenant with multipart sessions also has an entry in blocks, so these are all tenants. */
    method ListTenants() returns (tenants: seq<string>)
      ensures ToSet(tenants) == State().blocks.Keys
      ensures Distinct(tenants)
    {
      tenants := [];
      var rest := blocks.Keys;
      while rest != {}
        invariant forall t :: t in tenants || t in rest <==> t in blocks
        invariant forall t :: t in tenants ==> t !in rest
        invariant Distinct(tenants)
        decreases rest
      {
        var tenant :| tenant in rest;
        rest := rest - {tenant};
        tenants := tenants + [tenant];
      }
    }
  }
}
