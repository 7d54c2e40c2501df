/**
 The in-memory store keeps the objects of all tenants in one map and one index; on disk every tenant
 has a database of its own.  What one tenant owns of the shared store behaves like a store by itself.
 */
module Shards {
  import opened Metadata

  function TenantObjects(objects: map<string, Manifest>, tenant: string): map<string, Manifest> {
    map id | id in objects && objects[id].tenant == tenant :: objects[id]
  }

  /** The index entries that name one of these objects. */
  function TenantIndex(index: map<string, string>, ids: set<string>): map<string, string> {
    map k | k in index && index[k] in ids :: index[k]
  }

  /** The part of the shared store that belongs to one tenant. */
  function Shard(s: StoreState, tenant: string): StoreState {
    StoreState(TenantObjects(s.objects, tenant), TenantIndex(s.index, TenantObjects(s.objects, tenant).Keys),
               if tenant in s.blocks then map[tenant := s.blocks[tenant]] else map[])
  }

  function TenantOf(op: Op): string {
    match op
    case OpCreate(_, m, _) => m.tenant
    case OpCommit(_, m, _) => m.tenant
    case OpDelete(tenant, _, _, _) => tenant
    case OpForget(tenant, _) => tenant
  }

  /** An object is committed by the tenant that created it. */
  predicate StaysHome(s: StoreState, op: Op) {
    op.OpCommit? && CanCommit(s, op.pendingId) ==> s.objects[op.pendingId].tenant == op.manifest.tenant
  }

  /** What the index holds at one of a tenant's keys is that tenant's object. */
  lemma OwnKey(s: StoreState, tenant: string, bucket: string, key: string)
    requires IndexExact(s) && ObjectsNamed(s) && NulFree(tenant) && NulFree(bucket)
    requires ObjectKey(tenant, bucket, key) in s.index
    ensures s.objects[s.index[ObjectKey(tenant, bucket, key)]].tenant == tenant
  {
    var m := s.objects[s.index[ObjectKey(tenant, bucket, key)]];
    ObjectKeyInjective(tenant, bucket, key, m.tenant, m.bucket, m.key);
  }

  lemma ShardLookup(s: StoreState, tenant: string, bucket: string, key: string)
    requires IndexExact(s) && ObjectsNamed(s) && NulFree(tenant) && NulFree(bucket)
    ensures GetObject(Shard(s, tenant), tenant, bucket, key) == GetObject(s, tenant, bucket, key)
  {
    hide ObjectKey;
    if ObjectKey(tenant, bucket, key) in s.index {
      OwnKey(s, tenant, bucket, key);
    }
  }

  lemma ObjectsOwn(objects: map<string, Manifest>, id: string, m: Manifest)
    requires id in objects ==> objects[id].tenant == m.tenant
    ensures TenantObjects(objects[id := m], m.tenant) == TenantObjects(objects, m.tenant)[id := m]
  {
  }

  lemma ObjectsElsewhere(objects: map<string, Manifest>, id: string, m: Manifest, tenant: string)
    requires tenant != m.tenant && (id in objects ==> objects[id].tenant == m.tenant)
    ensures TenantObjects(objects[id := m], tenant) == TenantObjects(objects, tenant)
  {
  }

  lemma OwnId(objects: map<string, Manifest>, id: string)
    requires id in objects
    ensures forall tenant :: id in TenantObjects(objects, tenant) <==> tenant == objects[id].tenant
    ensures TenantObjects(objects, objects[id].tenant)[id] == objects[id]
  {
  }

  lemma DetachOwn(s: StoreState, tenant: string, id: string, dec: int, update: int)
    requires id in s.objects && s.objects[id].tenant == tenant
    ensures Shard(DetachObject(s, tenant, id, dec, update), tenant) ==
            DetachObject(Shard(s, tenant), tenant, id, dec, update)
  {
    hide Decremented, TenantObjects, TenantIndex;
    OwnId(s.objects, id);
    ObjectsOwn(s.objects, id, s.objects[id].(state := Deleted, updatedAt := update));
    var ids := TenantObjects(s.objects, tenant).Keys;
    assert id in ids;
    assert TenantObjects(DetachObject(s, tenant, id, dec, update).objects, tenant).Keys == ids;
  }

  lemma DetachElsewhere(s: StoreState, owner: string, id: string, dec: int, update: int, tenant: string)
    requires id in s.objects && s.objects[id].tenant == owner && tenant != owner
    ensures Shard(DetachObject(s, owner, id, dec, update), tenant) == Shard(s, tenant)
  {
    hide Decremented, TenantObjects, TenantIndex;
    ObjectsElsewhere(s.objects, id, s.objects[id].(state := Deleted, updatedAt := update), tenant);
  }

  /** The second half of a commit: the manifest, its index entry and its references. */
  function Attached(s: StoreState, id: string, key: string, m: Manifest, inc: int): StoreState {
    StoreState(s.objects[id := m], s.index[key := id],
               s.blocks[m.tenant := Incremented(TenantBlocks(s, m.tenant), m.chunks, inc)])
  }

  lemma AttachOwn(s: StoreState, id: string, key: string, m: Manifest, inc: int)
    requires id in s.objects && s.objects[id].tenant == m.tenant
    ensures Shard(Attached(s, id, key, m, inc), m.tenant) == Attached(Shard(s, m.tenant), id, key, m, inc)
  {
    hide Incremented, TenantObjects;
    ObjectsOwn(s.objects, id, m);
    var ids := TenantObjects(s.objects, m.tenant).Keys;
    assert id in ids by { OwnId(s.objects, id); }
    assert TenantObjects(s.objects[id := m], m.tenant).Keys == ids;
    assert TenantIndex(s.index[key := id], ids) == TenantIndex(s.index, ids)[key := id];
    hide TenantIndex;
  }

  lemma AttachElsewhere(s: StoreState, id: string, key: string, m: Manifest, inc: int, tenant: string)
    requires id in s.objects && s.objects[id].tenant == m.tenant && tenant != m.tenant
    requires key in s.index ==> s.index[key] in s.objects && s.objects[s.index[key]].tenant == m.tenant
    ensures Shard(Attached(s, id, key, m, inc), tenant) == Shard(s, tenant)
  {
    hide Incremented, TenantObjects;
    ObjectsElsewhere(s.objects, id, m, tenant);
    OwnId(s.objects, id);
    if key in s.index { OwnId(s.objects, s.index[key]); }
  }

  lemma CommitOwn(s: StoreState, id: string, manifest: Manifest, at: Stamps)
    requires IndexExact(s) && ObjectsNamed(s) && SafeNames(manifest)
    requires CanCommit(s, id) && s.objects[id].tenant == manifest.tenant
    ensures Shard(Commit(s, id, manifest, at), manifest.tenant) == Commit(Shard(s, manifest.tenant), id, manifest, at)
  {
    hide Incremented, Decremented, ObjectKey, ObjectsNamed;
    var m := CommittedManifest(s, id, manifest, at.update);
    var key := ObjectKey(m.tenant, m.bucket, m.key);
    var s1 := s;
    if key in s.index {
      OwnKey(s, m.tenant, m.bucket, m.key);
      DetachOwn(s, m.tenant, s.index[key], at.dec, at.update);
      s1 := DetachObject(s, m.tenant, s.index[key], at.dec, at.update);
    }
    hide DetachObject;
    assert Commit(s, id, manifest, at) == Attached(s1, id, key, m, at.inc);
    assert Commit(Shard(s, m.tenant), id, manifest, at) == Attached(Shard(s1, m.tenant), id, key, m, at.inc);
    AttachOwn(s1, id, key, m, at.inc);
  }

  lemma RemoveOwn(s: StoreState, tenant: string, key: string)
    ensures Shard(s.(index := s.index - {key}), tenant) ==
            Shard(s, tenant).(index := Shard(s, tenant).index - {key})
    ensures (key in s.index ==> s.index[key] in s.objects && s.objects[s.index[key]].tenant != tenant) ==>
              Shard(s.(index := s.index - {key}), tenant) == Shard(s, tenant)
  {
  }

  lemma DeleteOwn(s: StoreState, tenant: string, bucket: string, key: string, at: Stamps)
    requires IndexExact(s) && ObjectsNamed(s) && NulFree(tenant) && NulFree(bucket)
    ensures Shard(DeleteObject(s, tenant, bucket, key, at), tenant) ==
            DeleteObject(Shard(s, tenant), tenant, bucket, key, at)
  {
    hide Decremented, ObjectKey, ObjectsNamed;
    var k := ObjectKey(tenant, bucket, key);
    if k in s.index {
      OwnKey(s, tenant, bucket, key);
      DetachOwn(s, tenant, s.index[k], at.dec, at.update);
      RemoveOwn(DetachObject(s, tenant, s.index[k], at.dec, at.update), tenant, k);
    }
  }

  lemma CreateOwn(s: StoreState, id: string, m: Manifest, now: int)
    requires IndexExact(s) && id !in s.objects
    ensures Shard(CreatePending(s, id, m, now), m.tenant) == CreatePending(Shard(s, m.tenant), id, m, now)
  {
    hide TenantObjects;
    var created := CreatePending(s, id, m, now).objects[id];
    ObjectsOwn(s.objects, id, created);
    IndexFresh(s.index, TenantObjects(s.objects, m.tenant).Keys, id);
    hide TenantIndex, IndexExact;
    assert TenantObjects(s.objects[id := created], m.tenant).Keys == TenantObjects(s.objects, m.tenant).Keys + {id};
  }

  lemma IndexFresh(index: map<string, string>, ids: set<string>, id: string)
    requires forall k :: k in index ==> index[k] != id
    ensures TenantIndex(index, ids + {id}) == TenantIndex(index, ids)
  {
  }

  lemma CreateElsewhere(s: StoreState, id: string, m: Manifest, now: int, tenant: string)
    requires id !in s.objects && tenant != m.tenant
    ensures Shard(CreatePending(s, id, m, now), tenant) == Shard(s, tenant)
  {
    hide TenantObjects, TenantIndex;
    ObjectsElsewhere(s.objects, id, CreatePending(s, id, m, now).objects[id], tenant);
  }

  lemma ForgetOwn(s: StoreState, owner: string, hashes: set<string>)
    ensures Shard(ForgetBlocks(s, owner, hashes), owner) == ForgetBlocks(Shard(s, owner), owner, hashes)
    ensures forall tenant :: tenant != owner ==> Shard(ForgetBlocks(s, owner, hashes), tenant) == Shard(s, tenant)
  {
    hide TenantObjects, TenantIndex;
  }

  /** A tenant's operation acts on its shard as on a store of its own. */
  lemma OwnOperation(s: StoreState, op: Op)
    requires IndexExact(s) && ObjectsNamed(s) && Allowed(s, op) && StaysHome(s, op)
    ensures Shard(Apply(s, op), TenantOf(op)) == Apply(Shard(s, TenantOf(op)), op)
  {
    hide Shard, IndexExact, ObjectsNamed, CreatePending, ForgetBlocks, DeleteObject;
    match op
    case OpCommit(id, m, at) => if CanCommit(s, id) { CommitOwn(s, id, m, at); } else { CommitNothing(s, id, m, at); }
    case OpDelete(tenant, bucket, key, at) => DeleteOwn(s, tenant, bucket, key, at);
    case OpCreate(id, m, now) => CreateOwn(s, id, m, now);
    case OpForget(tenant, hashes) => ForgetOwn(s, tenant, hashes);
  }

  lemma CommitNothing(s: StoreState, id: string, m: Manifest, at: Stamps)
    requires !CanCommit(s, id)
    ensures Commit(s, id, m, at) == s && Commit(Shard(s, m.tenant), id, m, at) == Shard(s, m.tenant)
  {
  }

  lemma CommitElsewhere(s: StoreState, id: string, manifest: Manifest, at: Stamps, tenant: string)
    requires IndexExact(s) && ObjectsNamed(s) && SafeNames(manifest) && tenant != manifest.tenant
    requires CanCommit(s, id) && s.objects[id].tenant == manifest.tenant
    ensures Shard(Commit(s, id, manifest, at), tenant) == Shard(s, tenant)
  {
    hide Incremented, Decremented, ObjectKey, ObjectsNamed, Shard;
    var m := CommittedManifest(s, id, manifest, at.update);
    var key := ObjectKey(m.tenant, m.bucket, m.key);
    var s1 := s;
    if key in s.index {
      OwnKey(s, m.tenant, m.bucket, m.key);
      DetachElsewhere(s, m.tenant, s.index[key], at.dec, at.update, tenant);
      s1 := DetachObject(s, m.tenant, s.index[key], at.dec, at.update);
    }
    AttachElsewhere(s1, id, key, m, at.inc, tenant);
    assert Commit(s, id, manifest, at) == Attached(s1, id, key, m, at.inc);
  }

  lemma DeleteElsewhere(s: StoreState, owner: string, bucket: string, key: string, at: Stamps, tenant: string)
    requires IndexExact(s) && ObjectsNamed(s) && NulFree(owner) && NulFree(bucket) && tenant != owner
    ensures Shard(DeleteObject(s, owner, bucket, key, at), tenant) == Shard(s, tenant)
  {
    hide Decremented, ObjectKey, ObjectsNamed, Shard;
    var k := ObjectKey(owner, bucket, key);
    if k in s.index {
      OwnKey(s, owner, bucket, key);
      DetachElsewhere(s, owner, s.index[k], at.dec, at.update, tenant);
      RemoveOwn(DetachObject(s, owner, s.index[k], at.dec, at.update), tenant, k);
    }
  }

  /** It leaves every other tenant's shard alone. */
  lemma OtherOperation(s: StoreState, op: Op, tenant: string)
    requires IndexExact(s) && ObjectsNamed(s) && Allowed(s, op) && StaysHome(s, op) && tenant != TenantOf(op)
    ensures Shard(Apply(s, op), tenant) == Shard(s, tenant)
  {
    hide Shard, IndexExact, ObjectsNamed, CreatePending, ForgetBlocks, DeleteObject;
    match op
    case OpCommit(id, m, at) =>
      if CanCommit(s, id) { CommitElsewhere(s, id, m, at, tenant); } else { CommitNothing(s, id, m, at); }
    case OpDelete(owner, bucket, key, at) => DeleteElsewhere(s, owner, bucket, key, at, tenant);
    case OpCreate(id, m, now) => CreateElsewhere(s, id, m, now, tenant);
    case OpForget(owner, hashes) => ForgetOwn(s, owner, hashes);
  }

  // ---------------------------------------------------------------- database names

  predicate PlainChar(c: char) {
    'a' <= c <= 'z' || 'A' <= c <= 'Z' || '0' <= c <= '9' || c == '-' || c == '_'
  }

  predicate Plain(tenant: string) { tenant != "" && forall c :: c in tenant ==> PlainChar(c) }

  /** The name of a tenant's database file; digest is the head of a hexadecimal digest. */
  function SafeTenant(digest: string -> string, tenant: string): string {
    if tenant == "" then "default"
    else if forall c :: c in tenant ==> PlainChar(c) then tenant
    else "sha256_" + digest(tenant)
  }

  /** The empty tenant is called default, a plain name is its own, and whatever the tenant the file name is plain. */
  lemma SafeNamesArePlain(digest: string -> string, tenant: string)
    ensures tenant == "" ==> SafeTenant(digest, tenant) == "default"
    ensures tenant != "" && (forall i :: 0 <= i < |tenant| ==> Alphanumeric(tenant[i]) || tenant[i] in {'-', '_'}) ==>
              SafeTenant(digest, tenant) == tenant
    ensures (forall i :: 0 <= i < |digest(tenant)| ==> Alphanumeric(digest(tenant)[i])) ==>
              var safe := SafeTenant(digest, tenant);
              |safe| > 0 && forall i :: 0 <= i < |safe| ==> Alphanumeric(safe[i]) || safe[i] in {'-', '_'}
    ensures (exists i :: 0 <= i < |tenant| && !Alphanumeric(tenant[i]) && tenant[i] !in {'-', '_'}) ==>
              SafeTenant(digest, tenant) == "sha256_" + digest(tenant)
  {
    assert forall i :: 0 <= i < |tenant| ==> tenant[i] in tenant;
  }

  predicate Alphanumeric(c: char) { 'a' <= c <= 'z' || 'A' <= c <= 'Z' || '0' <= c <= '9' }

  /** No two of these tenants share a database. */
  predicate Separate(digest: string -> string, tenants: set<string>) {
    forall a, b :: a in tenants && b in tenants && SafeTenant(digest, a) == SafeTenant(digest, b) ==> a == b
  }

  lemma PlainTenantsSeparate(digest: string -> string, tenants: set<string>)
    requires forall tenant :: tenant in tenants ==> Plain(tenant)
    ensures Separate(digest, tenants)
  {
    forall a | a in tenants ensures SafeTenant(digest, a) == a {
      assert Plain(a);
    }
  }
}
