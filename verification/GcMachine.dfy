/**
 Uploads and garbage collection as steps over one shared store and block backend.

 Every in-flight Service.Put and every sweep advances one visible step at a time, in any order.
 Data is safe exactly when each block removal is guarded: the block's count is still zero and no
 in-flight Put of the tenant has already decided to reuse it.
 */
module GcMachine {
  import opened Sums
  import opened Metadata
  import opened ByteData
  import opened Contents

  /** One Put between its pending object and its commit; pieces are the chunk bodies handled so far. */
  datatype PutState = PutState(
    tenant: string, bucket: string, key: string, id: string,
    refs: seq<ChunkRef>, seen: set<string>, writing: Option<Bytes>, pieces: seq<Bytes>)

  /** One batch of one sweep: the listed candidates and those the current delete has removed. */
  datatype Batch = Batch(tenant: string, candidates: set<string>, removed: set<string>)

  /** bodies remembers, for the statement of durability only, what each committed id was given. */
  datatype Sys = Sys(
    store: StoreState, backend: BlockMap, puts: map<nat, PutState>, batches: map<nat, Batch>,
    clock: int, bodies: map<string, seq<Bytes>>)

  const INITIAL := Sys(EMPTY_STORE, map[], map[], map[], 0, map[])

  datatype Step =
    | PutBegin(p: nat, id: string, tenant: string, bucket: string, key: string, now: int)
    | PutChunk(p: nat, data: Bytes)
    | PutWrite(p: nat)
    | PutCommit(p: nat, etag: string, headers: map<string, string>, at: Stamps)
    | PutFail(p: nat)
    | ClientDelete(tenant: string, bucket: string, key: string, at: Stamps)
    | SweepList(w: nat, tenant: string, candidates: set<string>, orphanAge: int, now: int)
    | SweepRemove(w: nat, hash: string)
    | SweepForget(w: nat)
    | SweepStop(w: nat)

  /** The chunk callback's last part: remember the block and append its reference. */
  function Record(sha: Sha, put: PutState, data: Bytes): PutState {
    put.(seen := put.seen + {sha(data)},
         refs := put.refs + [ChunkRef(sha(data), |Concat(put.pieces)|, |data|)],
         pieces := put.pieces + [data],
         writing := None)
  }

  function ManifestOf(put: PutState, etag: string, headers: map<string, string>): Manifest {
    Manifest("", put.tenant, put.bucket, put.key, Pending, |Concat(put.pieces)|, etag, headers, put.refs,
             ZERO_TIME, ZERO_TIME)
  }

  /** A commit stamps its manifest, then the released blocks, then its own. */
  predicate CommitOrder(clock: int, at: Stamps) { clock <= at.update <= at.dec <= at.inc }

  /** A delete stamps the released blocks, then the manifest. */
  predicate DeleteOrder(clock: int, at: Stamps) { clock <= at.dec <= at.update }

  ghost predicate Enabled(sha: Sha, s: Sys, step: Step) {
    match step
    case PutBegin(p, id, tenant, bucket, _, now) =>
      p !in s.puts && id !in s.store.objects && NulFree(tenant) && NulFree(bucket) && s.clock <= now
    case PutChunk(p, data) => p in s.puts && s.puts[p].writing.None?
    case PutWrite(p) => p in s.puts && s.puts[p].writing.Some?
    case PutCommit(p, _, _, at) => p in s.puts && s.puts[p].writing.None? && CommitOrder(s.clock, at)
    case PutFail(p) => p in s.puts
    case ClientDelete(tenant, bucket, _, at) => NulFree(tenant) && NulFree(bucket) && DeleteOrder(s.clock, at)
    case SweepList(w, tenant, candidates, orphanAge, now) =>
      w !in s.batches && s.clock <= now && forall h :: h in candidates ==> Eligible(s.store, tenant, h, now - orphanAge)
    case SweepRemove(w, hash) => w in s.batches && hash in s.batches[w].candidates
    case SweepForget(w) => w in s.batches && s.batches[w].candidates <= s.batches[w].removed
    case SweepStop(w) => w in s.batches
  }

  ghost function Next(sha: Sha, s: Sys, step: Step): Sys
    requires Enabled(sha, s, step)
  {
    match step
    case PutBegin(p, id, tenant, bucket, key, now) =>
      s.(store := CreatePending(s.store, id, NO_MANIFEST.(tenant := tenant, bucket := bucket, key := key), now),
         puts := s.puts[p := PutState(tenant, bucket, key, id, [], {}, None, [])],
         clock := now)
    case PutChunk(p, data) =>
      var put := s.puts[p];
      if sha(data) in put.seen || (put.tenant, sha(data)) in s.backend
      then s.(puts := s.puts[p := Record(sha, put, data)])
      else s.(puts := s.puts[p := put.(writing := Some(data))])
    case PutWrite(p) =>
      var put := s.puts[p];
      var data := put.writing.value;
      var at := (put.tenant, sha(data));
      s.(backend := if at in s.backend then s.backend else s.backend[at := data],
         puts := s.puts[p := Record(sha, put, data)])
    case PutCommit(p, etag, headers, at) =>
      var put := s.puts[p];
      s.(store := Commit(s.store, put.id, ManifestOf(put, etag, headers), at),
         puts := s.puts - {p},
         bodies := s.bodies[put.id := put.pieces],
         clock := at.inc)
    case PutFail(p) => s.(puts := s.puts - {p})
    case ClientDelete(tenant, bucket, key, at) =>
      s.(store := DeleteObject(s.store, tenant, bucket, key, at), clock := at.update)
    case SweepList(w, tenant, candidates, _, now) =>
      s.(batches := s.batches[w := Batch(tenant, candidates, {})], clock := now)
    case SweepRemove(w, hash) =>
      var batch := s.batches[w];
      s.(backend := s.backend - {(batch.tenant, hash)},
         batches := s.batches[w := batch.(removed := batch.removed + {hash})])
    case SweepForget(w) =>
      s.(store := ForgetBlocks(s.store, s.batches[w].tenant, s.batches[w].candidates),
         batches := s.batches - {w})
    case SweepStop(w) => s.(batches := s.batches - {w})
  }

  /** What the code does not check between listing and deleting. */
  ghost predicate RemovalGuard(s: Sys, tenant: string, hash: string) {
    && RefOf(s.store, tenant, hash) == 0
    && forall p :: p in s.puts && s.puts[p].tenant == tenant ==> hash !in s.puts[p].seen
  }

  ghost predicate Guarded(s: Sys, step: Step) {
    step.SweepRemove? && step.w in s.batches ==> RemovalGuard(s, s.batches[step.w].tenant, step.hash)
  }

  ghost function Run(sha: Sha, s: Sys, steps: seq<Step>): Sys
    requires AllEnabled(sha, s, steps)
    decreases |steps|
  {
    if |steps| == 0 then s else Run(sha, Next(sha, s, steps[0]), steps[1..])
  }

  ghost predicate AllEnabled(sha: Sha, s: Sys, steps: seq<Step>)
    decreases |steps|
  {
    |steps| == 0 || (Enabled(sha, s, steps[0]) && AllEnabled(sha, Next(sha, s, steps[0]), steps[1..]))
  }

  ghost predicate AllGuarded(sha: Sha, s: Sys, steps: seq<Step>)
    requires AllEnabled(sha, s, steps)
    decreases |steps|
  {
    |steps| == 0 || (Guarded(s, steps[0]) && AllGuarded(sha, Next(sha, s, steps[0]), steps[1..]))
  }

  // ---------------------------------------------------------------- invariant

  /** Every chunk of every committed manifest has a block. */
  ghost predicate NoDangling(s: Sys) {
    forall id, c ::
      id in s.store.objects && s.store.objects[id].state == Committed && c in s.store.objects[id].chunks ==>
      (s.store.objects[id].tenant, c.hash) in s.backend
  }

  ghost predicate PutOk(sha: Sha, s: Sys, put: PutState) {
    && NulFree(put.tenant) && NulFree(put.bucket)
    && put.id in s.store.objects && s.store.objects[put.id].state == Pending
    && s.store.objects[put.id].tenant == put.tenant
    && s.store.objects[put.id].bucket == put.bucket && s.store.objects[put.id].key == put.key
    && put.refs == RefsOf(sha, put.pieces)
    && put.seen == HashSet(put.refs)
    && (forall h :: h in put.seen ==> (put.tenant, h) in s.backend)
    && (put.writing.Some? ==> sha(put.writing.value) !in put.seen)
  }

  ghost predicate BodiesKept(sha: Sha, s: Sys) {
    forall id :: id in s.store.objects && s.store.objects[id].state == Committed ==>
      id in s.bodies && s.store.objects[id].chunks == RefsOf(sha, s.bodies[id])
  }

  ghost predicate SysInv(sha: Sha, s: Sys) {
    && Inv(s.store)
    && NoDangling(s)
    && ContentNamed(sha, s.backend)
    && (forall p :: p in s.puts ==> PutOk(sha, s, s.puts[p]))
    && (forall p, q :: p in s.puts && q in s.puts && p != q ==> s.puts[p].id != s.puts[q].id)
    && BodiesKept(sha, s)
  }

  // ---------------------------------------------------------------- every guarded step is safe

  lemma RecordKeepsPut(sha: Sha, put: PutState, data: Bytes)
    requires put.refs == RefsOf(sha, put.pieces) && put.seen == HashSet(put.refs)
    ensures var r := Record(sha, put, data); r.refs == RefsOf(sha, r.pieces) && r.seen == HashSet(r.refs)
  {
    var r := Record(sha, put, data);
    assert r.pieces[..|r.pieces| - 1] == put.pieces;
    assert HashSet(r.refs) == HashSet(put.refs) + {sha(data)};
  }

  lemma BeginKeeps(sha: Sha, s: Sys, step: Step)
    requires step.PutBegin? && SysInv(sha, s) && Enabled(sha, s, step)
    ensures SysInv(sha, Next(sha, s, step))
  {
    var s1 := Next(sha, s, step);
    var template := NO_MANIFEST.(tenant := step.tenant, bucket := step.bucket, key := step.key);
    CreateKeepsInv(s.store, step.id, template, step.now);
    forall p | p in s1.puts ensures PutOk(sha, s1, s1.puts[p]) {
      if p != step.p { assert PutOk(sha, s, s.puts[p]); }
    }
  }

  /** Replacing one in-flight Put by a sound state of the same Put keeps the invariant. */
  lemma PutStepKeeps(sha: Sha, s: Sys, p: nat, put: PutState)
    requires SysInv(sha, s) && p in s.puts && PutOk(sha, s, put) && put.id == s.puts[p].id
    ensures SysInv(sha, s.(puts := s.puts[p := put]))
  {
    hide Inv, RefsOf, ContentNamed, HashSet;
    var s1 := s.(puts := s.puts[p := put]);
    forall q | q in s1.puts ensures PutOk(sha, s1, s1.puts[q]) {
      if q != p { assert PutOk(sha, s, s.puts[q]); }
    }
  }

  lemma ChunkKeeps(sha: Sha, s: Sys, step: Step)
    requires step.PutChunk? && SysInv(sha, s) && Enabled(sha, s, step)
    ensures SysInv(sha, Next(sha, s, step))
  {
    var put := s.puts[step.p];
    assert PutOk(sha, s, put);
    RecordKeepsPut(sha, put, step.data);
    if sha(step.data) in put.seen || (put.tenant, sha(step.data)) in s.backend {
      PutStepKeeps(sha, s, step.p, Record(sha, put, step.data));
    } else {
      PutStepKeeps(sha, s, step.p, put.(writing := Some(step.data)));
    }
  }

  lemma WriteKeeps(sha: Sha, s: Sys, step: Step)
    requires step.PutWrite? && SysInv(sha, s) && Enabled(sha, s, step)
    ensures SysInv(sha, Next(sha, s, step))
  {
    hide Inv, RefsOf;
    var s1 := Next(sha, s, step);
    assert PutOk(sha, s, s.puts[step.p]);
    RecordKeepsPut(sha, s.puts[step.p], s.puts[step.p].writing.value);
    forall p | p in s1.puts ensures PutOk(sha, s1, s1.puts[p]) {
      if p != step.p { assert PutOk(sha, s, s.puts[p]); }
    }
  }

  /** Committing turns the Put's own manifest into one of its chunks; another may turn from committed to deleted. */
  lemma PutCommitEffect(s: StoreState, put: PutState, etag: string, headers: map<string, string>, at: Stamps)
    requires Inv(s) && put.id in s.objects && s.objects[put.id].state == Pending
    ensures var s1 := Commit(s, put.id, ManifestOf(put, etag, headers), at);
            && s1.objects.Keys == s.objects.Keys
            && s1.objects[put.id].state == Committed
            && s1.objects[put.id].chunks == put.refs && s1.objects[put.id].tenant == put.tenant
            && forall id :: id in s1.objects && id != put.id ==>
                 || s1.objects[id] == s.objects[id]
                 || (s.objects[id].state == Committed && s1.objects[id].state == Deleted)
  {
    CommitShape(s, put.id, ManifestOf(put, etag, headers), at);
  }

  lemma CommitKeepsPuts(sha: Sha, s: Sys, step: Step, p: nat)
    requires step.PutCommit? && SysInv(sha, s) && Enabled(sha, s, step) && p in Next(sha, s, step).puts
    ensures PutOk(sha, Next(sha, s, step), Next(sha, s, step).puts[p])
  {
    hide Inv, Commit, RefsOf, NoDangling, ContentNamed, BodiesKept;
    assert PutOk(sha, s, s.puts[step.p]) && PutOk(sha, s, s.puts[p]);
    PutCommitEffect(s.store, s.puts[step.p], step.etag, step.headers, step.at);
  }

  lemma CommitKeepsBlocks(sha: Sha, s: Sys, step: Step)
    requires step.PutCommit? && SysInv(sha, s) && Enabled(sha, s, step)
    ensures NoDangling(Next(sha, s, step)) && BodiesKept(sha, Next(sha, s, step))
  {
    hide Inv, Commit, RefsOf, ContentNamed;
    var s1 := Next(sha, s, step);
    var put := s.puts[step.p];
    assert PutOk(sha, s, put);
    PutCommitEffect(s.store, put, step.etag, step.headers, step.at);
    forall id, c | id in s1.store.objects && s1.store.objects[id].state == Committed && c in s1.store.objects[id].chunks
      ensures (s1.store.objects[id].tenant, c.hash) in s1.backend
    {
      if id == put.id {
        assert c.hash in HashSet(put.refs);
      }
    }
  }

  lemma CommitKeeps(sha: Sha, s: Sys, step: Step)
    requires step.PutCommit? && SysInv(sha, s) && Enabled(sha, s, step)
    ensures SysInv(sha, Next(sha, s, step))
  {
    hide Inv, Commit, RefsOf, NoDangling, BodiesKept;
    var put := s.puts[step.p];
    assert PutOk(sha, s, put);
    hide PutOk;
    CommitKeepsInv(s.store, put.id, ManifestOf(put, step.etag, step.headers), step.at) by {
      assert NulFree(put.tenant) && NulFree(put.bucket);
    }
    CommitKeepsBlocks(sha, s, step);
    forall p | p in Next(sha, s, step).puts ensures PutOk(sha, Next(sha, s, step), Next(sha, s, step).puts[p]) {
      CommitKeepsPuts(sha, s, step, p);
    }
  }

  /** Deleting leaves every manifest as it was, except that one may turn from committed to deleted. */
  lemma DeleteShape(s: StoreState, tenant: string, bucket: string, key: string, at: Stamps)
    requires Inv(s)
    ensures var s1 := DeleteObject(s, tenant, bucket, key, at);
            forall id :: (id in s1.objects <==> id in s.objects) &&
              (id in s1.objects ==>
                 || s1.objects[id] == s.objects[id]
                 || (s.objects[id].state == Committed && s1.objects[id].state == Deleted))
  {
    hide CountsExact, ObjectsNamed;
  }

  lemma ClientDeleteKeeps(sha: Sha, s: Sys, step: Step)
    requires step.ClientDelete? && SysInv(sha, s) && Enabled(sha, s, step)
    ensures SysInv(sha, Next(sha, s, step))
  {
    hide Inv, DeleteObject, RefsOf;
    var s1 := Next(sha, s, step);
    DeleteShape(s.store, step.tenant, step.bucket, step.key, step.at);
    DeleteKeepsInv(s.store, step.tenant, step.bucket, step.key, step.at);
    forall p | p in s1.puts ensures PutOk(sha, s1, s1.puts[p]) {
      assert PutOk(sha, s, s.puts[p]);
    }
  }

  lemma RemoveKeeps(sha: Sha, s: Sys, step: Step)
    requires step.SweepRemove? && SysInv(sha, s) && Enabled(sha, s, step) && Guarded(s, step)
    ensures SysInv(sha, Next(sha, s, step))
  {
    var s1 := Next(sha, s, step);
    forall p | p in s1.puts ensures PutOk(sha, s1, s1.puts[p]) {
      assert PutOk(sha, s, s.puts[p]);
    }
    forall id, c | id in s1.store.objects && s1.store.objects[id].state == Committed && c in s1.store.objects[id].chunks
      ensures (s1.store.objects[id].tenant, c.hash) in s1.backend
    {
      ReferencedIsCounted(s.store, id, c);
    }
  }

  /** Every guarded step of every actor keeps the invariant. */
  lemma GuardedStepKeeps(sha: Sha, s: Sys, step: Step)
    requires SysInv(sha, s) && Enabled(sha, s, step) && Guarded(s, step)
    ensures SysInv(sha, Next(sha, s, step))
  {
    var s1 := Next(sha, s, step);
    match step
    case PutBegin(_, _, _, _, _, _) => BeginKeeps(sha, s, step);
    case PutChunk(_, _) => ChunkKeeps(sha, s, step);
    case PutWrite(_) => WriteKeeps(sha, s, step);
    case PutCommit(_, _, _, _) => CommitKeeps(sha, s, step);
    case ClientDelete(_, _, _, _) => ClientDeleteKeeps(sha, s, step);
    case SweepRemove(_, _) => RemoveKeeps(sha, s, step);
    case SweepForget(w) =>
      ForgetKeepsInv(s.store, s.batches[w].tenant, s.batches[w].candidates);
      forall p | p in s1.puts ensures PutOk(sha, s1, s1.puts[p]) { assert PutOk(sha, s, s.puts[p]); }
    case PutFail(_) =>
      forall p | p in s1.puts ensures PutOk(sha, s1, s1.puts[p]) { assert PutOk(sha, s, s.puts[p]); }
    case SweepList(_, _, _, _, _) =>
      forall p | p in s1.puts ensures PutOk(sha, s1, s1.puts[p]) { assert PutOk(sha, s, s.puts[p]); }
    case SweepStop(_) =>
      forall p | p in s1.puts ensures PutOk(sha, s1, s1.puts[p]) { assert PutOk(sha, s, s.puts[p]); }
  }

  lemma {:induction false} GuardedRunKeeps(sha: Sha, s: Sys, steps: seq<Step>)
    requires SysInv(sha, s) && AllEnabled(sha, s, steps) && AllGuarded(sha, s, steps)
    ensures SysInv(sha, Run(sha, s, steps))
    decreases |steps|
  {
    if |steps| != 0 {
      GuardedStepKeeps(sha, s, steps[0]);
      GuardedRunKeeps(sha, Next(sha, s, steps[0]), steps[1..]);
    }
  }

  lemma InitialInv(sha: Sha)
    ensures SysInv(sha, INITIAL)
  {
    EmptyStoreInv();
  }

  /** Safety over all guarded runs: nothing dangles and every block hashes to its name. */
  lemma GuardedRunsAreSafe(sha: Sha, steps: seq<Step>)
    requires AllEnabled(sha, INITIAL, steps) && AllGuarded(sha, INITIAL, steps)
    ensures NoDangling(Run(sha, INITIAL, steps))
    ensures ContentNamed(sha, Run(sha, INITIAL, steps).backend)
  {
    InitialInv(sha);
    GuardedRunKeeps(sha, INITIAL, steps);
  }

  // ---------------------------------------------------------------- durability

  /** After any guarded run, reading a committed object returns exactly the body it was stored with. */
  lemma GuardedRunsAreDurable(sha: Sha, steps: seq<Step>, id: string)
    requires AllEnabled(sha, INITIAL, steps) && AllGuarded(sha, INITIAL, steps)
    requires var s := Run(sha, INITIAL, steps);
             id in s.store.objects && s.store.objects[id].state == Committed &&
             (id in s.bodies ==> CollisionFree(sha, s.backend, s.bodies[id]))
    ensures var s := Run(sha, INITIAL, steps);
            && id in s.bodies
            && NoDangling(s)
            && Assemble(s.backend, s.store.objects[id].tenant, s.store.objects[id].chunks) == Concat(s.bodies[id])
  {
    InitialInv(sha);
    GuardedRunKeeps(sha, INITIAL, steps);
    var s := Run(sha, INITIAL, steps);
    AssembleRefs(sha, s.backend, s.store.objects[id].tenant, s.bodies[id]);
  }

  // ---------------------------------------------------------------- the guard is exact

  /** The steps with which a Put that holds a removed block still completes. */
  function Completion(s: Sys, p: nat): seq<Step>
    requires p in s.puts
  {
    var commit := [PutCommit(p, "", map[], Stamps(s.clock, s.clock, s.clock))];
    if s.puts[p].writing.Some? then [PutWrite(p)] + commit else commit
  }

  /** A Put that has seen a block commits a manifest that names it, whether or not the block is still there. */
  lemma CompletionDangles(sha: Sha, s: Sys, p: nat, hash: string)
    requires p in s.puts && IndexExact(s.store)
    requires s.puts[p].id in s.store.objects && s.store.objects[s.puts[p].id].state == Pending
    requires s.puts[p].writing.Some? ==> sha(s.puts[p].writing.value) != hash
    requires hash in HashSet(s.puts[p].refs)
    requires (s.puts[p].tenant, hash) !in s.backend
    ensures var steps := Completion(s, p);
            && AllEnabled(sha, s, steps) && AllGuarded(sha, s, steps)
            && !NoDangling(Run(sha, s, steps))
  {
    var commit := PutCommit(p, "", map[], Stamps(s.clock, s.clock, s.clock));
    if s.puts[p].writing.Some? {
      var s1 := Next(sha, s, PutWrite(p));
      RecordKeepsRefs(sha, s.puts[p], s.puts[p].writing.value);
      CommitDangles(sha, s1, p, hash, commit);
      RunCons(sha, s, PutWrite(p), [commit]);
    } else {
      CommitDangles(sha, s, p, hash, commit);
    }
  }

  lemma RecordKeepsRefs(sha: Sha, put: PutState, data: Bytes)
    ensures HashSet(put.refs) <= HashSet(Record(sha, put, data).refs)
  {
  }

  /** Running a step and then the rest. */
  lemma RunCons(sha: Sha, s: Sys, step: Step, rest: seq<Step>)
    requires Enabled(sha, s, step) && Guarded(s, step)
    requires AllEnabled(sha, Next(sha, s, step), rest) && AllGuarded(sha, Next(sha, s, step), rest)
    ensures AllEnabled(sha, s, [step] + rest) && AllGuarded(sha, s, [step] + rest)
    ensures Run(sha, s, [step] + rest) == Run(sha, Next(sha, s, step), rest)
  {
    hide Next, Enabled, Guarded;
    assert ([step] + rest)[1..] == rest;
  }

  lemma CommitDangles(sha: Sha, s: Sys, p: nat, hash: string, commit: Step)
    requires p in s.puts && IndexExact(s.store) && s.puts[p].writing.None?
    requires s.puts[p].id in s.store.objects && s.store.objects[s.puts[p].id].state == Pending
    requires hash in HashSet(s.puts[p].refs) && (s.puts[p].tenant, hash) !in s.backend
    requires commit.PutCommit? && commit.p == p && Enabled(sha, s, commit)
    ensures AllEnabled(sha, s, [commit]) && AllGuarded(sha, s, [commit]) && !NoDangling(Run(sha, s, [commit]))
  {
    hide Commit, CountsExact;
    var put, s1 := s.puts[p], Next(sha, s, commit);
    CommitShape(s.store, put.id, ManifestOf(put, commit.etag, commit.headers), commit.at);
    var c :| c in put.refs && c.hash == hash;
    assert s1.store.objects[put.id].state == Committed && c in s1.store.objects[put.id].chunks;
    assert [commit][1..] == [];
    assert Run(sha, s, [commit]) == s1;
  }

  /** Data survives every guarded continuation. */
  ghost predicate SafeAfter(sha: Sha, s: Sys) {
    forall steps :: AllEnabled(sha, s, steps) && AllGuarded(sha, s, steps) ==> NoDangling(Run(sha, s, steps))
  }

  /** A removal is safe exactly when the guard holds at that moment. */
  lemma RemovalSafeIffGuarded(sha: Sha, s: Sys, w: nat, hash: string)
    requires SysInv(sha, s) && Enabled(sha, s, SweepRemove(w, hash))
    ensures SafeAfter(sha, Next(sha, s, SweepRemove(w, hash))) <==> RemovalGuard(s, s.batches[w].tenant, hash)
  {
    var step := SweepRemove(w, hash);
    var tenant := s.batches[w].tenant;
    var s1 := Next(sha, s, step);
    if RemovalGuard(s, tenant, hash) {
      GuardedStepKeeps(sha, s, step);
      forall steps | AllEnabled(sha, s1, steps) && AllGuarded(sha, s1, steps) ensures NoDangling(Run(sha, s1, steps)) {
        GuardedRunKeeps(sha, s1, steps);
      }
    } else if RefOf(s.store, tenant, hash) != 0 {
      var id, c := CountedIsReferenced(s.store, tenant, hash);
      assert !NoDangling(s1);
      assert Run(sha, s1, []) == s1 && AllEnabled(sha, s1, []) && AllGuarded(sha, s1, []);
    } else {
      var p :| p in s.puts && s.puts[p].tenant == tenant && hash in s.puts[p].seen;
      assert PutOk(sha, s, s.puts[p]);
      CompletionDangles(sha, s1, p, hash);
      assert !NoDangling(Run(sha, s1, Completion(s1, p)));
    }
  }

  // ---------------------------------------------------------------- the orphan age is not the guard

  /** The steps lead from the initial state to s. */
  ghost predicate Leads(sha: Sha, from: Sys, steps: seq<Step>, s: Sys) {
    AllEnabled(sha, from, steps) && Run(sha, from, steps) == s
  }

  lemma {:induction false} LeadsSnoc(sha: Sha, from: Sys, steps: seq<Step>, s: Sys, step: Step)
    requires Leads(sha, from, steps, s) && Enabled(sha, s, step)
    ensures Leads(sha, from, steps + [step], Next(sha, s, step))
    decreases |steps|
  {
    var all := steps + [step];
    if |steps| == 0 {
      assert all == [step] && all[1..] == [];
    } else {
      assert all[1..] == steps[1..] + [step] && all[0] == steps[0];
      LeadsSnoc(sha, Next(sha, from, steps[0]), steps[1..], s, step);
    }
  }

  /** A block nobody refers to any more, and a fresh id to upload it again. */
  ghost predicate Orphaned(s: Sys, hash: string) {
    && s.puts == map[] && s.batches == map[] && IndexExact(s.store) && "b" !in s.store.objects
    && ("t", hash) in s.backend
    && Eligible(s.store, "t", hash, s.clock)
  }

  predicate NoListing(steps: seq<Step>) {
    forall i :: 0 <= i < |steps| ==> !steps[i].SweepList?
  }

  lemma Advance(sha: Sha, steps: seq<Step>, s: Sys, step: Step)
    requires Leads(sha, INITIAL, steps, s) && NoListing(steps) && SysInv(sha, s)
    requires Enabled(sha, s, step) && Guarded(s, step) && !step.SweepList?
    ensures Leads(sha, INITIAL, steps + [step], Next(sha, s, step)) && NoListing(steps + [step])
    ensures SysInv(sha, Next(sha, s, step))
  {
    LeadsSnoc(sha, INITIAL, steps, s, step);
    GuardedStepKeeps(sha, s, step);
  }

  function FirstPut(): PutState { PutState("t", "b", "k", "a", [], {}, None, []) }

  lemma BeginOne(sha: Sha) returns (steps: seq<Step>, s: Sys)
    ensures Leads(sha, INITIAL, steps, s) && NoListing(steps) && SysInv(sha, s)
    ensures s.puts == map[0 := FirstPut()] && s.backend == map[] && s.batches == map[] && s.clock == 1
    ensures s.store.objects.Keys == {"a"} && s.store.index == map[]
  {
    var step := PutBegin(0, "a", "t", "b", "k", 1);
    InitialInv(sha);
    Advance(sha, [], INITIAL, step);
    steps, s := [] + [step], Next(sha, INITIAL, step);
  }

  /** Upload one block. */
  lemma UploadOne(sha: Sha, data: Bytes) returns (steps: seq<Step>, s: Sys)
    ensures Leads(sha, INITIAL, steps, s) && NoListing(steps) && SysInv(sha, s)
    ensures s.puts == map[0 := Record(sha, FirstPut(), data)] && s.batches == map[] && s.clock == 1
    ensures ("t", sha(data)) in s.backend
    ensures s.store.objects.Keys == {"a"} && s.store.index == map[]
  {
    var s0;
    steps, s0 := BeginOne(sha);
    var step := PutChunk(0, data);
    var s1 := s0.(puts := map[0 := FirstPut().(writing := Some(data))]);
    assert Next(sha, s0, step).puts == s1.puts;
    Advance(sha, steps, s0, step);
    steps := steps + [step];
    step := PutWrite(0);
    s := Next(sha, s1, step);
    assert s.puts == map[0 := Record(sha, FirstPut(), data)];
    Advance(sha, steps, s1, step);
    steps := steps + [step];
  }

  lemma CommitEffect(sha: Sha, s: Sys, step: Step)
    requires step.PutCommit? && Enabled(sha, s, step) && IndexExact(s.store)
    requires var put := s.puts[step.p];
             CanCommit(s.store, put.id) && ObjectKey(put.tenant, put.bucket, put.key) !in s.store.index
    ensures var put := s.puts[step.p];
            var s1 := Next(sha, s, step);
            && s1.store.objects.Keys == s.store.objects.Keys
            && s1.store.objects[put.id].state == Committed
            && s1.store.objects[put.id].tenant == put.tenant
            && s1.store.objects[put.id].chunks == put.refs
            && s1.store.index == s.store.index[ObjectKey(put.tenant, put.bucket, put.key) := put.id]
  {
    CommitShape(s.store, s.puts[step.p].id, ManifestOf(s.puts[step.p], step.etag, step.headers), step.at);
  }

  lemma CommitOne(sha: Sha, data: Bytes) returns (steps: seq<Step>, s: Sys)
    ensures Leads(sha, INITIAL, steps, s) && NoListing(steps) && SysInv(sha, s)
    ensures s.puts == map[] && s.batches == map[] && s.clock == 2
    ensures ("t", sha(data)) in s.backend
    ensures s.store.objects.Keys == {"a"} && s.store.objects["a"].state == Committed
    ensures s.store.objects["a"].chunks == [ChunkRef(sha(data), 0, |data|)] && s.store.objects["a"].tenant == "t"
    ensures s.store.index == map[ObjectKey("t", "b", "k") := "a"]
  {
    var s0;
    hide CountsExact, ContentNamed, NoDangling, BodiesKept;
    steps, s0 := UploadOne(sha, data);
    assert PutOk(sha, s0, s0.puts[0]);
    var step := PutCommit(0, "", map[], Stamps(2, 2, 2));
    CommitEffect(sha, s0, step);
    Advance(sha, steps, s0, step);
    steps, s := steps + [step], Next(sha, s0, step);
    assert s.puts == map[];
  }

  /** Commit it as an object and delete the object again. */
  lemma OrphanABlock(sha: Sha, data: Bytes) returns (steps: seq<Step>, s: Sys)
    ensures Leads(sha, INITIAL, steps, s) && NoListing(steps)
    ensures Orphaned(s, sha(data))
  {
    var s0;
    steps, s0 := CommitOne(sha, data);
    var c := ChunkRef(sha(data), 0, |data|);
    OneReference(s0.store, "a", c);
    DeleteOnly(s0.store, c, Stamps(3, 3, 3));
    var step := ClientDelete("t", "b", "k", Stamps(3, 3, 3));
    Advance(sha, steps, s0, step);
    steps, s := steps + [step], Next(sha, s0, step);
  }

  lemma OneReference(s: StoreState, id: string, c: ChunkRef)
    requires Inv(s)
    requires s.objects.Keys == {id} && s.objects[id].state == Committed && s.objects[id].chunks == [c]
    ensures RefOf(s, s.objects[id].tenant, c.hash) == 1
  {
    var tenant := s.objects[id].tenant;
    var parts := Contributions(s.objects, tenant, c.hash);
    assert [c][..0] == [];
    assert Count([c], c.hash) == 1;
    assert parts.Keys == {id} && parts[id] == 1;
    SumRemove(parts, id);
    SumZero(parts - {id});
    assert RefOf(s, tenant, c.hash) == References(s.objects, tenant, c.hash);
  }

  lemma DeleteOnly(s: StoreState, c: ChunkRef, at: Stamps)
    requires Inv(s) && s.objects.Keys == {"a"} && s.objects["a"].state == Committed
    requires s.objects["a"].chunks == [c] && RefOf(s, "t", c.hash) == 1
    requires s.index == map[ObjectKey("t", "b", "k") := "a"]
    ensures var s1 := DeleteObject(s, "t", "b", "k", at);
            Eligible(s1, "t", c.hash, at.dec) && s1.objects.Keys == {"a"}
  {
    assert [c][..0] == [];
    assert Count([c], c.hash) == 1;
    assert HashSet([c]) == {c.hash};
  }

  /** The upload that reuses the block begins, is listed against and commits at one and the same instant. */
  predicate OneInstant(steps: seq<Step>, begin: nat) {
    && begin + 5 == |steps|
    && steps[begin].PutBegin? && steps[begin + 2].SweepList? && steps[begin + 4].PutCommit?
    && steps[begin + 4].p == steps[begin].p
    && steps[begin].now == steps[begin + 2].now
    && steps[begin + 4].at == Stamps(steps[begin].now, steps[begin].now, steps[begin].now)
  }

  /**
   For every orphan age there is a run in which a block that has been unreferenced for that long
   is removed under an upload that has just decided to reuse it, and the upload then commits.  No time
   passes between the upload's first step and its last.
   */
  lemma OrphanAgeAloneIsUnsafe(sha: Sha, data: Bytes, orphanAge: nat) returns (steps: seq<Step>, begin: nat)
    ensures AllEnabled(sha, INITIAL, steps)
    ensures forall i :: 0 <= i < |steps| && steps[i].SweepList? ==> steps[i].orphanAge == orphanAge
    ensures OneInstant(steps, begin)
    ensures !NoDangling(Run(sha, INITIAL, steps))
  {
    hide Leads, Reusing, Orphaned, NoDangling, Eligible;
    var s;
    steps, s := OrphanABlock(sha, data);
    begin := |steps|;
    steps, s := ReuseIt(sha, data, orphanAge, steps, s);
    steps, s := SweepUnderneath(sha, data, orphanAge, steps, s);
    steps := CommitWithout(sha, data, steps, s);
  }

  lemma CommitWithout(sha: Sha, data: Bytes, steps: seq<Step>, s: Sys) returns (steps': seq<Step>)
    requires Leads(sha, INITIAL, steps, s) && Reusing(s, sha(data)) && ("t", sha(data)) !in s.backend
    ensures steps' == steps + [PutCommit(1, "", map[], Stamps(s.clock, s.clock, s.clock))]
    ensures AllEnabled(sha, INITIAL, steps') && !NoDangling(Run(sha, INITIAL, steps'))
  {
    hide Next, Enabled, NoDangling;
    CompletionDangles(sha, s, 1, sha(data));
    var step := Completion(s, 1)[0];
    assert Completion(s, 1) == [step];
    LeadsThen(sha, steps, s, step);
    steps' := steps + [step];
  }

  lemma LeadsThen(sha: Sha, steps: seq<Step>, s: Sys, step: Step)
    requires Leads(sha, INITIAL, steps, s) && AllEnabled(sha, s, [step])
    ensures Leads(sha, INITIAL, steps + [step], Run(sha, s, [step]))
  {
    hide Next, Enabled;
    LeadsSnoc(sha, INITIAL, steps, s, step);
    assert [step][1..] == [];
  }

  /** A second upload finds the orphaned block, the orphan age later, and decides not to write it. */
  lemma ReuseIt(sha: Sha, data: Bytes, orphanAge: nat, steps: seq<Step>, s: Sys) returns (steps': seq<Step>, s': Sys)
    requires Leads(sha, INITIAL, steps, s) && NoListing(steps) && Orphaned(s, sha(data))
    ensures Leads(sha, INITIAL, steps', s') && NoListing(steps')
    ensures steps' == steps + [PutBegin(1, "b", "t", "b", "k", s.clock + orphanAge), PutChunk(1, data)]
    ensures Reusing(s', sha(data)) && s'.batches == map[] && s'.clock == s.clock + orphanAge
    ensures Eligible(s'.store, "t", sha(data), s'.clock - orphanAge)
  {
    var begin, chunk := PutBegin(1, "b", "t", "b", "k", s.clock + orphanAge), PutChunk(1, data);
    LeadsSnoc(sha, INITIAL, steps, s, begin);
    var s1 := Next(sha, s, begin);
    LeadsSnoc(sha, INITIAL, steps + [begin], s1, chunk);
    steps', s' := steps + [begin] + [chunk], Next(sha, s1, chunk);
    assert s'.puts[1].refs == [ChunkRef(sha(data), 0, |data|)];
    assert s'.puts[1].refs[0] in s'.puts[1].refs;
  }

  /** The upload holds the block among its references and has no block left to write. */
  ghost predicate Reusing(s: Sys, hash: string) {
    && IndexExact(s.store)
    && 1 in s.puts && s.puts[1].tenant == "t" && s.puts[1].id == "b" && s.puts[1].writing.None?
    && hash in HashSet(s.puts[1].refs)
    && "b" in s.store.objects && s.store.objects["b"].state == Pending
  }

  /** A sweep lists the block at that same instant and removes it. */
  lemma SweepUnderneath(sha: Sha, data: Bytes, orphanAge: nat, steps: seq<Step>, s: Sys)
    returns (steps': seq<Step>, s': Sys)
    requires Leads(sha, INITIAL, steps, s) && Reusing(s, sha(data)) && s.batches == map[]
    requires Eligible(s.store, "t", sha(data), s.clock - orphanAge)
    ensures Leads(sha, INITIAL, steps', s') && Reusing(s', sha(data)) && s'.clock == s.clock
    ensures steps' == steps + [SweepList(0, "t", {sha(data)}, orphanAge, s.clock), SweepRemove(0, sha(data))]
    ensures ("t", sha(data)) !in s'.backend
  {
    hide IndexExact, Eligible, HashSet;
    var list, remove := SweepList(0, "t", {sha(data)}, orphanAge, s.clock), SweepRemove(0, sha(data));
    LeadsSnoc(sha, INITIAL, steps, s, list);
    var s1 := Next(sha, s, list);
    LeadsSnoc(sha, INITIAL, steps + [list], s1, remove);
    steps', s' := steps + [list] + [remove], Next(sha, s1, remove);
  }
}
