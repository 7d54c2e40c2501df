/** The garbage-collection sweep over a metadata store and a block store. */
module Sweepers {
  import opened Contents
  import opened Metadata
  import opened MemoryStores
  import opened Backends
  import opened Sums

  const DEFAULT_MIN_ORPHAN_AGE := 86400
  const DEFAULT_BATCH_SIZE := 1000
  const DEFAULT_MAX_RETRIES := 3

  datatype Result = Result(scannedTenants: int, candidateBlocks: int, deletedBlocks: int, failures: int)

  function EligibleSet(s: StoreState, tenant: string, cutoff: int): set<string> {
    set h | h in TenantBlocks(s, tenant) && Eligible(s, tenant, h, cutoff)
  }

  /** The metadata once every eligible block of every tenant is forgotten. */
  function Swept(s: StoreState, cutoff: int): StoreState {
    s.(blocks := map t | t in s.blocks :: s.blocks[t] - EligibleSet(s, t, cutoff))
  }

  function SweptBackend(s: StoreState, backend: BlockMap, cutoff: int): BlockMap {
    map at | at in backend && !Eligible(s, at.0, at.1, cutoff) :: backend[at]
  }

  ghost function EligibleCounts(s: StoreState, cutoff: int): map<string, int> {
    map t | t in s.blocks :: |EligibleSet(s, t, cutoff)|
  }

  ghost function TotalEligible(s: StoreState, cutoff: int): int { Sum(EligibleCounts(s, cutoff)) }

  /** Whatever happened, only eligible blocks are gone, and no block is forgotten before it is deleted. */
  ghost predicate PartlySwept(s: StoreState, backend: BlockMap, s': StoreState, backend': BlockMap, cutoff: int) {
    && s'.objects == s.objects && s'.index == s.index && s'.blocks.Keys == s.blocks.Keys
    && (forall t :: t in s.blocks ==>
          && s'.blocks[t].Keys <= s.blocks[t].Keys
          && (forall h :: h in s'.blocks[t] ==> s'.blocks[t][h] == s.blocks[t][h])
          && (forall h :: h in s.blocks[t] && h !in s'.blocks[t] ==> Eligible(s, t, h, cutoff) && (t, h) !in backend'))
    && backend'.Keys <= backend.Keys
    && (forall at :: at in backend' ==> backend'[at] == backend[at])
    && (forall at :: at in backend && at !in backend' ==> Eligible(s, at.0, at.1, cutoff))
  }

  /** Blocks of the first tenants are swept exactly, the others untouched. */
  ghost predicate SweptUpTo(s: StoreState, backend: BlockMap, s': StoreState, backend': BlockMap, cutoff: int,
                            done: set<string>) {
    && (forall t :: t in s.blocks ==>
          && t in s'.blocks
          && s'.blocks[t] == if t in done then s.blocks[t] - EligibleSet(s, t, cutoff) else s.blocks[t])
    && (forall at :: at in backend && at !in backend' <==>
          at in backend && at.0 in done && Eligible(s, at.0, at.1, cutoff))
  }

  lemma {:induction false} DistinctSize(hashes: seq<string>)
    requires Distinct(hashes)
    ensures |ToSet(hashes)| == |hashes|
  {
    if |hashes| != 0 {
      var n := |hashes| - 1;
      DistinctSize(hashes[..n]);
      assert ToSet(hashes) == ToSet(hashes[..n]) + {hashes[n]};
    }
  }

  lemma ForgetZeros(s: StoreState, tenant: string, hashes: seq<string>)
    requires tenant in s.blocks
    requires forall h :: h in hashes ==> h in s.blocks[tenant] && s.blocks[tenant][h].refCount == 0
    ensures ForgetBlocks(s, tenant, ToSet(hashes)).blocks == s.blocks[tenant := s.blocks[tenant] - ToSet(hashes)]
  {
    assert ForgetBlocks(s, tenant, ToSet(hashes)).blocks[tenant] == s.blocks[tenant] - ToSet(hashes);
  }

  /** The store after some blocks of a tenant are forgotten. */
  function Forgotten(s: StoreState, tenant: string, hashes: set<string>): StoreState
    requires tenant in s.blocks
  {
    s.(blocks := s.blocks[tenant := s.blocks[tenant] - hashes])
  }

  lemma NothingGone(s: StoreState, backend: BlockMap, tenant: string)
    requires tenant in s.blocks
    ensures Forgotten(s, tenant, {}) == s && backend - Names(tenant, {}) == backend
  {
    assert s.blocks[tenant] - {} == s.blocks[tenant];
  }

  lemma GoneTwice(s: StoreState, backend: BlockMap, tenant: string, f1: set<string>, f2: set<string>, g1: set<string>,
                  g2: set<string>)
    requires tenant in s.blocks
    ensures Forgotten(Forgotten(s, tenant, f1), tenant, f2) == Forgotten(s, tenant, f1 + f2)
    ensures backend - Names(tenant, g1) - Names(tenant, g2) == backend - Names(tenant, g1 + g2)
  {
    assert s.blocks[tenant] - f1 - f2 == s.blocks[tenant] - (f1 + f2);
    assert Names(tenant, g1 + g2) == Names(tenant, g1) + Names(tenant, g2);
  }

  lemma EligibleAfter(s: StoreState, tenant: string, cutoff: int, hashes: set<string>)
    requires tenant in s.blocks
    ensures EligibleSet(Forgotten(s, tenant, hashes), tenant, cutoff) == EligibleSet(s, tenant, cutoff) - hashes
  {
  }

  lemma SmallerRest(all: set<string>, f: set<string>, more: set<string>)
    requires more <= all - f && more != {}
    ensures |all - (f + more)| < |all - f| && |f + more| == |f| + |more|
  {
    assert all - f == (all - (f + more)) + more;
  }

  lemma TenantPartlySwept(s: StoreState, backend: BlockMap, s1: StoreState, b1: BlockMap, cutoff: int,
                          tenant: string, forgotten: set<string>, gone: set<string>)
    requires PartlySwept(s, backend, s1, b1, cutoff) && tenant in s1.blocks
    requires s1.blocks[tenant] == s.blocks[tenant] && forgotten <= gone <= EligibleSet(s, tenant, cutoff)
    ensures PartlySwept(s, backend, s1.(blocks := s1.blocks[tenant := s1.blocks[tenant] - forgotten]),
                        b1 - Names(tenant, gone), cutoff)
  {
    forall h | h in gone ensures Eligible(s, tenant, h, cutoff) {
      assert h in EligibleSet(s, tenant, cutoff);
    }
    hide Eligible, EligibleSet;
  }

  lemma TenantSwept(s: StoreState, backend: BlockMap, s1: StoreState, b1: BlockMap, cutoff: int,
                    done: set<string>, tenant: string)
    requires SweptUpTo(s, backend, s1, b1, cutoff, done) && tenant in s.blocks && tenant !in done
    ensures var all := EligibleSet(s, tenant, cutoff);
            SweptUpTo(s, backend, s1.(blocks := s1.blocks[tenant := s1.blocks[tenant] - all]),
                      b1 - Names(tenant, all), cutoff, done + {tenant})
  {
  }

  lemma NextTenant(tenants: seq<string>, i: nat)
    requires i < |tenants| && Distinct(tenants)
    ensures ToSet(tenants[..i + 1]) == ToSet(tenants[..i]) + {tenants[i]}
    ensures tenants[i] !in ToSet(tenants[..i]) && tenants[i] in ToSet(tenants)
  {
    assert tenants[..i + 1] == tenants[..i] + [tenants[i]];
  }

  lemma NothingSwept(s: StoreState, backend: BlockMap, cutoff: int)
    ensures PartlySwept(s, backend, s, backend, cutoff)
    ensures SweptUpTo(s, backend, s, backend, cutoff, {}) && CountsSwept(s, cutoff, map[]) && ToSet([]) == {}
    ensures Sum<string>(map[]) == 0
  {
  }

  lemma AllSwept(s: StoreState, backend: BlockMap, s': StoreState, backend': BlockMap, cutoff: int)
    requires PartlySwept(s, backend, s', backend', cutoff)
    requires SweptUpTo(s, backend, s', backend', cutoff, s.blocks.Keys)
    ensures s' == Swept(s, cutoff) && backend' == SweptBackend(s, backend, cutoff)
  {
    assert s'.blocks == Swept(s, cutoff).blocks;
    assert backend' == SweptBackend(s, backend, cutoff);
  }

  ghost predicate CountsSwept(s: StoreState, cutoff: int, done: map<string, int>) {
    forall t :: t in done ==> done[t] == |EligibleSet(s, t, cutoff)|
  }

  lemma CountTenant(s: StoreState, cutoff: int, done: map<string, int>, tenant: string)
    returns (done': map<string, int>)
    requires CountsSwept(s, cutoff, done) && tenant !in done
    ensures CountsSwept(s, cutoff, done') && done'.Keys == done.Keys + {tenant}
    ensures Sum(done') == Sum(done) + |EligibleSet(s, tenant, cutoff)|
  {
    hide EligibleSet, Sum;
    done' := done[tenant := |EligibleSet(s, tenant, cutoff)|];
    SumUpdate(done, tenant, |EligibleSet(s, tenant, cutoff)|);
  }

  lemma AllCounted(s: StoreState, cutoff: int, done: map<string, int>)
    requires CountsSwept(s, cutoff, done) && done.Keys == s.blocks.Keys
    ensures Sum(done) == TotalEligible(s, cutoff)
  {
    assert done == EligibleCounts(s, cutoff);
  }

  // ---------------------------------------------------------------- in terms of ages

  /** Without a reference, and for at least this long. */
  predicate OrphanedFor(blocks: map<string, Blocks>, tenant: string, hash: string, age: int, now: int) {
    && tenant in blocks && hash in blocks[tenant]
    && blocks[tenant][hash].refCount == 0 && blocks[tenant][hash].updatedAt + age <= now
  }

  ghost predicate Gone(blocks: map<string, Blocks>, blocks': map<string, Blocks>, tenant: string, hash: string) {
    tenant in blocks && hash in blocks[tenant] && !(tenant in blocks' && hash in blocks'[tenant])
  }

  /** Nothing younger, and nothing referenced, has left metadata or backend. */
  ghost predicate OnlyOrphansGone(blocks: map<string, Blocks>, backend: BlockMap, blocks': map<string, Blocks>,
                                  backend': BlockMap, age: int, now: int) {
    forall t, h :: Gone(blocks, blocks', t, h) || ((t, h) in backend && (t, h) !in backend') ==>
      OrphanedFor(blocks, t, h, age, now)
  }

  /** And all orphans old enough have left both. */
  ghost predicate AllOrphansGone(blocks: map<string, Blocks>, blocks': map<string, Blocks>, backend': BlockMap,
                                 age: int, now: int) {
    forall t, h :: OrphanedFor(blocks, t, h, age, now) ==> Gone(blocks, blocks', t, h) && (t, h) !in backend'
  }

  ghost function OrphanCounts(blocks: map<string, Blocks>, age: int, now: int): map<string, int> {
    map t | t in blocks :: |set h | h in blocks[t] && OrphanedFor(blocks, t, h, age, now)|
  }

  lemma EligibleIsOrphaned(s: StoreState, tenant: string, hash: string, age: int, now: int)
    ensures Eligible(s, tenant, hash, now - age) <==> OrphanedFor(s.blocks, tenant, hash, age, now)
  {
  }

  lemma PartlySweptMeans(s: StoreState, b: BlockMap, s': StoreState, b': BlockMap, age: int, now: int)
    requires PartlySwept(s, b, s', b', now - age)
    ensures OnlyOrphansGone(s.blocks, b, s'.blocks, b', age, now)
  {
    hide OrphanedFor, Eligible;
    forall t, h | Gone(s.blocks, s'.blocks, t, h) || ((t, h) in b && (t, h) !in b')
      ensures OrphanedFor(s.blocks, t, h, age, now)
    {
      EligibleIsOrphaned(s, t, h, age, now);
      if (t, h) in b && (t, h) !in b' {
        assert Eligible(s, (t, h).0, (t, h).1, now - age);
      }
    }
  }

  lemma SweptMeans(s: StoreState, b: BlockMap, s': StoreState, b': BlockMap, age: int, now: int)
    requires s' == Swept(s, now - age) && b' == SweptBackend(s, b, now - age)
    ensures AllOrphansGone(s.blocks, s'.blocks, b', age, now)
    ensures TotalEligible(s, now - age) == Sum(OrphanCounts(s.blocks, age, now))
  {
    hide OrphanedFor, Eligible, Sum;
    forall t, h | OrphanedFor(s.blocks, t, h, age, now) ensures Gone(s.blocks, s'.blocks, t, h) && (t, h) !in b' {
      EligibleIsOrphaned(s, t, h, age, now);
      OrphanIsThere(s.blocks, t, h, age, now);
    }
    forall t | t in s.blocks
      ensures EligibleSet(s, t, now - age) == set h | h in s.blocks[t] && OrphanedFor(s.blocks, t, h, age, now)
    {
      forall h ensures Eligible(s, t, h, now - age) <==> OrphanedFor(s.blocks, t, h, age, now) {
        EligibleIsOrphaned(s, t, h, age, now);
      }
    }
    assert EligibleCounts(s, now - age) == OrphanCounts(s.blocks, age, now);
  }

  lemma OrphanIsThere(blocks: map<string, Blocks>, tenant: string, hash: string, age: int, now: int)
    requires OrphanedFor(blocks, tenant, hash, age, now)
    ensures tenant in blocks && hash in blocks[tenant]
  {
  }

  class Sweeper {
    const store: MemoryStore
    const backend: BlockStore
    const limit: int
    const batchSizeOption: int
    const minOrphanAgeOption: int
    const maxRetriesOption: int

    constructor (store: MemoryStore, backend: BlockStore, limit: int, batchSize: int, minOrphanAge: int,
                 maxRetries: int)
      ensures this.store == store && this.backend == backend && limit == this.limit
      ensures batchSizeOption == batchSize && minOrphanAgeOption == minOrphanAge && maxRetriesOption == maxRetries
    {
      this.store, this.backend, this.limit := store, backend, limit;
      batchSizeOption, minOrphanAgeOption, maxRetriesOption := batchSize, minOrphanAge, maxRetries;
    }

    function BatchSize(): (size: int)
      ensures 1 <= size <= DEFAULT_BATCH_SIZE
    {
      var requested := if batchSizeOption <= 0 then limit else batchSizeOption;
      if requested <= 0 || requested > DEFAULT_BATCH_SIZE then DEFAULT_BATCH_SIZE else requested
    }

    function MinOrphanAge(): int { if minOrphanAgeOption < 0 then DEFAULT_MIN_ORPHAN_AGE else minOrphanAgeOption }

    function Cutoff(now: int): int { now - MinOrphanAge() }

    function MaxRetries(): int { if maxRetriesOption < 0 then DEFAULT_MAX_RETRIES else maxRetriesOption }

    /** Every attempt may remove some blocks; success means all are gone. */
    method DeleteWithRetry(tenant: string, hashes: seq<string>, cancellable: bool)
      returns (ok: bool, ghost removed: set<string>)
      modifies backend
      ensures removed <= ToSet(hashes) && backend.blocks == old(backend.blocks) - Names(tenant, removed)
      ensures ok ==> removed == ToSet(hashes)
      ensures backend.reliable && !cancellable ==> ok
    {
      var attempts := MaxRetries() + 1;
      ok, removed := false, {};
      var attempt := 0;
      while attempt < attempts
        invariant 0 <= attempt <= attempts
        invariant removed <= ToSet(hashes) && backend.blocks == old(backend.blocks) - Names(tenant, removed)
        invariant backend.reliable && !cancellable ==> attempt == 0
      {
        var cancelled: bool := *;
        if cancellable && cancelled {
          return false, removed;
        }
        ghost var more;
        ok, more := backend.DeleteBlocks(tenant, hashes);
        assert Names(tenant, removed + more) == Names(tenant, removed) + Names(tenant, more);
        removed := removed + more;
        if ok {
          return;
        }
        attempt := attempt + 1;
      }
    }

    /** List, delete, forget: forgotten and gone are what left the metadata and the backend. */
    method SweepBatch(tenant: string, cutoff: int, cancellable: bool)
      returns (ok: bool, candidates: int, deleted: int, ghost forgotten: set<string>, ghost gone: set<string>)
      requires tenant in store.blocks
      modifies store`blocks, backend
      ensures forgotten <= gone <= EligibleSet(old(store.State()), tenant, cutoff)
      ensures store.blocks == old(store.blocks)[tenant := old(store.blocks)[tenant] - forgotten]
      ensures backend.blocks == old(backend.blocks) - Names(tenant, gone)
      ensures ok ==> forgotten == gone && candidates == deleted == |forgotten|
      ensures ok && candidates < BatchSize() ==> forgotten == EligibleSet(old(store.State()), tenant, cutoff)
      ensures backend.reliable && !cancellable ==> ok
    {
      ok, candidates, deleted, forgotten, gone := true, 0, 0, {}, {};
      assert store.blocks[tenant] - {} == store.blocks[tenant];
      var cancelled: bool := *;
      if cancellable && cancelled {
        ok := false;
        return;
      }
      var refs := store.ListUnreferencedBlocksOlderThan(tenant, cutoff, BatchSize());
      candidates := |refs|;
      DistinctSize(refs);
      assert |refs| < BatchSize() ==> ToSet(refs) == EligibleSet(store.State(), tenant, cutoff);
      if |refs| == 0 {
        return;
      }
      ok, gone := DeleteWithRetry(tenant, refs, cancellable);
      if !ok {
        return;
      }
      ForgetZeros(store.State(), tenant, refs);
      store.Forget(tenant, refs);
      forgotten := gone;
      deleted := |refs|;
    }

    /** The batch loop for one tenant. */
    method SweepTenant(tenant: string, cutoff: int, cancellable: bool)
      returns (ok: bool, candidates: int, deleted: int, ghost forgotten: set<string>, ghost gone: set<string>)
      requires tenant in store.blocks
      modifies store`blocks, backend
      ensures forgotten <= gone <= EligibleSet(old(store.State()), tenant, cutoff)
      ensures store.blocks == old(store.blocks)[tenant := old(store.blocks)[tenant] - forgotten]
      ensures backend.blocks == old(backend.blocks) - Names(tenant, gone)
      ensures ok ==> forgotten == gone == EligibleSet(old(store.State()), tenant, cutoff)
      ensures ok ==> candidates == deleted == |forgotten|
      ensures backend.reliable && !cancellable ==> ok
    {
      hide Eligible;
      ok, candidates, deleted, forgotten, gone := true, 0, 0, {}, {};
      ghost var s, b := store.State(), backend.blocks;
      ghost var all := EligibleSet(s, tenant, cutoff);
      NothingGone(s, b, tenant);
      var more := true;
      while more
        invariant ok && forgotten == gone <= all
        invariant store.blocks == Forgotten(s, tenant, forgotten).blocks
        invariant backend.blocks == b - Names(tenant, gone)
        invariant candidates == deleted == |forgotten|
        invariant !more ==> forgotten == all
        decreases |all - forgotten|, more
      {
        EligibleAfter(s, tenant, cutoff, forgotten);
        assert store.State() == Forgotten(s, tenant, forgotten);
        var listed, removed;
        ghost var f, g;
        ok, listed, removed, f, g := SweepBatch(tenant, cutoff, cancellable);
        GoneTwice(s, b, tenant, forgotten, f, gone, g);
        if f != {} {
          SmallerRest(all, forgotten, f);
        }
        candidates, deleted := candidates + listed, deleted + removed;
        forgotten, gone := forgotten + f, gone + g;
        if !ok {
          return;
        }
        if listed < BatchSize() {
          more := false;
        }
      }
    }

    /** Sweep one more tenant of a run that started with metadata s and blocks b. */
    method SweepNext(tenant: string, cutoff: int, cancellable: bool, ghost s: StoreState, ghost b: BlockMap,
                     ghost done: set<string>)
      returns (ok: bool, candidates: int, deleted: int)
      requires tenant in s.blocks && tenant !in done
      requires PartlySwept(s, b, store.State(), backend.blocks, cutoff)
      requires SweptUpTo(s, b, store.State(), backend.blocks, cutoff, done)
      modifies store`blocks, backend
      ensures PartlySwept(s, b, store.State(), backend.blocks, cutoff)
      ensures ok ==> SweptUpTo(s, b, store.State(), backend.blocks, cutoff, done + {tenant})
      ensures ok ==> candidates == deleted == |EligibleSet(s, tenant, cutoff)|
      ensures backend.reliable && !cancellable ==> ok
    {
      ghost var s1, b1 := store.State(), backend.blocks;
      assert s1.blocks[tenant] == s.blocks[tenant];
      assert EligibleSet(s1, tenant, cutoff) == EligibleSet(s, tenant, cutoff);
      ghost var forgotten, gone;
      ok, candidates, deleted, forgotten, gone := SweepTenant(tenant, cutoff, cancellable);
      TenantPartlySwept(s, b, s1, b1, cutoff, tenant, forgotten, gone);
      assert store.State() == s1.(blocks := s1.blocks[tenant := s1.blocks[tenant] - forgotten]);
      if ok {
        TenantSwept(s, b, s1, b1, cutoff, done, tenant);
      }
    }

    /** The age in force: a day unless the option is set. */
    lemma CutoffIsAge(now: int, age: int)
      requires age == if minOrphanAgeOption < 0 then 24 * 60 * 60 else minOrphanAgeOption
      ensures Cutoff(now) == now - age
    {
    }

    /**
     One sweep with no other activity on the store.  Without errors it removes exactly the blocks
     that have had a zero count for the orphan age, a day by default, for every tenant and batch size;
     whatever happens it removes no others.
     */
    method Sweep(now: int, cancellable: bool) returns (result: Result, ok: bool)
      modifies store`blocks, backend
      ensures PartlySwept(old(store.State()), old(backend.blocks), store.State(), backend.blocks, Cutoff(now))
      ensures ok ==> store.State() == Swept(old(store.State()), Cutoff(now))
      ensures ok ==> backend.blocks == SweptBackend(old(store.State()), old(backend.blocks), Cutoff(now))
      ensures ok ==> result == Result(|old(store.State()).blocks|, TotalEligible(old(store.State()), Cutoff(now)),
                                      TotalEligible(old(store.State()), Cutoff(now)), 0)
      ensures !ok ==> result.failures == 1
      ensures backend.reliable && !cancellable ==> ok
      ensures var age := if minOrphanAgeOption < 0 then 24 * 60 * 60 else minOrphanAgeOption;
              var before, after := old(store.State()).blocks, store.State().blocks;
              && OnlyOrphansGone(before, old(backend.blocks), after, backend.blocks, age, now)
              && (ok ==> AllOrphansGone(before, after, backend.blocks, age, now))
              && (ok ==> result.deletedBlocks == Sum(OrphanCounts(before, age, now)))
    {
      hide *;
      result, ok := Result(0, 0, 0, 0), true;
      ghost var s, b := store.State(), backend.blocks;
      ghost var age := if minOrphanAgeOption < 0 then 24 * 60 * 60 else minOrphanAgeOption;
      CutoffIsAge(now, age);
      NothingSwept(s, b, Cutoff(now));
      var tenants := store.ListTenants();
      result := result.(scannedTenants := |tenants|);
      DistinctSize(tenants);
      var cutoff := Cutoff(now);
      assert tenants[..0] == [];
      ghost var done: map<string, int> := map[];
      ghost var total := 0;
      for i := 0 to |tenants|
        invariant ok && result.failures == 0 && result.scannedTenants == |tenants|
        invariant result.candidateBlocks == total && result.deletedBlocks == total
        invariant total == Sum(done)
        invariant done.Keys == ToSet(tenants[..i])
        invariant CountsSwept(s, cutoff, done)
        invariant PartlySwept(s, b, store.State(), backend.blocks, cutoff)
        invariant SweptUpTo(s, b, store.State(), backend.blocks, cutoff, done.Keys)
      {
        var tenant := tenants[i];
        NextTenant(tenants, i);
        var candidates, deleted;
        ok, candidates, deleted := SweepNext(tenant, cutoff, cancellable, s, b, done.Keys);
        if !ok {
          result := result.(candidateBlocks := result.candidateBlocks + candidates,
                            deletedBlocks := result.deletedBlocks + deleted,
                            failures := result.failures + 1);
          PartlySweptMeans(s, b, store.State(), backend.blocks, age, now);
          return;
        }
        result := result.(candidateBlocks := result.candidateBlocks + candidates,
                          deletedBlocks := result.deletedBlocks + deleted);
        total := total + deleted;
        done := CountTenant(s, cutoff, done, tenant);
      }
      assert tenants[..|tenants|] == tenants;
      AllCounted(s, cutoff, done);
      AllSwept(s, b, store.State(), backend.blocks, cutoff);
      PartlySweptMeans(s, b, store.State(), backend.blocks, age, now);
      SweptMeans(s, b, store.State(), backend.blocks, age, now);
    }
  }
}
