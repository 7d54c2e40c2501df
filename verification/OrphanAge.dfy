/**
 The orphan age over whole runs: what the sweep's listing says about the past.

 times[i] is the instant at which states[i] became current; for a commit or delete it is the clock
 reading with which released blocks are stamped.
 */
module OrphanAge {
  import opened Contents
  import opened Metadata
  import opened Sweepers

  function Instant(op: Op, other: int): int {
    match op
    case OpCreate(_, _, now) => now
    case OpCommit(_, _, at) => at.dec
    case OpDelete(_, _, _, at) => at.dec
    case OpForget(_, _) => other
  }

  /** A run of the store with a clock that never goes back. */
  ghost predicate History(states: seq<StoreState>, ops: seq<Op>, times: seq<int>) {
    && |states| == |ops| + 1 == |times|
    && states[0] == EMPTY_STORE
    && (forall i :: 0 <= i < |ops| ==> Allowed(states[i], ops[i]) && states[i + 1] == Apply(states[i], ops[i]))
    && (forall i :: 0 <= i < |ops| ==> times[i + 1] == Instant(ops[i], times[i + 1]))
    && (forall i, j :: 0 <= i <= j < |times| ==> times[i] <= times[j])
  }

  /** states[i] was the current state at some instant after t and not later than the end of the run. */
  predicate CurrentAfter(times: seq<int>, i: nat, t: int)
    requires i < |times|
  {
    i == |times| - 1 || times[i + 1] > t
  }

  lemma {:induction false} HistoryInv(states: seq<StoreState>, ops: seq<Op>, times: seq<int>, i: nat)
    requires History(states, ops, times) && i < |states|
    ensures Inv(states[i])
    decreases i
  {
    if i == 0 {
      EmptyStoreInv();
    } else {
      HistoryInv(states, ops, times, i - 1);
      assert Allowed(states[i - 1], ops[i - 1]);
      ApplyKeepsInv(states[i - 1], ops[i - 1]);
    }
  }

  /** An operation either leaves a count alone, stamps it with its own instant, or leaves it positive. */
  lemma StampOrSame(s: StoreState, op: Op, tenant: string, hash: string)
    requires Inv(s) && Allowed(s, op)
    requires var s1 := Apply(s, op); hash in TenantBlocks(s1, tenant) && RefOf(s1, tenant, hash) == 0
    ensures var s1 := Apply(s, op);
            var after := TenantBlocks(s1, tenant)[hash];
            || (hash in TenantBlocks(s, tenant) && TenantBlocks(s, tenant)[hash] == after)
            || ((op.OpCommit? || op.OpDelete?) && after.updatedAt == op.at.dec)
  {
    match op
    case OpCommit(id, m, at) =>
      if CanCommit(s, id) {
        CountPositive(m.chunks, hash);
        CommitBlocks(s, id, m, at, tenant, hash);
      }
    case OpDelete(_, _, _, _) =>
    case OpCreate(_, _, _) =>
    case OpForget(_, _) =>
  }

  lemma CommitBlocks(s: StoreState, id: string, m: Manifest, at: Stamps, tenant: string, hash: string)
    requires Inv(s) && SafeNames(m) && CanCommit(s, id)
    requires hash in TenantBlocks(Commit(s, id, m, at), tenant) && RefOf(Commit(s, id, m, at), tenant, hash) == 0
    ensures var after := TenantBlocks(Commit(s, id, m, at), tenant)[hash];
            || (hash in TenantBlocks(s, tenant) && TenantBlocks(s, tenant)[hash] == after)
            || after.updatedAt == at.dec
  {
    CommitKeepsInv(s, id, m, at);
    CommitShape(s, id, m, at);
    if tenant == m.tenant && hash in HashSet(m.chunks) {
      hide Incremented, Decremented, CountsExact;
      var c :| c in m.chunks && c.hash == hash;
      ReferencedIsCounted(Commit(s, id, m, at), id, c);
      assert false;
    } else {
      UnattachedBlock(s, id, m, at, tenant, hash);
    }
  }

  /** A block the committed manifest does not name is as it was, or released by the commit. */
  lemma UnattachedBlock(s: StoreState, id: string, m: Manifest, at: Stamps, tenant: string, hash: string)
    requires IndexExact(s) && CanCommit(s, id) && !(tenant == m.tenant && hash in HashSet(m.chunks))
    requires hash in TenantBlocks(Commit(s, id, m, at), tenant)
    ensures var after := TenantBlocks(Commit(s, id, m, at), tenant)[hash];
            || (hash in TenantBlocks(s, tenant) && TenantBlocks(s, tenant)[hash] == after)
            || after.updatedAt == at.dec
  {
  }

  /** A zero count stamped before the last operation was already there before that operation. */
  lemma UnstampedIsOlder(states: seq<StoreState>, ops: seq<Op>, times: seq<int>, n: nat, tenant: string, hash: string)
    requires History(states, ops, times) && 0 < n < |states|
    requires hash in TenantBlocks(states[n], tenant) && RefOf(states[n], tenant, hash) == 0
    requires times[n] > TenantBlocks(states[n], tenant)[hash].updatedAt
    ensures hash in TenantBlocks(states[n - 1], tenant)
    ensures TenantBlocks(states[n - 1], tenant)[hash] == TenantBlocks(states[n], tenant)[hash]
  {
    HistoryInv(states, ops, times, n - 1);
    assert Allowed(states[n - 1], ops[n - 1]) && states[n] == Apply(states[n - 1], ops[n - 1]);
    StampOrSame(states[n - 1], ops[n - 1], tenant, hash);
    assert times[n - 1 + 1] == Instant(ops[n - 1], times[n - 1 + 1]);
  }

  /** A zero count's stamp is no earlier than the last instant it was referenced. */
  lemma {:induction false} ZeroStamped(states: seq<StoreState>, ops: seq<Op>, times: seq<int>, n: nat, i: nat,
                                       tenant: string, hash: string)
    requires History(states, ops, times) && i <= n < |states|
    requires hash in TenantBlocks(states[n], tenant) && RefOf(states[n], tenant, hash) == 0
    requires i == n || times[i + 1] > TenantBlocks(states[n], tenant)[hash].updatedAt
    ensures RefOf(states[i], tenant, hash) == 0
    decreases n
  {
    if i < n {
      assert times[i + 1] <= times[n];
      UnstampedIsOlder(states, ops, times, n, tenant, hash);
      ZeroStamped(states, ops, times, n - 1, i, tenant, hash);
    }
  }

  /**
   Whatever the sweep lists with a given cutoff had no committed reference in any state that was
   current after the cutoff, up to and including the moment of listing.
   */
  lemma ListedMeansUnreferencedSinceCutoff(
      states: seq<StoreState>, ops: seq<Op>, times: seq<int>, i: nat, tenant: string, hash: string, cutoff: int)
    requires History(states, ops, times)
    requires Eligible(states[|states| - 1], tenant, hash, cutoff)
    requires i < |states| && CurrentAfter(times, i, cutoff)
    ensures References(states[i].objects, tenant, hash) == 0
    ensures var objects := states[i].objects;
            forall id :: id in objects && objects[id].state == Committed && objects[id].tenant == tenant ==>
              Count(objects[id].chunks, hash) == 0
  {
    ZeroStamped(states, ops, times, |states| - 1, i, tenant, hash);
    HistoryInv(states, ops, times, i);
    var s := states[i];
    assert RefOf(s, tenant, hash) == References(s.objects, tenant, hash);
    forall id | id in s.objects && s.objects[id].state == Committed && s.objects[id].tenant == tenant
      ensures Count(s.objects[id].chunks, hash) == 0
    {
      ReferencesAtLeast(s, id, tenant, hash);
    }
  }

  /**
   What a sweep removes, completed or broken off, has had no committed reference in any state that was
   current less than the orphan age ago.
   */
  lemma SweptMeansUnreferenced(states: seq<StoreState>, ops: seq<Op>, times: seq<int>, i: nat, tenant: string,
                               hash: string, backend: BlockMap, blocks': map<string, Blocks>, backend': BlockMap,
                               age: int, now: int)
    requires History(states, ops, times) && i < |states| && CurrentAfter(times, i, now - age)
    requires OnlyOrphansGone(states[|states| - 1].blocks, backend, blocks', backend', age, now)
    requires Gone(states[|states| - 1].blocks, blocks', tenant, hash)
             || ((tenant, hash) in backend && (tenant, hash) !in backend')
    ensures References(states[i].objects, tenant, hash) == 0
    ensures var objects := states[i].objects;
            forall id :: id in objects && objects[id].state == Committed && objects[id].tenant == tenant ==>
              Count(objects[id].chunks, hash) == 0
  {
    hide History, CurrentAfter;
    EligibleIsOrphaned(states[|states| - 1], tenant, hash, age, now);
    ListedMeansUnreferencedSinceCutoff(states, ops, times, i, tenant, hash, now - age);
  }
}
