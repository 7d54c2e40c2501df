/**
 Multipart runs in which calls on different uploads interleave freely while calls on one upload follow one
 another, whatever fails: memory, metadata store and counter agree, and a restart finds everything.
 */
module MultipartRuns {
  import opened ByteData
  import opened Int64
  import opened Limits
  import opened Metadata
  import opened Multipart
  import opened MultipartLedger
  import opened Sums

  // ---------------------------------------------------------------- the schedule

  /** No call on this upload is in progress. */
  predicate Idle(calls: map<nat, Pending>, id: Id) {
    forall c :: c in calls ==> calls[c].id != id
  }

  /** The first step of a call, or of the part of a call that follows loading its session. */
  predicate Starts(step: LedgerStep) {
    step.StartCreate? || step.ReadStored? || step.Place? || step.DropStored?
  }

  /** Calls on one upload do not overlap, and an upload is created under a new id. */
  ghost predicate Sequential(s: Ledger, step: LedgerStep) {
    && (Starts(step) ==> Idle(s.calls, step.id))
    && (step.StartCreate? ==> step.id !in s.sessions && step.id !in s.stored)
  }

  ghost predicate SequentialRun(states: seq<Ledger>, steps: seq<LedgerStep>) {
    && LedgerRun(states, steps) && Started(states[0])
    && forall i :: 0 <= i < |steps| ==> Sequential(states[i], steps[i])
  }

  // ---------------------------------------------------------------- agreement of memory and store

  /** Memory holds what the store holds; in full, also everything the store holds. */
  ghost predicate Settled(s: Ledger, full: bool, id: Id) {
    && (id in s.sessions ==> id in s.stored && s.stored[id] == s.sessions[id])
    && (full && id in s.stored ==> id in s.sessions)
  }

  /** What a call in progress has done to its upload so far. */
  ghost predicate CallAgrees(s: Ledger, full: bool, call: Pending) {
    var id := call.id;
    match call
    case Creating(_, session) => id !in s.sessions && id !in s.stored && Tidy(session)
    case Created(_, session) => id !in s.sessions && id in s.stored && s.stored[id] == session
    case Reading(_, session) => Settled(s, full, id) && id !in s.sessions && id in s.stored && s.stored[id] == session
    case Loading(_, session) => Settled(s, full, id) && id !in s.sessions && id in s.stored && s.stored[id] == session
    case Placed(_, number, part, r) =>
      && id in s.sessions && id in s.stored && r.reserved <= MAX_INT64
      && r == ReservationFor(s.stored[id], number, part)
      && s.sessions[id] == WithPart(s.stored[id], number, part, r.reserved)
    case Saved(_, r) => id in s.sessions && id in s.stored && s.stored[id] == s.sessions[id]
    case Dropping(_, held) => id !in s.stored && held == ReservedBy(s.sessions, id)
    case Freeing(_, _) => Settled(s, full, id)
  }

  ghost predicate OnePerUpload(calls: map<nat, Pending>) {
    forall c, d :: c in calls && d in calls && calls[c].id == calls[d].id ==> c == d
  }

  ghost predicate Agreement(s: Ledger, full: bool) {
    && OnePerUpload(s.calls) && AllTidy(s.stored)
    && (forall c :: c in s.calls ==> CallAgrees(s, full, s.calls[c]))
    && (forall id :: Idle(s.calls, id) ==> Settled(s, full, id))
  }

  /** Two states that differ at most in one upload and one call on it. */
  ghost predicate DifferAt(s: Ledger, s1: Ledger, c: nat, id: Id) {
    && s1.calls - {c} == s.calls - {c}
    && (c in s.calls ==> s.calls[c].id == id) && (c in s1.calls ==> s1.calls[c].id == id)
    && s1.sessions - {id} == s.sessions - {id} && s1.stored - {id} == s.stored - {id}
  }

  lemma OtherSame(a: Sessions, b: Sessions, id: Id, other: Id)
    requires a - {id} == b - {id} && other != id
    ensures other in a <==> other in b
    ensures other in a ==> a[other] == b[other]
  {
    assert other in a - {id} <==> other in a;
    assert other in b - {id} <==> other in b;
    if other in a {
      assert (a - {id})[other] == a[other] && (b - {id})[other] == b[other];
    }
  }

  lemma OtherCallSame(a: map<nat, Pending>, b: map<nat, Pending>, c: nat, d: nat)
    requires a - {c} == b - {c} && d != c
    ensures d in a <==> d in b
    ensures d in a ==> a[d] == b[d]
  {
    assert d in a - {c} <==> d in a;
    assert d in b - {c} <==> d in b;
    if d in a {
      assert (a - {c})[d] == a[d] && (b - {c})[d] == b[d];
    }
  }

  lemma OtherAgrees(s: Ledger, s1: Ledger, full: bool, c: nat, id: Id, call: Pending)
    requires DifferAt(s, s1, c, id) && call.id != id
    ensures CallAgrees(s, full, call) <==> CallAgrees(s1, full, call)
    ensures Settled(s, full, call.id) <==> Settled(s1, full, call.id)
  {
    hide ReservationFor, WithPart, Tidy;
    OtherSame(s.sessions, s1.sessions, id, call.id);
    OtherSame(s.stored, s1.stored, id, call.id);
  }

  /** Before the step the upload was this call's own, or nobody's. */
  ghost predicate Owned(s: Ledger, c: nat, id: Id) {
    c !in s.calls ==> Idle(s.calls, id)
  }

  lemma OthersElsewhere(s: Ledger, c: nat, id: Id, d: nat)
    requires OnePerUpload(s.calls) && Owned(s, c, id) && (c in s.calls ==> s.calls[c].id == id)
    requires d in s.calls && d != c
    ensures s.calls[d].id != id
  {
  }

  lemma OneStays(s: Ledger, s1: Ledger, c: nat, id: Id)
    requires OnePerUpload(s.calls) && DifferAt(s, s1, c, id) && Owned(s, c, id)
    ensures OnePerUpload(s1.calls)
  {
    forall d | d in s1.calls && d != c ensures d in s.calls && s1.calls[d] == s.calls[d] && s.calls[d].id != id {
      OtherCallSame(s.calls, s1.calls, c, d);
      OthersElsewhere(s, c, id, d);
    }
  }

  lemma IdleElsewhere(s: Ledger, s1: Ledger, c: nat, id: Id, other: Id)
    requires DifferAt(s, s1, c, id) && other != id && Idle(s1.calls, other)
    ensures Idle(s.calls, other)
  {
    forall d | d in s.calls ensures s.calls[d].id != other {
      if d != c {
        OtherCallSame(s.calls, s1.calls, c, d);
      }
    }
  }

  /** A change at one upload keeps the agreement if it leaves that upload in order. */
  lemma AgreementMoves(s: Ledger, s1: Ledger, full: bool, c: nat, id: Id)
    requires Agreement(s, full) && DifferAt(s, s1, c, id) && Owned(s, c, id)
    requires c in s1.calls ==> CallAgrees(s1, full, s1.calls[c])
    requires c !in s1.calls ==> Settled(s1, full, id)
    requires id in s1.stored ==> Tidy(s1.stored[id])
    ensures Agreement(s1, full)
  {
    hide CallAgrees, Settled, Tidy, Idle, OnePerUpload, DifferAt, Owned;
    OneStays(s, s1, c, id);
    forall d | d in s1.calls ensures CallAgrees(s1, full, s1.calls[d]) {
      if d != c {
        SameElsewhere(s, s1, full, c, id, d);
      }
    }
    forall other | Idle(s1.calls, other) ensures Settled(s1, full, other) {
      IdleSettled(s, s1, full, c, id, other);
    }
    forall other | other in s1.stored ensures Tidy(s1.stored[other]) {
      if other != id {
        assert s1.stored - {id} == s.stored - {id} by { StoredElsewhere(s, s1, c, id); }
        OtherSame(s.stored, s1.stored, id, other);
      }
    }
  }

  lemma StoredElsewhere(s: Ledger, s1: Ledger, c: nat, id: Id)
    requires DifferAt(s, s1, c, id)
    ensures s1.stored - {id} == s.stored - {id}
  {
  }

  lemma SameElsewhere(s: Ledger, s1: Ledger, full: bool, c: nat, id: Id, d: nat)
    requires Agreement(s, full) && DifferAt(s, s1, c, id) && Owned(s, c, id) && d in s1.calls && d != c
    ensures CallAgrees(s1, full, s1.calls[d])
  {
    hide CallAgrees, Settled;
    OtherCallSame(s.calls, s1.calls, c, d);
    OthersElsewhere(s, c, id, d);
    OtherAgrees(s, s1, full, c, id, s1.calls[d]);
  }

  lemma IdleSettled(s: Ledger, s1: Ledger, full: bool, c: nat, id: Id, other: Id)
    requires Agreement(s, full) && DifferAt(s, s1, c, id) && Idle(s1.calls, other)
    requires c !in s1.calls ==> Settled(s1, full, id)
    ensures Settled(s1, full, other)
  {
    hide CallAgrees, Settled;
    if other != id {
      IdleElsewhere(s, s1, c, id, other);
      OtherAgrees(s, s1, full, c, id, Freeing(other, 0));
    }
  }

  // ---------------------------------------------------------------- every step of a sequential run

  lemma StepDiffers(s: Ledger, step: LedgerStep)
    requires LedgerEnabled(s, step)
    ensures DifferAt(s, LedgerNext(s, step), step.c, Owner(s, step))
  {
    hide LedgerNext, LedgerEnabled, Owner;
    MultipartLedger.StepShape(s, step);
    var s1, id := LedgerNext(s, step), Owner(s, step);
    assert s1.calls - {step.c} == s.calls - {step.c};
    assert s1.sessions - {id} == s.sessions - {id} && s1.stored - {id} == s.stored - {id};
  }

  /** The state of the step's own call and upload before the step. */
  ghost predicate OwnBefore(s: Ledger, full: bool, step: LedgerStep)
    requires LedgerEnabled(s, step)
  {
    var id := Owner(s, step);
    && (if step.c in s.calls then CallAgrees(s, full, s.calls[step.c]) else Settled(s, full, id))
    && (step.StartCreate? ==> id !in s.sessions && id !in s.stored)
    && (id in s.stored ==> Tidy(s.stored[id]))
  }

  ghost predicate OwnAfter(s1: Ledger, full: bool, c: nat, id: Id) {
    && (if c in s1.calls then CallAgrees(s1, full, s1.calls[c]) else Settled(s1, full, id))
    && (id in s1.stored ==> Tidy(s1.stored[id]))
  }

  lemma OwnOfAgreement(s: Ledger, full: bool, step: LedgerStep)
    requires Agreement(s, full) && LedgerEnabled(s, step) && Sequential(s, step)
    ensures OwnBefore(s, full, step) && Owned(s, step.c, Owner(s, step))
  {
    hide CallAgrees, Settled, Tidy, Placeable, Fits, OnePerUpload;
  }

  /** The creating and loading steps leave their upload in order. */
  lemma CreateAgrees(s: Ledger, full: bool, step: LedgerStep)
    requires LedgerEnabled(s, step) && OwnBefore(s, full, step)
    requires step.StartCreate? || step.StoreCreate? || step.AbandonCreate? || step.FinishCreate?
    ensures OwnAfter(LedgerNext(s, step), full, step.c, Owner(s, step)) && Careful(s, step)
  {
    hide Total, Fits, Given;
  }

  lemma LoadAgrees(s: Ledger, full: bool, step: LedgerStep)
    requires LedgerEnabled(s, step) && OwnBefore(s, full, step)
    requires step.ReadStored? || step.ReserveLoad? || step.AbandonLoad? || step.FinishLoad?
    ensures OwnAfter(LedgerNext(s, step), full, step.c, Owner(s, step)) && Careful(s, step)
  {
    hide Total, Fits, Given;
  }

  lemma DropAgrees(s: Ledger, full: bool, step: LedgerStep)
    requires LedgerEnabled(s, step) && OwnBefore(s, full, step)
    requires step.DropStored? || step.Remove? || step.GiveBack? || step.Finish?
    ensures OwnAfter(LedgerNext(s, step), full, step.c, Owner(s, step)) && Careful(s, step)
  {
    hide Total, Fits, Given;
  }

  lemma SavedIsTidy(s: Session, number: nat, part: Part)
    requires Tidy(s) && NewTotal(s, number, part) <= MAX_INT64
    ensures Tidy(WithPart(s, number, part, NewTotal(s, number, part)))
  {
    NewTotalBounds(s, number, part);
  }

  lemma PlaceAgrees(s: Ledger, full: bool, step: LedgerStep)
    requires step.Place? && LedgerEnabled(s, step) && OwnBefore(s, full, step)
    ensures OwnAfter(LedgerNext(s, step), full, step.c, Owner(s, step)) && Careful(s, step)
  {
    hide NewTotal, Total, Fits, WithPart, Tidy;
  }

  lemma SaveAgrees(s: Ledger, full: bool, step: LedgerStep)
    requires step.Save? && LedgerEnabled(s, step) && OwnBefore(s, full, step)
    ensures OwnAfter(LedgerNext(s, step), full, step.c, Owner(s, step)) && Careful(s, step)
  {
    hide NewTotal, Total, WithPart, Tidy;
    var call := s.calls[step.c];
    SavedIsTidy(s.stored[call.id], call.number, call.part);
  }

  /** Undoing a part leaves the session as the store has it. */
  lemma UndoAgrees(s: Ledger, full: bool, step: LedgerStep)
    requires step.Undo? && LedgerEnabled(s, step) && OwnBefore(s, full, step)
    ensures OwnAfter(LedgerNext(s, step), full, step.c, Owner(s, step)) && Careful(s, step)
  {
    hide NewTotal, Total, Restored, WithPart, Tidy;
    var call := s.calls[step.c];
    RestoreUndoes(s.stored[call.id], call.number, call.part, call.r.reserved, call.r);
    PlacedReserves(s.stored[call.id], call.number, call.part, call.r.reserved);
  }

  lemma PlacedReserves(s: Session, number: nat, part: Part, reserved: int)
    ensures WithPart(s, number, part, reserved).reserved == reserved
  {
  }

  lemma OwnAgrees(s: Ledger, full: bool, step: LedgerStep)
    requires LedgerEnabled(s, step) && OwnBefore(s, full, step)
    ensures OwnAfter(LedgerNext(s, step), full, step.c, Owner(s, step)) && Careful(s, step)
  {
    hide LedgerNext, LedgerEnabled, OwnBefore, OwnAfter, Careful;
    if step.Place? {
      PlaceAgrees(s, full, step);
    } else if step.Save? {
      SaveAgrees(s, full, step);
    } else if step.Undo? {
      UndoAgrees(s, full, step);
    } else if step.StartCreate? || step.StoreCreate? || step.AbandonCreate? || step.FinishCreate? {
      CreateAgrees(s, full, step);
    } else if step.ReadStored? || step.ReserveLoad? || step.AbandonLoad? || step.FinishLoad? {
      LoadAgrees(s, full, step);
    } else {
      DropAgrees(s, full, step);
    }
  }

  /** In a sequential run every step is careful and keeps memory and store in agreement. */
  lemma SequentialStep(s: Ledger, full: bool, step: LedgerStep)
    requires Agreement(s, full) && LedgerEnabled(s, step) && Sequential(s, step)
    ensures Agreement(LedgerNext(s, step), full) && Careful(s, step)
  {
    hide LedgerNext, LedgerEnabled, Agreement, Sequential, OwnBefore, Careful, DifferAt, Owned;
    OwnOfAgreement(s, full, step);
    OwnAgrees(s, full, step);
    StepDiffers(s, step);
    AgreementMoves(s, LedgerNext(s, step), full, step.c, Owner(s, step));
  }

  lemma StartedAgrees(s: Ledger)
    requires Started(s)
    ensures Agreement(s, false) && (s.stored == map[] ==> Agreement(s, true))
  {
    hide Tidy;
  }

  /**
   Sequential calls, freely interleaved across uploads, with any failures: at every moment the counter is
   exact and within the capacity, and memory and store agree up to the calls in progress.  Nothing is
   assumed of the undo steps; that each is careful is part of the result.
   */
  lemma {:induction false} SequentialRunsAgree(states: seq<Ledger>, steps: seq<LedgerStep>, full: bool, i: nat)
    requires SequentialRun(states, steps) && i < |states|
    requires full ==> states[0].stored == map[]
    ensures LedgerInv(states[i]) && Agreement(states[i], full) && states[i].capacity == states[0].capacity
    ensures i < |steps| ==> CarefulAt(states, steps, i)
    decreases i
  {
    hide LedgerInv, Agreement, Sequential, Started, Careful;
    if i == 0 {
      StartedInv(states[0]);
      StartedAgrees(states[0]);
    } else {
      SequentialRunsAgree(states, steps, full, i - 1);
      assert StepTaken(states, steps, i - 1);
      SequentialStep(states[i - 1], full, steps[i - 1]);
      StepKeepsLedgerIff(states[i - 1], steps[i - 1]);
      CapacityStays(states[i - 1], steps[i - 1]);
    }
    if i < |steps| {
      assert StepTaken(states, steps, i);
      SequentialStep(states[i], full, steps[i]);
    }
  }

  lemma CapacityStays(s: Ledger, step: LedgerStep)
    requires LedgerEnabled(s, step)
    ensures LedgerNext(s, step).capacity == s.capacity
  {
  }

  // ---------------------------------------------------------------- what is durable fits

  /** Bytes counted for a call beyond what the store records. */
  function Undurable(call: Pending): int {
    match call
    case Creating(_, session) => session.reserved
    case Created(_, _) => 0
    case Reading(_, _) => 0
    case Loading(_, session) => session.reserved
    case Placed(_, _, _, r) => Max(r.delta, 0)
    case Saved(_, r) => Max(-r.delta, 0)
    case Dropping(_, held) => held
    case Freeing(_, bytes) => bytes
  }

  ghost function Undurables(calls: map<nat, Pending>): map<nat, int> {
    map c | c in calls :: Undurable(calls[c])
  }

  lemma UndurableEnds(calls: map<nat, Pending>, c: nat)
    requires c in calls
    ensures Sum(Undurables(calls - {c})) == Sum(Undurables(calls)) - Undurable(calls[c])
  {
    hide Sum, Undurable;
    assert Undurables(calls - {c}) == Undurables(calls) - {c};
    SumRemove(Undurables(calls), c);
  }

  /** One call accounts for the difference between memory and store at its upload. */
  lemma CallAccount(s: Ledger, c: nat)
    requires c in s.calls && CallAgrees(s, true, s.calls[c])
    ensures var call := s.calls[c];
            ReservedBy(s.sessions, call.id) + Outstanding(call) == ReservedBy(s.stored, call.id) + Undurable(call)
  {
    hide NewTotal, Tidy;
  }

  ghost function Without(s: Ledger, c: nat, id: Id): Ledger {
    s.(sessions := s.sessions - {id}, stored := s.stored - {id}, calls := s.calls - {c})
  }

  lemma WithoutAgrees(s: Ledger, c: nat)
    requires Agreement(s, true) && c in s.calls
    ensures Agreement(Without(s, c, s.calls[c].id), true)
  {
    hide CallAgrees, Tidy;
    var id := s.calls[c].id;
    var s1 := Without(s, c, id);
    assert DifferAt(s, s1, c, id);
    AgreementMoves(s, s1, true, c, id);
  }

  lemma {:induction false} DurableAccount(s: Ledger)
    requires Agreement(s, true)
    ensures Reserved(s.sessions) + AllOutstanding(s.calls) == Reserved(s.stored) + Sum(Undurables(s.calls))
    decreases |s.calls|
  {
    hide Agreement, CallAgrees, Reserved, AllOutstanding, Sum, Undurables, Undurable, Outstanding;
    if s.calls == map[] {
      QuietAccount(s);
    } else {
      var c :| c in s.calls;
      var id := s.calls[c].id;
      var s1 := Without(s, c, id);
      assert s.calls.Keys == s1.calls.Keys + {c};
      WithoutAgrees(s, c);
      DurableAccount(s1);
      ReservedMoves(s.sessions, s1.sessions, id);
      ReservedMoves(s.stored, s1.stored, id);
      CallEnds(s.calls, c);
      UndurableEnds(s.calls, c);
      CallAccount(s, c) by { CallInAgreement(s, c); }
    }
  }

  lemma CallInAgreement(s: Ledger, c: nat)
    requires Agreement(s, true) && c in s.calls
    ensures CallAgrees(s, true, s.calls[c])
  {
    hide CallAgrees;
  }

  lemma QuietIsSettled(s: Ledger)
    requires Agreement(s, true) && s.calls == map[]
    ensures s.sessions == s.stored
  {
    forall id ensures id in s.sessions <==> id in s.stored {
      assert Idle(s.calls, id);
    }
    forall id | id in s.sessions ensures s.sessions[id] == s.stored[id] {
      assert Idle(s.calls, id);
    }
  }

  lemma QuietAccount(s: Ledger)
    requires Agreement(s, true) && s.calls == map[]
    ensures Reserved(s.sessions) + AllOutstanding(s.calls) == Reserved(s.stored) + Sum(Undurables(s.calls))
  {
    QuietIsSettled(s);
    assert Amounts(s.calls) == Undurables(s.calls) == map[];
  }

  lemma UndurableNotNegative(s: Ledger)
    requires Agreement(s, true) && SoundLedger(s)
    ensures Sum(Undurables(s.calls)) >= 0
  {
    forall c | c in s.calls ensures Undurables(s.calls)[c] >= 0 {
      assert SoundCall(s.calls[c]) && CallAgrees(s, true, s.calls[c]);
    }
    SumNonNegative(Undurables(s.calls));
  }

  /**
   At every moment of a sequential run from an empty start, calls in progress or not, what the store
   records fits into the capacity; once no call is in progress memory and store hold the same sessions
   and the counter is what the store records.
   */
  lemma DurableFits(states: seq<Ledger>, steps: seq<LedgerStep>, i: nat)
    requires SequentialRun(states, steps) && i < |states| && states[0].stored == map[]
    ensures var s := states[i];
            && AllTidy(s.stored) && Reserved(s.stored) <= s.used <= Bound(states[0].capacity)
            && (s.calls == map[] ==> s.sessions == s.stored && s.used == Reserved(s.stored))
  {
    hide SequentialRun, Sum, Reserved, AllOutstanding, CallAgrees;
    var s := states[i];
    SequentialRunsAgree(states, steps, true, i);
    DurableAccount(s);
    UndurableNotNegative(s);
    if s.calls == map[] {
      QuietIsSettled(s);
      QuietLedgerExact(s);
    }
  }

  /**
   A restart at any moment of such a run, also in the middle of calls: a fresh manager over what the store
   holds rebuilds exactly those sessions and parts within the old capacity, and after a quiet moment also
   the old manager's sessions and total.
   */
  method RestartAt(ghost states: seq<Ledger>, ghost steps: seq<LedgerStep>, ghost i: nat, capacity: int,
                   store: SessionStore, scratch: Scratch, maxPartSize: int, maxUploadSize: int,
                   etagOf: Bytes -> string)
    returns (m: Manager)
    requires SequentialRun(states, steps) && i < |states| && states[0].stored == map[]
    requires states[0].capacity == capacity && store.sessions == states[i].stored
    ensures m.Consistent() && m.store == store && m.ledger.capacity == capacity
    ensures m.sessions == states[i].stored
    ensures m.ledger.used == Reserved(states[i].stored) <= states[i].used <= Bound(capacity)
    ensures states[i].calls == map[] ==> m.sessions == states[i].sessions && m.ledger.used == states[i].used
  {
    hide SequentialRun, Reserved;
    DurableFits(states, steps, i);
    CapacityOfRun(states, steps);
    var ledger := new DiskReservations(capacity);
    m := new Manager(store, ledger, scratch, maxPartSize, maxUploadSize, etagOf, true);
    var err := m.LoadActive();
  }

  lemma CapacityOfRun(states: seq<Ledger>, steps: seq<LedgerStep>)
    requires SequentialRun(states, steps)
    ensures Capacity(states[0].capacity)
  {
  }
}
