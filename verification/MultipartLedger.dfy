/**
 The multipart byte ledger with any number of calls interleaved.  A step is what one call does between
 two points where another call may get in: a store operation, a change of memory under the mutex, or a
 change of the counter.  Bytes a call still has to give back, or to hand to a session, are its
 outstanding amount.
 */
module MultipartLedger {
  import opened Int64
  import opened Limits
  import opened Metadata
  import opened Multipart
  import opened Sums

  /** A call between two of its steps. */
  datatype Pending =
    | Creating(id: Id, session: Session)
    | Created(id: Id, session: Session)
    | Reading(id: Id, session: Session)
    | Loading(id: Id, session: Session)
    | Placed(id: Id, number: nat, part: Part, r: Reservation)
    | Saved(id: Id, r: Reservation)
    /** held is what memory reserved for the upload when the store forgot it; only proofs read it. */
    | Dropping(id: Id, held: int)
    | Freeing(id: Id, bytes: int)

  /** The counter, the sessions in memory, the sessions in the metadata store, and the calls in progress. */
  datatype Ledger = Ledger(capacity: int, used: int, sessions: Sessions, stored: Sessions, calls: map<nat, Pending>)

  datatype LedgerStep =
    | StartCreate(c: nat, id: Id, session: Session)
    | StoreCreate(c: nat)
    | AbandonCreate(c: nat)
    | FinishCreate(c: nat)
    | ReadStored(c: nat, id: Id)
    | ReserveLoad(c: nat)
    | AbandonLoad(c: nat)
    | FinishLoad(c: nat)
    | Place(c: nat, id: Id, number: nat, part: Part)
    | Save(c: nat)
    | Undo(c: nat)
    | Finish(c: nat)
    | DropStored(c: nat, id: Id)
    | Remove(c: nat)
    | GiveBack(c: nat)

  ghost predicate Fits(s: Ledger, bytes: int) {
    bytes <= 0 || s.used + bytes <= Bound(s.capacity)
  }

  function Given(used: int, bytes: int): int {
    if bytes <= 0 then used else ReleaseNext(used, bytes)
  }

  function ReservedBy(sessions: Sessions, id: Id): int {
    if id in sessions then sessions[id].reserved else 0
  }

  /** Part sizes add up within int64. */
  ghost predicate Placeable(s: Ledger, id: Id, number: nat, part: Part) {
    && id in s.sessions && NewTotal(s.sessions[id], number, part) <= MAX_INT64
    && Fits(s, ReservationFor(s.sessions[id], number, part).delta)
  }

  ghost predicate LedgerEnabled(s: Ledger, step: LedgerStep) {
    match step
    case StartCreate(c, id, session) =>
      c !in s.calls && 0 <= session.reserved <= MAX_INT64 && session.parts == map[] && Fits(s, session.reserved)
    case StoreCreate(c) => c in s.calls && s.calls[c].Creating?
    case AbandonCreate(c) => c in s.calls && s.calls[c].Creating?
    case FinishCreate(c) => c in s.calls && s.calls[c].Created?
    case ReadStored(c, id) => c !in s.calls && id !in s.sessions && id in s.stored
    case ReserveLoad(c) => c in s.calls && s.calls[c].Reading? && Fits(s, s.calls[c].session.reserved)
    case AbandonLoad(c) => c in s.calls && s.calls[c].Reading?
    case FinishLoad(c) => c in s.calls && s.calls[c].Loading?
    case Place(c, id, number, part) => c !in s.calls && Placeable(s, id, number, part)
    case Save(c) => c in s.calls && s.calls[c].Placed? && s.calls[c].id in s.stored
    case Undo(c) => c in s.calls && s.calls[c].Placed?
    case Finish(c) => c in s.calls && s.calls[c].Saved?
    case DropStored(c, id) => c !in s.calls
    case Remove(c) => c in s.calls && s.calls[c].Dropping?
    case GiveBack(c) => c in s.calls && s.calls[c].Freeing?
  }

  ghost function LedgerNext(s: Ledger, step: LedgerStep): Ledger
    requires LedgerEnabled(s, step)
  {
    match step
    case StartCreate(c, id, session) =>
      s.(used := s.used + Max(session.reserved, 0), calls := s.calls[c := Creating(id, session)])
    case StoreCreate(c) =>
      var call := s.calls[c];
      s.(stored := s.stored[call.id := call.session], calls := s.calls[c := Created(call.id, call.session)])
    case AbandonCreate(c) =>
      s.(used := Given(s.used, s.calls[c].session.reserved), calls := s.calls - {c})
    case FinishCreate(c) =>
      s.(sessions := s.sessions[s.calls[c].id := s.calls[c].session], calls := s.calls - {c})
    case ReadStored(c, id) =>
      s.(calls := s.calls[c := Reading(id, s.stored[id])])
    case ReserveLoad(c) =>
      var call := s.calls[c];
      s.(used := s.used + Max(call.session.reserved, 0), calls := s.calls[c := Loading(call.id, call.session)])
    case AbandonLoad(c) =>
      s.(calls := s.calls - {c})
    case FinishLoad(c) =>
      var call := s.calls[c];
      if call.id in s.sessions then s.(used := Given(s.used, call.session.reserved), calls := s.calls - {c})
      else s.(sessions := s.sessions[call.id := call.session], calls := s.calls - {c})
    case Place(c, id, number, part) =>
      var r := ReservationFor(s.sessions[id], number, part);
      s.(used := s.used + Max(r.delta, 0),
         sessions := s.sessions[id := WithPart(s.sessions[id], number, part, r.reserved)],
         calls := s.calls[c := Placed(id, number, part, r)])
    case Save(c) =>
      var call := s.calls[c];
      s.(stored := s.stored[call.id := WithPart(s.stored[call.id], call.number, call.part, call.r.reserved)],
         calls := s.calls[c := Saved(call.id, call.r)])
    case Undo(c) =>
      var call := s.calls[c];
      s.(sessions := if call.id in s.sessions
                     then s.sessions[call.id := Restored(s.sessions[call.id], call.number, call.r)] else s.sessions,
         calls := s.calls[c := Freeing(call.id, Max(call.r.delta, 0))])
    case Finish(c) =>
      s.(used := Given(s.used, -s.calls[c].r.delta), calls := s.calls - {c})
    case DropStored(c, id) =>
      s.(stored := s.stored - {id}, calls := s.calls[c := Dropping(id, ReservedBy(s.sessions, id))])
    case Remove(c) =>
      var id := s.calls[c].id;
      s.(sessions := s.sessions - {id}, calls := s.calls[c := Freeing(id, ReservedBy(s.sessions, id))])
    case GiveBack(c) =>
      s.(used := Given(s.used, s.calls[c].bytes), calls := s.calls - {c})
  }

  // ---------------------------------------------------------------- the balance

  /** Bytes counted for a call rather than for a session. */
  function Outstanding(call: Pending): int {
    match call
    case Creating(_, session) => session.reserved
    case Created(_, session) => session.reserved
    case Reading(_, _) => 0
    case Loading(_, session) => session.reserved
    case Placed(_, _, _, r) => Max(-r.delta, 0)
    case Saved(_, r) => Max(-r.delta, 0)
    case Dropping(_, _) => 0
    case Freeing(_, bytes) => bytes
  }

  ghost function Amounts(calls: map<nat, Pending>): map<nat, int> {
    map c | c in calls :: Outstanding(calls[c])
  }

  ghost function AllOutstanding(calls: map<nat, Pending>): int { Sum(Amounts(calls)) }

  /** What the counter holds beyond the reservations of sessions and the outstanding amounts of calls. */
  ghost function Excess(s: Ledger): int { s.used - Reserved(s.sessions) - AllOutstanding(s.calls) }

  predicate SoundCall(call: Pending) {
    && Outstanding(call) >= 0
    && (call.Reading? ==> call.session.reserved >= 0)
    && (call.Placed? ==> call.r.previousReserved >= 0 && call.r.reserved >= 0)
    && (call.Placed? ==> call.r.delta == call.r.reserved - call.r.previousReserved)
  }

  ghost predicate NonNegative(sessions: Sessions) {
    forall id :: id in sessions ==> sessions[id].reserved >= 0
  }

  ghost predicate SoundLedger(s: Ledger) {
    && NonNegative(s.sessions) && NonNegative(s.stored)
    && (forall c :: c in s.calls ==> SoundCall(s.calls[c]))
    && s.used <= Bound(s.capacity)
  }

  ghost predicate LedgerInv(s: Ledger) {
    SoundLedger(s) && Excess(s) == 0
  }

  lemma CallChanges(calls: map<nat, Pending>, c: nat, call: Pending)
    ensures AllOutstanding(calls[c := call]) ==
            AllOutstanding(calls) - (if c in calls then Outstanding(calls[c]) else 0) + Outstanding(call)
  {
    hide Sum, Outstanding;
    assert Amounts(calls[c := call]) == Amounts(calls)[c := Outstanding(call)];
    SumUpdate(Amounts(calls), c, Outstanding(call));
  }

  lemma CallEnds(calls: map<nat, Pending>, c: nat)
    requires c in calls
    ensures AllOutstanding(calls - {c}) == AllOutstanding(calls) - Outstanding(calls[c])
  {
    hide Sum, Outstanding;
    assert Amounts(calls - {c}) == Amounts(calls) - {c};
    SumRemove(Amounts(calls), c);
  }

  lemma ReservedNotNegative(sessions: Sessions)
    requires NonNegative(sessions)
    ensures Reserved(sessions) >= 0
  {
    SumNonNegative(Reservations(sessions));
  }

  /** What a call still owes is part of the counter, so giving it back is never clamped. */
  lemma NothingIsClamped(s: Ledger, c: nat)
    requires SoundLedger(s) && Excess(s) >= 0
    ensures s.used >= 0
    ensures c in s.calls ==> Given(s.used, Outstanding(s.calls[c])) == s.used - Outstanding(s.calls[c]) >= 0
  {
    hide Reserved, Outstanding, Bound;
    ReservedNotNegative(s.sessions);
    forall d | d in s.calls ensures Amounts(s.calls)[d] >= 0 {
      assert SoundCall(s.calls[d]);
    }
    SumNonNegative(Amounts(s.calls));
    if c in s.calls {
      assert Amounts(s.calls)[c] == Outstanding(s.calls[c]);
      assert SoundCall(s.calls[c]);
    }
  }

  /**
   When a step keeps the balance: an undo whose session still reserves what this call left it with (or,
   the session gone, had nothing to give back), and a create that overwrites no reservation.
   */
  ghost predicate Careful(s: Ledger, step: LedgerStep)
    requires LedgerEnabled(s, step)
  {
    match step
    case FinishCreate(c) => ReservedBy(s.sessions, s.calls[c].id) == 0
    case Undo(c) =>
      var call := s.calls[c];
      if call.id in s.sessions then s.sessions[call.id].reserved == call.r.reserved else call.r.delta == 0
    case _ => true
  }

  /** How far a step moves the counter away from what sessions and calls account for. */
  ghost function Drift(s: Ledger, step: LedgerStep): int
    requires LedgerEnabled(s, step)
  {
    match step
    case FinishCreate(c) => ReservedBy(s.sessions, s.calls[c].id)
    case Undo(c) =>
      var call := s.calls[c];
      if call.id in s.sessions then s.sessions[call.id].reserved - call.r.reserved else -call.r.delta
    case _ => 0
  }

  /** The upload a step is about. */
  function Owner(s: Ledger, step: LedgerStep): Id
    requires LedgerEnabled(s, step)
  {
    match step
    case StartCreate(_, id, _) => id
    case ReadStored(_, id) => id
    case Place(_, id, _, _) => id
    case DropStored(_, id) => id
    case _ => s.calls[step.c].id
  }

  function OutstandingOf(calls: map<nat, Pending>, c: nat): int {
    if c in calls then Outstanding(calls[c]) else 0
  }

  /** The two differ at most at this upload. */
  ghost predicate MovedAt(sessions: Sessions, sessions1: Sessions, id: Id) {
    if id in sessions1 then sessions1 == sessions[id := sessions1[id]] else sessions1 == sessions - {id}
  }

  lemma StepMovesCall(s: Ledger, step: LedgerStep)
    requires LedgerEnabled(s, step)
    ensures var s1, id := LedgerNext(s, step), Owner(s, step);
            && (if step.c in s1.calls then s1.calls == s.calls[step.c := s1.calls[step.c]] && s1.calls[step.c].id == id
                else step.c in s.calls && s1.calls == s.calls - {step.c})
            && (step.c in s.calls ==> s.calls[step.c].id == id)
  {
    hide Given, Fits, Placeable, ReservationFor, WithPart, Restored, ReservedBy;
  }

  lemma StepMovesUpload(s: Ledger, step: LedgerStep)
    requires LedgerEnabled(s, step)
    ensures var s1, id := LedgerNext(s, step), Owner(s, step);
            MovedAt(s.sessions, s1.sessions, id) && MovedAt(s.stored, s1.stored, id)
  {
    hide Given, Fits, Placeable, ReservationFor, WithPart, Restored, ReservedBy;
  }

  /** A step rewrites its own call and at most its own upload in memory and store. */
  lemma StepShape(s: Ledger, step: LedgerStep)
    requires LedgerEnabled(s, step)
    ensures var s1, id := LedgerNext(s, step), Owner(s, step);
            && (if step.c in s1.calls then s1.calls == s.calls[step.c := s1.calls[step.c]] && s1.calls[step.c].id == id
                else step.c in s.calls && s1.calls == s.calls - {step.c})
            && (step.c in s.calls ==> s.calls[step.c].id == id)
            && MovedAt(s.sessions, s1.sessions, id) && MovedAt(s.stored, s1.stored, id)
  {
    hide LedgerNext, LedgerEnabled, Owner;
    StepMovesCall(s, step);
    StepMovesUpload(s, step);
  }

  lemma ReservedMoves(sessions: Sessions, sessions1: Sessions, id: Id)
    requires MovedAt(sessions, sessions1, id)
    ensures Reserved(sessions1) == Reserved(sessions) - ReservedBy(sessions, id) + ReservedBy(sessions1, id)
  {
    hide Reserved;
    if id in sessions1 {
      ReservedChanges(sessions, id, sessions1[id]);
    } else if id in sessions {
      ReservedLoses(sessions, id);
    } else {
      assert sessions - {id} == sessions;
    }
  }

  lemma OutstandingMoves(calls: map<nat, Pending>, calls1: map<nat, Pending>, c: nat)
    requires if c in calls1 then calls1 == calls[c := calls1[c]] else c in calls && calls1 == calls - {c}
    ensures AllOutstanding(calls1) == AllOutstanding(calls) - OutstandingOf(calls, c) + OutstandingOf(calls1, c)
  {
    hide AllOutstanding;
    if c in calls1 {
      CallChanges(calls, c, calls1[c]);
    } else {
      CallEnds(calls, c);
    }
  }

  /** The counter moves with the upload's reservation and the call's amount, but for the drift. */
  lemma UsedMoves(s: Ledger, step: LedgerStep)
    requires LedgerEnabled(s, step)
    requires step.c in s.calls ==> SoundCall(s.calls[step.c])
    requires step.c in s.calls ==>
               Given(s.used, OutstandingOf(s.calls, step.c)) == s.used - OutstandingOf(s.calls, step.c)
    ensures var s1, id := LedgerNext(s, step), Owner(s, step);
            s1.used - s.used == ReservedBy(s1.sessions, id) - ReservedBy(s.sessions, id)
                                + OutstandingOf(s1.calls, step.c) - OutstandingOf(s.calls, step.c) + Drift(s, step)
  {
    hide Fits, NewTotal;
  }

  /** From any sound state, balanced or leaking, a step adds exactly its drift. */
  lemma StepDrifts(s: Ledger, step: LedgerStep)
    requires SoundLedger(s) && Excess(s) >= 0 && LedgerEnabled(s, step)
    ensures Excess(LedgerNext(s, step)) == Excess(s) + Drift(s, step)
  {
    hide LedgerNext, LedgerEnabled, Owner, Drift, Given, Reserved, AllOutstanding, Outstanding, ReservedBy, Bound;
    NothingIsClamped(s, step.c);
    if step.c in s.calls {
      assert SoundCall(s.calls[step.c]);
    }
    var s1 := LedgerNext(s, step);
    StepShape(s, step);
    UsedMoves(s, step);
    ReservedMoves(s.sessions, s1.sessions, Owner(s, step));
    OutstandingMoves(s.calls, s1.calls, step.c);
  }

  /** What a step leaves of its own call and its own upload is sound. */
  lemma OwnSound(s: Ledger, step: LedgerStep)
    requires SoundLedger(s) && LedgerEnabled(s, step)
    requires step.c in s.calls ==>
               Given(s.used, OutstandingOf(s.calls, step.c)) == s.used - OutstandingOf(s.calls, step.c)
    ensures var s1, id := LedgerNext(s, step), Owner(s, step);
            && ReservedBy(s1.sessions, id) >= 0 && ReservedBy(s1.stored, id) >= 0
            && (step.c in s1.calls ==> SoundCall(s1.calls[step.c]))
            && s1.used <= Bound(s.capacity) && s1.capacity == s.capacity
  {
    hide NewTotal, Bound;
    if step.c in s.calls {
      assert SoundCall(s.calls[step.c]);
    }
    if step.Place? {
      PlaceSound(s.sessions[step.id], step.number, step.part);
    }
  }

  lemma StepKeepsSound(s: Ledger, step: LedgerStep)
    requires SoundLedger(s) && Excess(s) >= 0 && LedgerEnabled(s, step)
    ensures SoundLedger(LedgerNext(s, step)) && LedgerNext(s, step).capacity == s.capacity
  {
    hide LedgerNext, LedgerEnabled, Owner, Excess, Bound, SoundCall, Outstanding, Given;
    NothingIsClamped(s, step.c);
    StepShape(s, step);
    OwnSound(s, step);
  }

  lemma PlaceSound(s: Session, number: nat, part: Part)
    requires s.reserved >= 0
    ensures NewTotal(s, number, part) >= 0
  {
    TotalChanges(s.parts, number, part);
  }

  /** A step keeps the ledger exact if and only if it is careful. */
  lemma StepKeepsLedgerIff(s: Ledger, step: LedgerStep)
    requires LedgerInv(s) && LedgerEnabled(s, step)
    ensures LedgerInv(LedgerNext(s, step)) <==> Careful(s, step)
  {
    hide LedgerNext, LedgerEnabled, SoundLedger, Excess;
    StepDrifts(s, step);
    StepKeepsSound(s, step);
  }

  // ---------------------------------------------------------------- runs

  ghost predicate LedgerRun(states: seq<Ledger>, steps: seq<LedgerStep>) {
    && |states| == |steps| + 1
    && forall i :: 0 <= i < |steps| ==> StepTaken(states, steps, i)
  }

  ghost predicate StepTaken(states: seq<Ledger>, steps: seq<LedgerStep>, i: nat)
    requires i < |steps| && i + 1 < |states|
  {
    LedgerEnabled(states[i], steps[i]) && states[i + 1] == LedgerNext(states[i], steps[i])
  }

  /** The store writes this part, or the whole upload. */
  predicate Writes(s: Ledger, step: LedgerStep, id: Id, number: nat) {
    || (step.DropStored? && step.id == id)
    || (step.StoreCreate? && step.c in s.calls && s.calls[step.c].id == id)
    || (step.Save? && step.c in s.calls && s.calls[step.c].Placed? && s.calls[step.c].id == id
        && s.calls[step.c].number == number)
  }

  /** A part once saved stays in the store as it is until the store writes it again or drops its upload. */
  lemma {:induction false} SavedPartStays(states: seq<Ledger>, steps: seq<LedgerStep>, i: nat, j: nat)
    requires LedgerRun(states, steps) && i < j < |states| && steps[i].Save?
    requires steps[i].c in states[i].calls && states[i].calls[steps[i].c].Placed?
    requires var call := states[i].calls[steps[i].c];
             forall k :: i < k < j ==> !Writes(states[k], steps[k], call.id, call.number)
    ensures var call := states[i].calls[steps[i].c];
            && call.id in states[j].stored && call.number in states[j].stored[call.id].parts
            && states[j].stored[call.id].parts[call.number] == call.part
    decreases j
  {
    if j == i + 1 {
      assert StepTaken(states, steps, i);
    } else {
      SavedPartStays(states, steps, i, j - 1);
      assert StepTaken(states, steps, j - 1) && !Writes(states[j - 1], steps[j - 1], states[i].calls[steps[i].c].id,
                                                        states[i].calls[steps[i].c].number);
    }
  }

  /** An upload once dropped stays out of the store until it is created again. */
  lemma {:induction false} DroppedStaysGone(states: seq<Ledger>, steps: seq<LedgerStep>, i: nat, j: nat)
    requires LedgerRun(states, steps) && i < j < |states| && steps[i].DropStored?
    requires forall k :: i < k < j && steps[k].StoreCreate? && steps[k].c in states[k].calls ==>
               states[k].calls[steps[k].c].id != steps[i].id
    ensures steps[i].id !in states[j].stored
    decreases j
  {
    if j == i + 1 {
      assert StepTaken(states, steps, i);
    } else {
      DroppedStaysGone(states, steps, i, j - 1);
      assert StepTaken(states, steps, j - 1);
    }
  }

  ghost predicate CarefulAt(states: seq<Ledger>, steps: seq<LedgerStep>, i: nat)
    requires LedgerRun(states, steps) && i < |steps|
  {
    assert StepTaken(states, steps, i);
    Careful(states[i], steps[i])
  }

  /** A manager that has just started over these stored sessions. */
  ghost predicate Started(s: Ledger) {
    Capacity(s.capacity) && s.used == 0 && s.sessions == map[] && s.calls == map[] && AllTidy(s.stored)
  }

  lemma StartedInv(s: Ledger)
    requires Started(s)
    ensures LedgerInv(s)
  {
    assert Reservations(s.sessions) == map[] && Amounts(s.calls) == map[];
    forall id | id in s.stored ensures s.stored[id].reserved >= 0 {
      assert Tidy(s.stored[id]);
    }
  }

  /**
   In every interleaving in which each undo and each create is careful, the counter is at every moment
   the sum of all session reservations and all outstanding amounts, and never above the capacity.
   */
  lemma {:induction false} CarefulRunsBalance(states: seq<Ledger>, steps: seq<LedgerStep>, i: nat)
    requires LedgerRun(states, steps) && i < |states| && Started(states[0])
    requires forall j :: 0 <= j < i ==> CarefulAt(states, steps, j)
    ensures LedgerInv(states[i])
    decreases i
  {
    if i == 0 {
      StartedInv(states[0]);
    } else {
      CarefulRunsBalance(states, steps, i - 1);
      assert StepTaken(states, steps, i - 1);
      assert CarefulAt(states, steps, i - 1);
      StepKeepsLedgerIff(states[i - 1], steps[i - 1]);
    }
  }

  /** With no call in progress the counter is exactly what the sessions reserve. */
  lemma QuietLedgerExact(s: Ledger)
    requires LedgerInv(s) && s.calls == map[]
    ensures s.used == Reserved(s.sessions)
  {
    assert Amounts(s.calls) == map[];
  }

  /** What has leaked once stays counted through every careful continuation. */
  lemma {:induction false} LeakStays(states: seq<Ledger>, steps: seq<LedgerStep>, i: nat, j: nat)
    requires LedgerRun(states, steps) && i <= j < |states|
    requires SoundLedger(states[i]) && Excess(states[i]) >= 0
    requires forall k :: i <= k < j ==> CarefulAt(states, steps, k)
    ensures SoundLedger(states[j]) && Excess(states[j]) == Excess(states[i])
    decreases j
  {
    hide SoundLedger, Excess;
    if i < j {
      LeakStays(states, steps, i, j - 1);
      assert StepTaken(states, steps, j - 1);
      assert CarefulAt(states, steps, j - 1);
      StepDrifts(states[j - 1], steps[j - 1]);
      StepKeepsSound(states[j - 1], steps[j - 1]);
    }
  }

  // ---------------------------------------------------------------- undoing a part

  /** The steps that write this session in memory. */
  predicate Touches(s: Ledger, step: LedgerStep, id: Id) {
    match step
    case Place(_, i, _, _) => i == id
    case FinishCreate(c) => c in s.calls && s.calls[c].id == id
    case FinishLoad(c) => c in s.calls && s.calls[c].id == id
    case Undo(c) => c in s.calls && s.calls[c].id == id
    case Remove(c) => c in s.calls && s.calls[c].id == id
    case _ => false
  }

  /** From step i up to state j no step belongs to call c or writes the session. */
  ghost predicate Undisturbed(states: seq<Ledger>, steps: seq<LedgerStep>, i: nat, j: nat, c: nat, id: Id)
    requires j <= |steps| && j < |states|
  {
    forall k :: i < k < j ==> steps[k].c != c && !Touches(states[k], steps[k], id)
  }

  lemma UntouchedStays(s: Ledger, step: LedgerStep, c: nat, id: Id)
    requires LedgerEnabled(s, step) && c in s.calls && id in s.sessions
    requires step.c != c && !Touches(s, step, id)
    ensures var s1 := LedgerNext(s, step);
            c in s1.calls && s1.calls[c] == s.calls[c] && id in s1.sessions && s1.sessions[id] == s.sessions[id]
  {
    hide Given, Fits, ReservationFor, WithPart, Restored;
  }

  lemma {:induction false} PlacedStays(states: seq<Ledger>, steps: seq<LedgerStep>, i: nat, j: nat)
    requires LedgerRun(states, steps) && i < j <= |steps| && steps[i].Place?
    requires Undisturbed(states, steps, i, j, steps[i].c, steps[i].id)
    ensures var step := steps[i];
            && StepTaken(states, steps, i)
            && step.c in states[j].calls && step.id in states[j].sessions
            && states[j].calls[step.c] ==
                 Placed(step.id, step.number, step.part,
                        ReservationFor(states[i].sessions[step.id], step.number, step.part))
            && states[j].sessions[step.id] == states[i + 1].sessions[step.id]
    decreases j
  {
    assert StepTaken(states, steps, i);
    if j > i + 1 {
      PlacedStays(states, steps, i, j - 1);
      assert StepTaken(states, steps, j - 1);
      UntouchedStays(states[j - 1], steps[j - 1], steps[i].c, steps[i].id);
    }
  }

  /**
   If nothing else writes the session in between, undoing a part restores the session exactly and keeps the
   balance.
   */
  lemma UndisturbedUndoIsExact(states: seq<Ledger>, steps: seq<LedgerStep>, i: nat, j: nat)
    requires LedgerRun(states, steps) && i < j < |steps| && steps[i].Place? && steps[j] == Undo(steps[i].c)
    requires Undisturbed(states, steps, i, j, steps[i].c, steps[i].id)
    ensures CarefulAt(states, steps, j)
    ensures var id := steps[i].id;
            && id in states[i].sessions && id in states[j + 1].sessions
            && states[j + 1].sessions[id] == states[i].sessions[id]
  {
    PlacedStays(states, steps, i, j);
    assert StepTaken(states, steps, i) && StepTaken(states, steps, j);
    var step := steps[i];
    var session := states[i].sessions[step.id];
    var r := ReservationFor(session, step.number, step.part);
    RestoreUndoes(session, step.number, step.part, r.reserved, r);
  }

  // ---------------------------------------------------------------- an overlapping undo

  lemma TotalsOfTwo(a: Part, b: Part)
    ensures Total(map[]) == 0
    ensures Total(map[1 := a]) == a.size
    ensures Total(map[1 := a, 2 := b]) == a.size + b.size
  {
    var none: map<nat, Part> := map[];
    assert Sizes(none) == map[];
    assert map[1 := a] - {1} == none;
    TotalChanges(none, 1, a);
    assert none[1 := a] == map[1 := a] && none - {1} == none;
    assert map[1 := a] - {2} == map[1 := a] && map[1 := a][2 := b] == map[1 := a, 2 := b];
    TotalChanges(map[1 := a], 2, b);
  }

  ghost function LeakSteps(id: Id, a: Part, b: Part): seq<LedgerStep> {
    [StartCreate(0, id, Session("", "", 0, map[])), StoreCreate(0), FinishCreate(0),
     Place(1, id, 1, a), Place(2, id, 2, b), Undo(1), GiveBack(1), Save(2), Finish(2)]
  }

  ghost function LeakStates(capacity: int, id: Id, a: Part, b: Part): seq<Ledger> {
    var created := Session("", "", 0, map[]);
    var first := Session("", "", a.size, map[1 := a]);
    var second := Session("", "", a.size + b.size, map[1 := a, 2 := b]);
    var undone := Session("", "", 0, map[2 := b]);
    var saved := Session("", "", a.size + b.size, map[2 := b]);
    var one := Placed(id, 1, a, Reservation(a.size, a.size, None, 0));
    var two := Reservation(b.size, a.size + b.size, None, a.size);
    [Ledger(capacity, 0, map[], map[], map[]),
     Ledger(capacity, 0, map[], map[], map[0 := Creating(id, created)]),
     Ledger(capacity, 0, map[], map[id := created], map[0 := Created(id, created)]),
     Ledger(capacity, 0, map[id := created], map[id := created], map[]),
     Ledger(capacity, a.size, map[id := first], map[id := created], map[1 := one]),
     Ledger(capacity, a.size + b.size, map[id := second], map[id := created],
            map[1 := one, 2 := Placed(id, 2, b, two)]),
     Ledger(capacity, a.size + b.size, map[id := undone], map[id := created],
            map[1 := Freeing(id, a.size), 2 := Placed(id, 2, b, two)]),
     Ledger(capacity, b.size, map[id := undone], map[id := created], map[2 := Placed(id, 2, b, two)]),
     Ledger(capacity, b.size, map[id := undone], map[id := saved], map[2 := Saved(id, two)]),
     Ledger(capacity, b.size, map[id := undone], map[id := saved], map[])]
  }

  lemma LeakPlaces(id: Id, a: Part, b: Part)
    ensures var created := Session("", "", 0, map[]);
            && NewTotal(created, 1, a) == a.size
            && ReservationFor(created, 1, a) == Reservation(a.size, a.size, None, 0)
    ensures var first := Session("", "", a.size, map[1 := a]);
            && NewTotal(first, 2, b) == a.size + b.size
            && ReservationFor(first, 2, b) == Reservation(b.size, a.size + b.size, None, a.size)
  {
    TotalsOfTwo(a, b);
    var none: map<nat, Part> := map[];
    assert none[1 := a] == map[1 := a] && map[1 := a][2 := b] == map[1 := a, 2 := b];
  }

  lemma LeakMaps(a: Part, b: Part)
    ensures map[1 := a, 2 := b] - {1} == map[2 := b] && map[1 := a][2 := b] == map[1 := a, 2 := b]
  {
  }

  lemma LeakStepTaken(capacity: int, id: Id, a: Part, b: Part, i: nat)
    requires Capacity(capacity) && a.size + b.size <= Bound(capacity) && i < 9
    ensures StepTaken(LeakStates(capacity, id, a, b), LeakSteps(id, a, b), i)
  {
    hide LedgerNext, LedgerEnabled, LeakStates, LeakSteps;
    LeakStepEnabled(capacity, id, a, b, i);
    if i < 3 {
      LeakCreates(capacity, id, a, b, i);
    } else if i < 5 {
      LeakReserves(capacity, id, a, b, i);
    } else if i == 5 {
      LeakUndoes(capacity, id, a, b, i);
    } else if i == 6 {
      LeakGivesBack(capacity, id, a, b, i);
    } else {
      LeakSaves(capacity, id, a, b, i);
    }
    LeakSizes(capacity, id, a, b);
  }

  lemma LeakSizes(capacity: int, id: Id, a: Part, b: Part)
    ensures |LeakStates(capacity, id, a, b)| == 10 && |LeakSteps(id, a, b)| == 9
  {
  }

  lemma LeakCreates(capacity: int, id: Id, a: Part, b: Part, i: nat)
    requires 0 <= i < 3 && LedgerEnabled(LeakStates(capacity, id, a, b)[i], LeakSteps(id, a, b)[i])
    ensures LedgerNext(LeakStates(capacity, id, a, b)[i], LeakSteps(id, a, b)[i]) ==
            LeakStates(capacity, id, a, b)[i + 1]
  {
    hide LedgerEnabled, ReservationFor, NewTotal;
    LeakPlaces(id, a, b);
    LeakMaps(a, b);
    var states := LeakStates(capacity, id, a, b);
    var s, s1 := LedgerNext(states[i], LeakSteps(id, a, b)[i]), states[i + 1];
    assert s.used == s1.used && s.sessions == s1.sessions;
    assert s.stored == s1.stored && s.calls == s1.calls;
  }

  lemma LeakReserves(capacity: int, id: Id, a: Part, b: Part, i: nat)
    requires 3 <= i < 5 && LedgerEnabled(LeakStates(capacity, id, a, b)[i], LeakSteps(id, a, b)[i])
    ensures LedgerNext(LeakStates(capacity, id, a, b)[i], LeakSteps(id, a, b)[i]) ==
            LeakStates(capacity, id, a, b)[i + 1]
  {
    hide LedgerEnabled, ReservationFor, NewTotal;
    LeakPlaces(id, a, b);
    LeakMaps(a, b);
    var states := LeakStates(capacity, id, a, b);
    var s, s1 := LedgerNext(states[i], LeakSteps(id, a, b)[i]), states[i + 1];
    assert s.used == s1.used && s.sessions == s1.sessions;
    assert s.stored == s1.stored && s.calls == s1.calls;
  }

  lemma LeakUndoes(capacity: int, id: Id, a: Part, b: Part, i: nat)
    requires i == 5 && LedgerEnabled(LeakStates(capacity, id, a, b)[i], LeakSteps(id, a, b)[i])
    ensures LedgerNext(LeakStates(capacity, id, a, b)[i], LeakSteps(id, a, b)[i]) ==
            LeakStates(capacity, id, a, b)[i + 1]
  {
    hide LedgerEnabled, ReservationFor, NewTotal, WithPart, Given;
    LeakPlaces(id, a, b);
    LeakMaps(a, b);
    var states := LeakStates(capacity, id, a, b);
    var s, s1 := LedgerNext(states[i], LeakSteps(id, a, b)[i]), states[i + 1];
    assert s.used == s1.used && s.sessions == s1.sessions;
    assert s.stored == s1.stored && s.calls == s1.calls;
  }

  lemma LeakGivesBack(capacity: int, id: Id, a: Part, b: Part, i: nat)
    requires i == 6 && LedgerEnabled(LeakStates(capacity, id, a, b)[i], LeakSteps(id, a, b)[i])
    ensures LedgerNext(LeakStates(capacity, id, a, b)[i], LeakSteps(id, a, b)[i]) ==
            LeakStates(capacity, id, a, b)[i + 1]
  {
    hide LedgerEnabled, ReservationFor, NewTotal, WithPart, Restored;
    LeakPlaces(id, a, b);
    LeakMaps(a, b);
    var states := LeakStates(capacity, id, a, b);
    var s, s1 := LedgerNext(states[i], LeakSteps(id, a, b)[i]), states[i + 1];
    assert s.used == s1.used && s.sessions == s1.sessions;
    assert s.stored == s1.stored && s.calls == s1.calls;
  }

  lemma LeakSaves(capacity: int, id: Id, a: Part, b: Part, i: nat)
    requires 7 <= i < 9 && LedgerEnabled(LeakStates(capacity, id, a, b)[i], LeakSteps(id, a, b)[i])
    ensures LedgerNext(LeakStates(capacity, id, a, b)[i], LeakSteps(id, a, b)[i]) ==
            LeakStates(capacity, id, a, b)[i + 1]
  {
    hide LedgerEnabled, ReservationFor, NewTotal;
    LeakPlaces(id, a, b);
    LeakMaps(a, b);
    var states := LeakStates(capacity, id, a, b);
    var s, s1 := LedgerNext(states[i], LeakSteps(id, a, b)[i]), states[i + 1];
    assert s.used == s1.used && s.sessions == s1.sessions;
    assert s.stored == s1.stored && s.calls == s1.calls;
  }

  lemma LeakStepEnabled(capacity: int, id: Id, a: Part, b: Part, i: nat)
    requires Capacity(capacity) && a.size + b.size <= Bound(capacity) && i < 9
    ensures LedgerEnabled(LeakStates(capacity, id, a, b)[i], LeakSteps(id, a, b)[i])
  {
    hide ReservationFor, NewTotal;
    LeakPlaces(id, a, b);
    assert Bound(capacity) <= MAX_INT64;
  }

  /**
   Two parts of one upload, the first rolled back after the second was reserved for: the counter keeps
   the second part's bytes although no session in memory and no call accounts for them, and LeakStays
   says that they stay.  Memory and store no longer agree on the upload's reservation either.
   */
  lemma OverlappingUndoLeaks(capacity: int, id: Id, a: Part, b: Part)
    returns (states: seq<Ledger>, steps: seq<LedgerStep>)
    requires Capacity(capacity) && a.size + b.size <= Bound(capacity)
    ensures LedgerRun(states, steps) && Started(states[0]) && states[0].stored == map[]
    ensures var s := states[|steps|];
            && s.calls == map[] && Reserved(s.sessions) == 0 && s.used == b.size
            && SoundLedger(s) && Excess(s) == b.size
            && id in s.sessions && id in s.stored && s.stored[id].reserved == s.sessions[id].reserved + a.size + b.size
  {
    hide StepTaken;
    states, steps := LeakStates(capacity, id, a, b), LeakSteps(id, a, b);
    forall i | 0 <= i < |steps| ensures StepTaken(states, steps, i) {
      LeakStepTaken(capacity, id, a, b, i);
    }
    LeakedState(states[|steps|], id, b);
  }

  lemma LeakedState(s: Ledger, id: Id, b: Part)
    requires s.calls == map[] && s.sessions == map[id := Session("", "", 0, map[2 := b])]
    ensures Reserved(s.sessions) == 0 && Excess(s) == s.used
  {
    ReservedChanges(map[], id, s.sessions[id]);
    assert Reservations(map[]) == map[] && Amounts(s.calls) == map[];
    assert s.sessions == map[][id := s.sessions[id]];
  }
}
