/**
 Byte reservations and the upload semaphore: compare-and-swap loops, one load or swap per step, any
 number of callers interleaved.
 */
module Limits {
  import opened Int64
  import opened Metadata
  import opened Sums

  /** One pass of the reserve loop over a loaded value; None is a refusal. */
  function ReserveNext(capacity: int, current: int, bytes: int): Option<int> {
    var next := WrapInt64(current + bytes);
    if next < current || (capacity > 0 && next > capacity) then None else Some(next)
  }

  /** One pass of the release loop; the result is clamped at zero. */
  function ReleaseNext(current: int, bytes: int): int {
    if current - bytes < 0 then 0 else current - bytes
  }

  function Bound(capacity: int): int { if capacity > 0 then capacity else MAX_INT64 }

  predicate Capacity(capacity: int) { capacity <= MAX_INT64 }

  /** The wrap test refuses exactly the sums above the capacity, or above int64 when unlimited. */
  lemma ReserveExact(capacity: int, current: int, bytes: int)
    requires Capacity(capacity) && 0 <= current <= Bound(capacity) && 0 < bytes <= MAX_INT64
    ensures ReserveNext(capacity, current, bytes) ==
            if current + bytes <= MAX_INT64 && (capacity > 0 ==> current + bytes <= capacity)
            then Some(current + bytes) else None
  {
  }

  /** The counter as its callers see it between two of their own steps. */
  class DiskReservations {
    const capacity: int
    var used: int

    constructor (capacity: int)
      requires Capacity(capacity)
      ensures this.capacity == capacity && used == 0 && Valid()
    {
      this.capacity, used := capacity, 0;
    }

    predicate Valid()
      reads this
    {
      Capacity(capacity) && 0 <= used <= Bound(capacity)
    }

    method TryReserve(bytes: int) returns (ok: bool)
      requires Valid() && bytes <= MAX_INT64
      modifies this
      ensures Valid()
      ensures ok <==> && bytes >= 0 && old(used) + bytes <= MAX_INT64
                      && (capacity > 0 ==> old(used) + bytes <= capacity)
      ensures used == if ok then old(used) + bytes else old(used)
    {
      if bytes < 0 {
        return false;
      }
      if bytes == 0 {
        return true;
      }
      ReserveExact(capacity, used, bytes);
      var next := ReserveNext(capacity, used, bytes);
      if next.None? {
        return false;
      }
      used := next.value;
      return true;
    }

    method Release(bytes: int)
      requires Valid()
      modifies this
      ensures Valid()
      ensures used == if bytes <= 0 then old(used) else if old(used) < bytes then 0 else old(used) - bytes
    {
      if bytes <= 0 {
        return;
      }
      used := ReleaseNext(used, bytes);
    }
  }

  // ---------------------------------------------------------------- interleaved reservations

  /** A caller: reserving (perhaps with a loaded value), waiting for the disk check, holding, or releasing. */
  datatype Caller =
    | Reserving(bytes: int, loaded: Option<int>)
    | Checking(bytes: int)
    | Holding(bytes: int)
    | Releasing(bytes: int, loaded: Option<int>)

  datatype Disk = Disk(capacity: int, used: int, callers: map<nat, Caller>)

  datatype DiskStep =
    | Ask(c: nat, bytes: int)
    | Load(c: nat)
    | Swap(c: nat)
    | CheckOk(c: nat)
    | CheckFailed(c: nat)
    | Free(c: nat)

  ghost predicate DiskEnabled(s: Disk, step: DiskStep) {
    match step
    case Ask(c, bytes) => c !in s.callers && 0 < bytes <= MAX_INT64
    case Load(c) => c in s.callers && (s.callers[c].Reserving? || s.callers[c].Releasing?) && s.callers[c].loaded.None?
    case Swap(c) => c in s.callers && (s.callers[c].Reserving? || s.callers[c].Releasing?) && s.callers[c].loaded.Some?
    case CheckOk(c) => c in s.callers && s.callers[c].Checking?
    case CheckFailed(c) => c in s.callers && s.callers[c].Checking?
    case Free(c) => c in s.callers && s.callers[c].Holding?
  }

  ghost function DiskNext(s: Disk, step: DiskStep): Disk
    requires DiskEnabled(s, step)
  {
    match step
    case Ask(c, bytes) => s.(callers := s.callers[c := Reserving(bytes, None)])
    case Load(c) =>
      var caller := s.callers[c];
      if caller.Reserving? && ReserveNext(s.capacity, s.used, caller.bytes).None?
      then s.(callers := s.callers - {c})
      else s.(callers := s.callers[c := caller.(loaded := Some(s.used))])
    case Swap(c) =>
      var caller := s.callers[c];
      if caller.loaded.value != s.used then s.(callers := s.callers[c := caller.(loaded := None)])
      else if caller.Reserving? then
        var next := ReserveNext(s.capacity, caller.loaded.value, caller.bytes);
        if next.None? then s else s.(used := next.value, callers := s.callers[c := Checking(caller.bytes)])
      else s.(used := ReleaseNext(caller.loaded.value, caller.bytes), callers := s.callers - {c})
    case CheckOk(c) => s.(callers := s.callers[c := Holding(s.callers[c].bytes)])
    case CheckFailed(c) => s.(callers := s.callers[c := Releasing(s.callers[c].bytes, None)])
    case Free(c) => s.(callers := s.callers[c := Releasing(s.callers[c].bytes, None)])
  }

  function Held(caller: Caller): int { if caller.Reserving? then 0 else caller.bytes }

  ghost function Holdings(callers: map<nat, Caller>): map<nat, int> {
    map c | c in callers :: Held(callers[c])
  }

  /** A caller asks for a positive number of bytes and only swaps after a load that was not refused. */
  ghost predicate Sensible(capacity: int, caller: Caller) {
    && 0 < caller.bytes <= MAX_INT64
    && (caller.Reserving? && caller.loaded.Some? ==> ReserveNext(capacity, caller.loaded.value, caller.bytes).Some?)
  }

  ghost predicate AllSensible(s: Disk) {
    forall c :: c in s.callers ==> Sensible(s.capacity, s.callers[c])
  }

  /** The counter is the sum of what callers hold, within its bounds. */
  ghost predicate DiskInv(s: Disk) {
    && Capacity(s.capacity)
    && s.used == Sum(Holdings(s.callers)) && 0 <= s.used <= Bound(s.capacity)
    && AllSensible(s)
  }

  lemma CallerChanges(callers: map<nat, Caller>, c: nat, caller: Caller)
    ensures Sum(Holdings(callers[c := caller])) ==
            Sum(Holdings(callers)) - (if c in callers then Held(callers[c]) else 0) + Held(caller)
  {
    hide Sum, Held;
    assert Holdings(callers[c := caller]) == Holdings(callers)[c := Held(caller)];
    SumUpdate(Holdings(callers), c, Held(caller));
  }

  lemma CallerLeaves(callers: map<nat, Caller>, c: nat)
    requires c in callers
    ensures Sum(Holdings(callers - {c})) == Sum(Holdings(callers)) - Held(callers[c])
  {
    hide Sum, Held;
    assert Holdings(callers - {c}) == Holdings(callers) - {c};
    SumRemove(Holdings(callers), c);
  }

  lemma HeldIsCounted(s: Disk, c: nat)
    requires DiskInv(s) && c in s.callers
    ensures 0 <= Held(s.callers[c]) <= s.used
  {
    forall d | d in s.callers ensures Holdings(s.callers)[d] >= 0 {
      assert Sensible(s.capacity, s.callers[d]);
    }
    SumNonNegative(Holdings(s.callers));
    assert Holdings(s.callers)[c] == Held(s.callers[c]);
    assert Sensible(s.capacity, s.callers[c]);
  }

  /** The bytes a step adds to the counter: a whole reservation, a whole release, or nothing. */
  ghost function Change(s: Disk, step: DiskStep): int
    requires DiskEnabled(s, step)
  {
    if step.Swap? && s.callers[step.c].loaded.value == s.used then
      if s.callers[step.c].Reserving? then s.callers[step.c].bytes else -s.callers[step.c].bytes
    else
      0
  }

  /** A step changes the counter by exactly that, inside its bounds; no release is ever clamped. */
  lemma StepsAreAtomic(s: Disk, step: DiskStep)
    requires DiskInv(s) && DiskEnabled(s, step)
    ensures DiskNext(s, step).used == s.used + Change(s, step)
    ensures 0 <= s.used + Change(s, step) <= Bound(s.capacity)
  {
    if step.Swap? {
      HeldIsCounted(s, step.c);
      assert Sensible(s.capacity, s.callers[step.c]);
      ReserveExact(s.capacity, s.used, s.callers[step.c].bytes);
    }
  }

  /** A caller is refused only at a moment when its bytes do not fit. */
  lemma RefusedOnlyWhenFull(s: Disk, c: nat)
    requires DiskInv(s) && DiskEnabled(s, Load(c)) && s.callers[c].Reserving?
    ensures c !in DiskNext(s, Load(c)).callers <==>
              || s.used + s.callers[c].bytes > MAX_INT64
              || (s.capacity > 0 && s.used + s.callers[c].bytes > s.capacity)
  {
    assert Sensible(s.capacity, s.callers[c]);
    ReserveExact(s.capacity, s.used, s.callers[c].bytes);
  }

  /**
   A caller whose disk check fails gives back exactly what it took: its next load and swap lower the counter
   by it.
   */
  lemma FailedCheckReturnsBytes(s: Disk, c: nat)
    requires DiskInv(s) && DiskEnabled(s, CheckFailed(c))
    ensures var s1 := DiskNext(s, CheckFailed(c));
            && s1.used == s.used && DiskEnabled(s1, Load(c))
            && var s2 := DiskNext(s1, Load(c));
               && DiskEnabled(s2, Swap(c))
               && DiskNext(s2, Swap(c)) == s.(used := s.used - s.callers[c].bytes, callers := s.callers - {c})
  {
    HeldIsCounted(s, c);
    assert Sensible(s.capacity, s.callers[c]);
    var s1 := DiskNext(s, CheckFailed(c));
    var s2 := DiskNext(s1, Load(c));
    assert s2.callers - {c} == s.callers - {c};
  }

  /** A step touches one caller: it is rewritten, or leaves. */
  lemma StepShape(s: Disk, step: DiskStep)
    requires DiskInv(s) && DiskEnabled(s, step)
    ensures var s1 := DiskNext(s, step);
            if step.c in s1.callers then s1.callers == s.callers[step.c := s1.callers[step.c]]
            else step.c in s.callers && s1.callers == s.callers - {step.c}
  {
    hide Holdings, Held, Sum;
  }

  ghost function HeldAt(callers: map<nat, Caller>, c: nat): int {
    if c in callers then Held(callers[c]) else 0
  }

  lemma StepHeld(s: Disk, step: DiskStep)
    requires DiskInv(s) && DiskEnabled(s, step)
    ensures HeldAt(DiskNext(s, step).callers, step.c) == HeldAt(s.callers, step.c) + Change(s, step)
  {
    hide Holdings, Sum;
    if step.Swap? {
      assert Sensible(s.capacity, s.callers[step.c]);
    }
  }

  lemma StepKeepsSum(s: Disk, step: DiskStep)
    requires DiskInv(s) && DiskEnabled(s, step)
    ensures Sum(Holdings(DiskNext(s, step).callers)) == s.used + Change(s, step)
  {
    hide DiskNext, Change, DiskEnabled, AllSensible, Holdings, Sum;
    StepShape(s, step);
    StepHeld(s, step);
    var s1 := DiskNext(s, step);
    if step.c in s1.callers {
      CallerChanges(s.callers, step.c, s1.callers[step.c]);
    } else {
      CallerLeaves(s.callers, step.c);
    }
  }

  lemma StepKeepsSensible(s: Disk, step: DiskStep)
    requires DiskInv(s) && DiskEnabled(s, step)
    ensures AllSensible(DiskNext(s, step))
  {
    var s1 := DiskNext(s, step);
    forall d | d in s1.callers ensures Sensible(s.capacity, s1.callers[d]) {
      if d in s.callers {
        assert Sensible(s.capacity, s.callers[d]);
      }
    }
  }

  lemma DiskStepKeeps(s: Disk, step: DiskStep)
    requires DiskInv(s) && DiskEnabled(s, step)
    ensures DiskInv(DiskNext(s, step)) && DiskNext(s, step).capacity == s.capacity
  {
    hide Holdings, Sum;
    StepsAreAtomic(s, step);
    StepKeepsSum(s, step);
    StepKeepsSensible(s, step);
  }

  ghost predicate DiskRun(states: seq<Disk>, steps: seq<DiskStep>) {
    && |states| == |steps| + 1
    && forall i :: 0 <= i < |steps| ==>
         DiskEnabled(states[i], steps[i]) && states[i + 1] == DiskNext(states[i], steps[i])
  }

  /** In every interleaving the counter stays in bounds, and is zero once nothing is held. */
  lemma {:induction false} ReservationsBalance(states: seq<Disk>, steps: seq<DiskStep>, i: nat)
    requires DiskRun(states, steps) && i < |states|
    requires Capacity(states[0].capacity) && states[0].used == 0 && states[0].callers == map[]
    ensures DiskInv(states[i]) && 0 <= states[i].used <= MAX_INT64
    ensures states[i].capacity == states[0].capacity
    ensures states[0].capacity > 0 ==> states[i].used <= states[0].capacity
    ensures (forall c :: c in states[i].callers ==> states[i].callers[c].Reserving?) ==> states[i].used == 0
    decreases i
  {
    hide DiskNext, DiskEnabled;
    if i == 0 {
      SumZero(Holdings(states[0].callers));
    } else {
      ReservationsBalance(states, steps, i - 1);
      assert DiskEnabled(states[i - 1], steps[i - 1]);
      DiskStepKeeps(states[i - 1], steps[i - 1]);
    }
    if forall c :: c in states[i].callers ==> states[i].callers[c].Reserving? {
      SumZero(Holdings(states[i].callers));
    }
  }

  // ---------------------------------------------------------------- the semaphore

  /** The limit in force: processors less headroom, at least one, at most the configured maximum. */
  function Limit(processors: int, headroom: int, maxLimit: int): (limit: int)
    ensures maxLimit > 0 ==> 1 <= limit <= maxLimit
    ensures maxLimit > 0 && 1 <= processors - headroom <= maxLimit ==> limit == processors - headroom
    ensures maxLimit > 0 && processors - headroom > maxLimit ==> limit == maxLimit
    ensures processors - headroom < 1 ==> limit == 1
  {
    var free := if processors - headroom < 1 then 1 else processors - headroom;
    if maxLimit > 0 && free > maxLimit then maxLimit else free
  }

  /** A caller of Acquire: trying with a loaded count, admitted, or finished. */
  datatype Permit = Trying(loaded: int) | Admitted | Finished

  datatype Semaphore = Semaphore(limit: int, active: int, permits: map<nat, Permit>)

  datatype PermitStep = LoadActive(c: nat) | SwapActive(c: nat) | ReleasePermit(c: nat)

  ghost predicate PermitEnabled(s: Semaphore, step: PermitStep) {
    match step
    case LoadActive(c) => c !in s.permits
    case SwapActive(c) => c in s.permits && s.permits[c].Trying?
    case ReleasePermit(c) => c in s.permits && !s.permits[c].Trying?
  }

  ghost function PermitNext(s: Semaphore, step: PermitStep): Semaphore
    requires PermitEnabled(s, step)
  {
    match step
    case LoadActive(c) => s.(permits := s.permits[c := Trying(s.active)])
    case SwapActive(c) =>
      var loaded := s.permits[c].loaded;
      if loaded < s.limit && loaded == s.active
      then s.(active := s.active + 1, permits := s.permits[c := Admitted])
      else s.(permits := s.permits - {c})
    case ReleasePermit(c) =>
      if s.permits[c].Admitted? then s.(active := s.active - 1, permits := s.permits[c := Finished]) else s
  }

  ghost function Holders(permits: map<nat, Permit>): set<nat> {
    set c | c in permits && permits[c].Admitted?
  }

  ghost predicate PermitInv(s: Semaphore) { s.active == |Holders(s.permits)| && s.active <= s.limit }

  lemma HoldersBut(permits: map<nat, Permit>, c: nat)
    ensures |Holders(permits)| == |Holders(permits - {c})| + if c in permits && permits[c].Admitted? then 1 else 0
  {
    if c in permits && permits[c].Admitted? {
      assert Holders(permits) == Holders(permits - {c}) + {c};
    } else {
      assert Holders(permits) == Holders(permits - {c});
    }
  }

  lemma PermitStepKeeps(s: Semaphore, step: PermitStep)
    requires PermitInv(s) && PermitEnabled(s, step)
    ensures PermitInv(PermitNext(s, step))
  {
    hide Holders;
    var s1 := PermitNext(s, step);
    HoldersBut(s.permits, step.c);
    HoldersBut(s1.permits, step.c);
    assert s1.permits - {step.c} == s.permits - {step.c};
  }

  ghost predicate PermitRun(states: seq<Semaphore>, steps: seq<PermitStep>) {
    && |states| == |steps| + 1
    && forall i :: 0 <= i < |steps| ==>
         PermitEnabled(states[i], steps[i]) && states[i + 1] == PermitNext(states[i], steps[i])
  }

  /**
   With the limit worked out from processors and headroom, the active count is the number of unreleased
   holders and never exceeds it or the configured maximum, however often releases repeat.
   */
  lemma {:induction false} SemaphoreBounded(states: seq<Semaphore>, steps: seq<PermitStep>, i: nat, processors: int,
                                            headroom: int, maxLimit: int)
    requires PermitRun(states, steps) && i < |states|
    requires states[0].active == 0 && states[0].permits == map[]
    requires maxLimit > 0 && states[0].limit == Limit(processors, headroom, maxLimit)
    ensures states[i].active == |Holders(states[i].permits)| <= states[i].limit <= maxLimit
    ensures states[i].limit == states[0].limit
    decreases i
  {
    if i == 0 {
      assert Holders(states[0].permits) == {};
    } else {
      SemaphoreBounded(states, steps, i - 1, processors, headroom, maxLimit);
      assert PermitEnabled(states[i - 1], steps[i - 1]);
      PermitStepKeeps(states[i - 1], steps[i - 1]);
    }
  }

  /** A caller that loads while a permit is free and swaps before the count changes is admitted, and only such a one. */
  lemma AdmittedIffFree(s: Semaphore, c: nat)
    requires PermitEnabled(s, SwapActive(c))
    ensures var s1, loaded := PermitNext(s, SwapActive(c)), s.permits[c].loaded;
            && (c in s1.permits && s1.permits[c].Admitted? <==> loaded < s.limit && loaded == s.active)
            && s1.active == s.active + if loaded < s.limit && loaded == s.active then 1 else 0
    ensures PermitEnabled(s.(permits := s.permits - {c}), LoadActive(c))
    ensures PermitNext(s.(permits := s.permits - {c}), LoadActive(c)).permits[c] == Trying(s.active)
  {
  }

  /** A release frees one permit, however often it is called. */
  lemma ReleaseFreesOne(s: Semaphore, c: nat)
    requires c in s.permits && s.permits[c].Admitted?
    ensures PermitEnabled(s, ReleasePermit(c))
    ensures var s1 := PermitNext(s, ReleasePermit(c));
            && s1 == s.(active := s.active - 1, permits := s.permits[c := Finished])
            && PermitNext(s1, ReleasePermit(c)) == s1
  {
  }
}
