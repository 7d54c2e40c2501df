/**
 Multipart uploads: sessions and their parts in memory, the durable copy in the metadata store, the
 part files on disk, and the shared byte counter.  Calls on one manager run one after another here;
 MultipartLedger.dfy interleaves them.
 */
module Multipart {
  import opened ByteData
  import opened Int64
  import opened Limits
  import opened Metadata
  import opened NatSets
  import opened Sums

  datatype Id = Id(tenant: string, uploadId: string)

  datatype Part = Part(size: nat, etag: string)

  /** What the manager holds for an upload, and equally what the metadata store keeps of it. */
  datatype Session = Session(bucket: string, key: string, reserved: int, parts: map<nat, Part>)

  type Sessions = map<Id, Session>

  /** Where the bytes of a part live. */
  datatype Slot = Slot(id: Id, number: nat)

  datatype Error = NotFound | BadNumber | PartTooLarge | UploadTooLarge | Full | Failed

  /** What reserving for a part did, kept for undoing it. */
  datatype Reservation = Reservation(delta: int, reserved: int, previous: Option<Part>, previousReserved: int)

  // ---------------------------------------------------------------- sizes and reservations

  ghost function Sizes(parts: map<nat, Part>): map<nat, int> {
    map n | n in parts :: parts[n].size
  }

  ghost function Total(parts: map<nat, Part>): int { Sum(Sizes(parts)) }

  ghost function Reservations(sessions: Sessions): map<Id, int> {
    map id | id in sessions :: sessions[id].reserved
  }

  /** The bytes all these sessions have reserved. */
  ghost function Reserved(sessions: Sessions): int { Sum(Reservations(sessions)) }

  function PartAt(s: Session, number: nat): Option<Part> {
    if number in s.parts then Some(s.parts[number]) else None
  }

  function WithPart(s: Session, number: nat, part: Part, reserved: int): Session {
    s.(parts := s.parts[number := part], reserved := reserved)
  }

  function Restored(s: Session, number: nat, r: Reservation): Session {
    s.(parts := if r.previous.Some? then s.parts[number := r.previous.value] else s.parts - {number},
       reserved := r.previousReserved)
  }

  /** The session total with this part put in place of whatever was at its number. */
  ghost function NewTotal(s: Session, number: nat, part: Part): int { Total(s.parts[number := part]) }

  ghost function ReservationFor(s: Session, number: nat, part: Part): Reservation {
    Reservation(NewTotal(s, number, part) - s.reserved, NewTotal(s, number, part), PartAt(s, number), s.reserved)
  }

  lemma RestoreUndoes(s: Session, number: nat, part: Part, reserved: int, r: Reservation)
    requires r.previous == PartAt(s, number) && r.previousReserved == s.reserved
    ensures Restored(WithPart(s, number, part, reserved), number, r) == s
  {
    if r.previous.Some? {
      assert s.parts[number := part][number := r.previous.value] == s.parts;
    } else {
      assert s.parts[number := part] - {number} == s.parts;
    }
  }

  /** An upload's reservation is an int64 and not negative, and is the size of its parts once it has any. */
  ghost predicate Tidy(s: Session) {
    0 <= s.reserved <= MAX_INT64 && (s.parts == map[] || s.reserved == Total(s.parts))
  }

  ghost predicate AllTidy(sessions: Sessions) {
    forall id :: id in sessions ==> Tidy(sessions[id])
  }

  /** Memory holds nothing the store does not hold in the same words. */
  ghost predicate Mirrors(sessions: Sessions, stored: Sessions) {
    forall id :: id in sessions ==> id in stored && stored[id] == sessions[id]
  }

  /** Every recorded part describes the bytes last accepted for it, and its file holds those or is gone. */
  ghost predicate FilesHonest(stored: Sessions, files: map<Slot, Bytes>, accepted: map<Slot, Bytes>,
                              etagOf: Bytes -> string) {
    forall id, n :: id in stored && n in stored[id].parts ==>
                      PartHonest(stored[id].parts[n], Slot(id, n), files, accepted, etagOf)
  }

  ghost predicate PartHonest(part: Part, slot: Slot, files: map<Slot, Bytes>, accepted: map<Slot, Bytes>,
                             etagOf: Bytes -> string) {
    && slot in accepted && part == Part(|accepted[slot]|, etagOf(accepted[slot]))
    && (slot in files ==> files[slot] == accepted[slot])
  }

  lemma ReservedChanges(sessions: Sessions, id: Id, s: Session)
    ensures Reserved(sessions[id := s]) ==
            Reserved(sessions) - (if id in sessions then sessions[id].reserved else 0) + s.reserved
  {
    assert Reservations(sessions[id := s]) == Reservations(sessions)[id := s.reserved];
    SumUpdate(Reservations(sessions), id, s.reserved);
  }

  lemma ReservedLoses(sessions: Sessions, id: Id)
    requires id in sessions
    ensures Reserved(sessions - {id}) == Reserved(sessions) - sessions[id].reserved
  {
    assert Reservations(sessions - {id}) == Reservations(sessions) - {id};
    SumRemove(Reservations(sessions), id);
  }

  /** One upload's reservation is part of the whole. */
  lemma ReservedHolds(sessions: Sessions, id: Id)
    requires AllTidy(sessions) && id in sessions
    ensures 0 <= sessions[id].reserved <= Reserved(sessions) && sessions[id].reserved <= MAX_INT64
  {
    forall i | i in sessions ensures Reservations(sessions)[i] >= 0 {
      assert Tidy(sessions[i]);
    }
    SumNonNegative(Reservations(sessions));
    assert Reservations(sessions)[id] == sessions[id].reserved;
  }

  lemma {:induction false} ReservedGrows(some: Sessions, all: Sessions)
    requires Mirrors(some, all) && AllTidy(all)
    ensures Reserved(some) <= Reserved(all)
    decreases |some|
  {
    if some == map[] {
      forall i | i in all ensures Reservations(all)[i] >= 0 {
        assert Tidy(all[i]);
      }
      SumNonNegative(Reservations(all));
      assert Reservations(some) == map[];
    } else {
      var id :| id in some;
      assert some.Keys == (some - {id}).Keys + {id};
      ReservedLoses(some, id);
      ReservedLoses(all, id);
      ReservedGrows(some - {id}, all - {id});
    }
  }

  lemma TotalChanges(parts: map<nat, Part>, number: nat, part: Part)
    ensures Total(parts[number := part]) == Total(parts - {number}) + part.size
    ensures number in parts ==> Total(parts) == Total(parts - {number}) + parts[number].size
    ensures Total(parts - {number}) >= 0
  {
    assert Sizes(parts[number := part]) - {number} == Sizes(parts - {number}) == Sizes(parts) - {number};
    SumRemove(Sizes(parts[number := part]), number);
    if number in parts {
      SumRemove(Sizes(parts), number);
    }
    var others := Sizes(parts - {number});
    forall n | n in others ensures others[n] >= 0 {
      assert others[n] == parts[n].size;
    }
    SumNonNegative(others);
  }

  /** With the new part in place the total is at most the part and what was reserved. */
  lemma NewTotalBounds(s: Session, number: nat, part: Part)
    requires Tidy(s)
    ensures 0 <= part.size <= NewTotal(s, number, part) <= part.size + s.reserved
  {
    TotalChanges(s.parts, number, part);
    if s.parts == map[] {
      assert s.parts - {number} == map[];
      assert Sizes(s.parts - {number}) == map[];
    } else if number !in s.parts {
      assert s.parts - {number} == s.parts;
    }
  }

  /**
   The manager adds sizes up in int64.  The session it leaves is tidy exactly when the true total fits;
   from 2^63 on the reservation would turn negative.
   */
  lemma WrappedTotalTidyIff(s: Session, number: nat, part: Part)
    requires Tidy(s) && part.size <= MAX_INT64
    ensures Tidy(WithPart(s, number, part, WrapInt64(NewTotal(s, number, part)))) <==>
            NewTotal(s, number, part) <= MAX_INT64
  {
    NewTotalBounds(s, number, part);
  }

  lemma TwoParts(first: Part, second: Part)
    ensures Total(map[1 := first]) == first.size
    ensures Total(map[1 := first][2 := second]) == first.size + second.size
  {
    hide Sum;
    var none: map<nat, Part> := map[];
    var one: map<nat, Part> := map[1 := first];
    SumZero(Sizes(none));
    TotalChanges(none, 1, first);
    TotalChanges(one, 2, second);
    assert none[1 := first] == one && none - {1} == none && one - {2} == one;
  }

  /** One part as large as int64 allows and one byte more: the reservation becomes the least int64. */
  lemma WrappedTotalTurnsNegative()
    ensures var s := Session("b", "k", MAX_INT64, map[1 := Part(MAX_INT64, "a")]);
            var wrapped := WrapInt64(NewTotal(s, 2, Part(1, "b")));
            Tidy(s) && wrapped == MIN_INT64 < 0 && !Tidy(WithPart(s, 2, Part(1, "b"), wrapped))
  {
    hide Total;
    TwoParts(Part(MAX_INT64, "a"), Part(1, "b"));
  }

  lemma SaveKeepsHonest(stored: Sessions, files: map<Slot, Bytes>, accepted: map<Slot, Bytes>, etagOf: Bytes -> string,
                        id: Id, number: nat, data: Bytes, reserved: int)
    requires FilesHonest(stored, files, accepted, etagOf) && id in stored
    ensures FilesHonest(stored[id := WithPart(stored[id], number, Part(|data|, etagOf(data)), reserved)],
                        files[Slot(id, number) := data], accepted[Slot(id, number) := data], etagOf)
  {
    var stored1 := stored[id := WithPart(stored[id], number, Part(|data|, etagOf(data)), reserved)];
    forall i, n | i in stored1 && n in stored1[i].parts
      ensures PartHonest(stored1[i].parts[n], Slot(i, n), files[Slot(id, number) := data],
                         accepted[Slot(id, number) := data], etagOf)
    {
      if Slot(i, n) != Slot(id, number) {
        assert PartHonest(stored[i].parts[n], Slot(i, n), files, accepted, etagOf);
      }
    }
  }

  /** Losing files, or sessions, breaks nothing that is recorded. */
  lemma LossKeepsHonest(stored: Sessions, files: map<Slot, Bytes>, accepted: map<Slot, Bytes>, etagOf: Bytes -> string,
                        stored1: Sessions, files1: map<Slot, Bytes>)
    requires FilesHonest(stored, files, accepted, etagOf)
    requires Mirrors(stored1, stored)
    requires forall slot :: slot in files1 ==> slot in files && files1[slot] == files[slot]
    ensures FilesHonest(stored1, files1, accepted, etagOf)
  {
    forall i, n | i in stored1 && n in stored1[i].parts
      ensures PartHonest(stored1[i].parts[n], Slot(i, n), files1, accepted, etagOf)
    {
      assert PartHonest(stored[i].parts[n], Slot(i, n), files, accepted, etagOf);
    }
  }

  // ---------------------------------------------------------------- the durable copy and the disk

  class SessionStore {
    var sessions: Sessions

    constructor ()
      ensures sessions == map[]
    {
      sessions := map[];
    }

    method Create(id: Id, session: Session)
      modifies this
      ensures sessions == old(sessions)[id := session]
    {
      sessions := sessions[id := session];
    }

    method SavePart(id: Id, number: nat, part: Part, reserved: int) returns (found: bool)
      modifies this
      ensures found <==> id in old(sessions)
      ensures found ==> sessions == old(sessions)[id := WithPart(old(sessions)[id], number, part, reserved)]
      ensures !found ==> sessions == old(sessions)
    {
      if id !in sessions {
        return false;
      }
      var session := sessions[id];
      session := session.(parts := session.parts[number := part]);
      session := session.(reserved := reserved);
      sessions := sessions[id := session];
      return true;
    }

    method Delete(id: Id) returns (found: bool)
      modifies this
      ensures found <==> id in old(sessions)
      ensures sessions == old(sessions) - {id}
    {
      found := id in sessions;
      sessions := sessions - {id};
    }
  }

  /** The scratch directory, with a record of the bytes last accepted for each part. */
  class Scratch {
    var files: map<Slot, Bytes>
    ghost var accepted: map<Slot, Bytes>

    constructor ()
      ensures files == map[] && accepted == map[]
    {
      files, accepted := map[], map[];
    }
  }

  // ---------------------------------------------------------------- the manager

  /** The other parts among those already visited. */
  ghost function Others(parts: map<nat, Part>, number: nat, seen: set<nat>): map<nat, Part> {
    map n | n in parts && n in seen && n != number :: parts[n]
  }

  lemma OthersNone(parts: map<nat, Part>, number: nat)
    ensures Total(Others(parts, number, {})) == 0
  {
    assert Sizes(Others(parts, number, {})) == map[];
  }

  lemma OthersStep(parts: map<nat, Part>, number: nat, seen: set<nat>, n: nat)
    requires n in parts && n !in seen
    ensures Total(Others(parts, number, seen + {n})) ==
            Total(Others(parts, number, seen)) + if n == number then 0 else parts[n].size
  {
    var before := Others(parts, number, seen);
    if n == number {
      assert Others(parts, number, seen + {n}) == before;
    } else {
      assert Others(parts, number, seen + {n}) == before[n := parts[n]];
      assert before - {n} == before;
      TotalChanges(before, n, parts[n]);
    }
  }

  /** The running int64 total over the parts already visited. */
  ghost function SoFar(parts: map<nat, Part>, number: nat, seen: set<nat>, size: nat): int {
    WrapInt64(size + Total(Others(parts, number, seen)))
  }

  lemma SoFarNone(parts: map<nat, Part>, number: nat, size: nat)
    requires size <= MAX_INT64
    ensures SoFar(parts, number, {}, size) == size
  {
    OthersNone(parts, number);
  }

  lemma SoFarStep(parts: map<nat, Part>, number: nat, seen: set<nat>, n: nat, size: nat)
    requires n in parts && n !in seen
    ensures SoFar(parts, number, seen + {n}, size) ==
            if n == number then SoFar(parts, number, seen, size)
            else WrapInt64(SoFar(parts, number, seen, size) + parts[n].size)
  {
    hide Total, Others, WrapInt64;
    OthersStep(parts, number, seen, n);
    WrapSum(size + Total(Others(parts, number, seen)), parts[n].size);
  }

  lemma SoFarAll(parts: map<nat, Part>, number: nat, part: Part)
    ensures SoFar(parts, number, parts.Keys, part.size) == WrapInt64(Total(parts[number := part]))
  {
    hide WrapInt64, Total, Others;
    OthersAll(parts, number, part);
  }

  lemma OthersAll(parts: map<nat, Part>, number: nat, part: Part)
    ensures Total(parts[number := part]) == part.size + Total(Others(parts, number, parts.Keys))
  {
    assert Others(parts, number, parts.Keys) == parts - {number};
    TotalChanges(parts, number, part);
  }

  lemma NewSessionKeeps(sessions: Sessions, stored: Sessions, files: map<Slot, Bytes>, accepted: map<Slot, Bytes>,
                        etagOf: Bytes -> string, id: Id, session: Session)
    requires Mirrors(sessions, stored) && AllTidy(stored) && FilesHonest(stored, files, accepted, etagOf)
    requires id !in stored && session.parts == map[] && 0 <= session.reserved <= MAX_INT64
    ensures Mirrors(sessions[id := session], stored[id := session]) && AllTidy(stored[id := session])
    ensures FilesHonest(stored[id := session], files, accepted, etagOf)
    ensures Reserved(sessions[id := session]) == Reserved(sessions) + session.reserved
  {
    ReservedChanges(sessions, id, session);
    forall i, n | i in stored[id := session] && n in stored[id := session][i].parts
      ensures PartHonest(stored[id := session][i].parts[n], Slot(i, n), files, accepted, etagOf)
    {
      assert PartHonest(stored[i].parts[n], Slot(i, n), files, accepted, etagOf);
    }
  }

  /** Saving a part in memory and store alike moves the reservations by the part's delta. */
  lemma SavedPartKeeps(sessions: Sessions, stored: Sessions, id: Id, number: nat, part: Part)
    requires Mirrors(sessions, stored) && AllTidy(stored) && id in sessions
    requires NewTotal(stored[id], number, part) <= MAX_INT64
    ensures var r := ReservationFor(stored[id], number, part);
            var session := WithPart(stored[id], number, part, r.reserved);
            && Mirrors(sessions[id := session], stored[id := session]) && AllTidy(stored[id := session])
            && Reserved(sessions[id := session]) == Reserved(sessions) + r.delta >= 0
  {
    var r := ReservationFor(stored[id], number, part);
    assert Tidy(stored[id]);
    NewTotalBounds(stored[id], number, part);
    var session := WithPart(stored[id], number, part, r.reserved);
    ReservedChanges(sessions, id, session);
    ReservedNonNegative(sessions[id := session], stored[id := session]);
  }

  lemma DropKeeps(sessions: Sessions, stored: Sessions, id: Id)
    requires Mirrors(sessions, stored) && AllTidy(stored)
    ensures Mirrors(sessions - {id}, stored - {id}) && AllTidy(stored - {id}) && Mirrors(stored - {id}, stored)
    ensures Reserved(sessions - {id}) == Reserved(sessions) - if id in sessions then sessions[id].reserved else 0
    ensures id in sessions ==> 0 <= sessions[id].reserved
  {
    if id in sessions {
      ReservedLoses(sessions, id);
      assert Tidy(stored[id]);
    } else {
      assert sessions - {id} == sessions;
    }
  }

  lemma MirrorsAt(sessions: Sessions, stored: Sessions, id: Id)
    requires Mirrors(sessions, stored)
    ensures id in sessions ==> id in stored && stored[id] == sessions[id]
  {
  }

  lemma ReservedHoldsAll(stored: Sessions, id: Id)
    requires AllTidy(stored)
    ensures id in stored ==> Tidy(stored[id]) && stored[id].reserved <= Reserved(stored)
    ensures id in stored ==>
              forall number, part: Part :: NewTotal(stored[id], number, part) <= part.size + stored[id].reserved
  {
    if id in stored {
      ReservedHolds(stored, id);
      forall number, part: Part ensures NewTotal(stored[id], number, part) <= part.size + stored[id].reserved {
        NewTotalBounds(stored[id], number, part);
      }
    }
  }

  lemma ReservedNonNegative(sessions: Sessions, stored: Sessions)
    requires Mirrors(sessions, stored) && AllTidy(stored)
    ensures Reserved(sessions) >= 0
  {
    forall id | id in sessions ensures Reservations(sessions)[id] >= 0 {
      assert Tidy(stored[id]);
    }
    SumNonNegative(Reservations(sessions));
  }

  /** Files of other uploads stay; files of this one may go. */
  ghost predicate Trimmed(files: map<Slot, Bytes>, files1: map<Slot, Bytes>, id: Id) {
    && (forall slot :: slot in files1 ==> slot in files && files1[slot] == files[slot])
    && (forall slot :: slot in files && slot.id != id ==> slot in files1)
  }

  /** The bytes accepted for these parts, one after another. */
  ghost function PartBytes(accepted: map<Slot, Bytes>, id: Id, order: seq<nat>): seq<Bytes>
    requires forall n :: n in order ==> Slot(id, n) in accepted
  {
    seq(|order|, i requires 0 <= i < |order| => accepted[Slot(id, order[i])])
  }

  ghost predicate AllAccepted(accepted: map<Slot, Bytes>, id: Id, order: seq<nat>) {
    forall n :: n in order ==> Slot(id, n) in accepted
  }

  ghost function OfTenants(stored: Sessions, tenants: set<string>): set<Id> {
    set id | id in stored && id.tenant in tenants
  }

  /** The stored sessions with these names. */
  ghost function Only(stored: Sessions, ids: set<Id>): Sessions {
    map id | id in stored && id in ids :: stored[id]
  }

  ghost function LoadedTenants(sessions: Sessions, stored: Sessions, tenants: set<string>): Sessions {
    sessions + Only(stored, OfTenants(stored, tenants))
  }

  predicate NoneOf(sessions: Sessions, tenant: string) {
    forall id :: id in sessions ==> id.tenant != tenant
  }

  lemma LoadedThenSet(sessions: Sessions, stored: Sessions, id: Id, session: Session)
    ensures Loaded(sessions, stored, id)[id := session] == sessions[id := session]
  {
  }

  lemma OnlyGrows(sessions: Sessions, stored: Sessions, done: set<Id>, id: Id)
    requires id in stored && Mirrors(sessions + Only(stored, done), stored)
    ensures Loaded(sessions + Only(stored, done), stored, id) == sessions + Only(stored, done + {id})
  {
    var next := sessions + Only(stored, done + {id});
    assert Only(stored, done + {id}) == Only(stored, done)[id := stored[id]];
    if id in sessions + Only(stored, done) {
      assert (sessions + Only(stored, done))[id] == stored[id];
    }
  }

  lemma TenantsGrow(sessions: Sessions, stored: Sessions, done: set<string>, tenant: string)
    ensures LoadedTenants(LoadedTenants(sessions, stored, done), stored, {tenant}) ==
            LoadedTenants(sessions, stored, done + {tenant})
  {
    assert Only(stored, OfTenants(stored, done + {tenant})) ==
           Only(stored, OfTenants(stored, done)) + Only(stored, OfTenants(stored, {tenant}));
  }

  lemma TenantsAll(sessions: Sessions, stored: Sessions, done: set<string>)
    requires Mirrors(sessions, stored) && forall id :: id in stored ==> id.tenant in done
    ensures LoadedTenants(sessions, stored, done) == stored
  {
    assert Only(stored, OfTenants(stored, done)) == stored;
  }

  /** Starting from nothing, only the tenants done so far have sessions in memory. */
  lemma TenantsSoFar(stored: Sessions, done: set<string>)
    ensures forall id :: id in LoadedTenants(map[], stored, done) ==> id.tenant in done
  {
  }

  lemma NotLoadedYet(sessions: Sessions, stored: Sessions, done: set<Id>, id: Id)
    requires id !in done
    ensures id in sessions + Only(stored, done) ==> id in sessions
  {
  }

  lemma OnlyNone(sessions: Sessions, stored: Sessions, ids: set<Id>)
    ensures sessions + Only(stored, ids - ids) == sessions
  {
    assert Only(stored, ids - ids) == map[];
  }

  lemma TenantsNone(sessions: Sessions, stored: Sessions)
    ensures LoadedTenants(sessions, stored, {}) == sessions
  {
    assert OfTenants(stored, {}) == {};
    assert Only(stored, {}) == map[];
  }

  lemma ReservedLoads(sessions: Sessions, stored: Sessions, id: Id)
    ensures Reserved(Loaded(sessions, stored, id)) ==
            Reserved(sessions) + if id in stored && id !in sessions then stored[id].reserved else 0
  {
    if id in stored && id !in sessions {
      ReservedChanges(sessions, id, stored[id]);
    }
  }

  /** Loading the stored sessions one by one never needs more than all of them reserve. */
  lemma LoadFits(sessions: Sessions, stored: Sessions, id: Id)
    requires Mirrors(sessions, stored) && AllTidy(stored) && id in stored && id !in sessions
    ensures Reserved(sessions) + stored[id].reserved <= Reserved(stored)
  {
    ReservedChanges(sessions, id, stored[id]);
    ReservedGrows(sessions[id := stored[id]], stored);
  }

  /** No part and no upload is larger than its limit allows. */
  ghost predicate WithinLimits(sessions: Sessions, maxPart: int, maxUpload: int) {
    forall id :: id in sessions ==>
      && (forall n :: n in sessions[id].parts && maxPart > 0 ==> sessions[id].parts[n].size <= maxPart)
      && (sessions[id].parts != map[] && maxUpload > 0 ==> Total(sessions[id].parts) <= maxUpload)
  }

  lemma PlacedWithinLimits(sessions: Sessions, id: Id, number: nat, part: Part, reserved: int, maxPart: int,
                           maxUpload: int)
    requires WithinLimits(sessions, maxPart, maxUpload) && id in sessions
    requires !(0 < maxPart < part.size) && !(0 < maxUpload < Total(sessions[id].parts[number := part]))
    ensures WithinLimits(sessions[id := WithPart(sessions[id], number, part, reserved)], maxPart, maxUpload)
  {
    hide Total;
  }

  /** Dropping an upload, or adding an empty one, breaks no limit. */
  lemma LimitsStay(sessions: Sessions, sessions': Sessions, maxPart: int, maxUpload: int)
    requires WithinLimits(sessions, maxPart, maxUpload)
    ensures (forall id :: id in sessions' ==>
               sessions'[id].parts == map[] || (id in sessions && sessions'[id] == sessions[id])) ==>
              WithinLimits(sessions', maxPart, maxUpload)
  {
    hide Total;
  }

  /** The counter may stand at this value; a capacity that is not positive is none. */
  predicate Room(capacity: int, used: int) { used <= MAX_INT64 && !(0 < capacity < used) }

  lemma RoomIsBound(capacity: int, used: int)
    requires Capacity(capacity)
    ensures Room(capacity, used) <==> used <= Bound(capacity)
  {
  }

  /** Memory once the session is in it: a session kept elsewhere is copied from the store. */
  function Loaded(sessions: Sessions, stored: Sessions, id: Id): Sessions {
    if id in sessions || id !in stored then sessions else sessions[id := stored[id]]
  }

  class Manager {
    const store: SessionStore
    const ledger: DiskReservations
    const scratch: Scratch
    const maxPartSize: int
    const maxUploadSize: int
    const etagOf: Bytes -> string
    /** With a reliable environment no file, store, guard or cancellation error occurs. */
    const reliable: bool
    var sessions: Sessions

    constructor (store: SessionStore, ledger: DiskReservations, scratch: Scratch,
                 maxPartSize: int, maxUploadSize: int, etagOf: Bytes -> string, reliable: bool)
      ensures this.store == store && this.ledger == ledger && this.scratch == scratch
      ensures this.maxPartSize == maxPartSize && this.maxUploadSize == maxUploadSize
      ensures this.etagOf == etagOf && this.reliable == reliable
      ensures sessions == map[]
      ensures Reserved(sessions) == 0
    {
      this.store, this.ledger, this.scratch := store, ledger, scratch;
      this.maxPartSize, this.maxUploadSize := maxPartSize, maxUploadSize;
      this.etagOf, this.reliable := etagOf, reliable;
      sessions := map[];
    }

    /** The counter is exactly what the sessions in memory reserve, and memory mirrors the store. */
    ghost predicate Consistent()
      reads this, store, ledger
    {
      && ledger.Valid() && ledger.used == Reserved(sessions)
      && Mirrors(sessions, store.sessions) && AllTidy(store.sessions)
    }

    /** Besides, the files are honest. */
    ghost predicate Valid()
      reads this, store, ledger, scratch
    {
      Consistent() && FilesHonest(store.sessions, scratch.files, scratch.accepted, etagOf)
    }

    /** Everything durable is in memory. */
    ghost predicate AllLoaded()
      reads this, store
    {
      sessions == store.sessions
    }

    lemma AllMirrored()
      requires Consistent()
      ensures Mirrors(sessions, store.sessions)
    {
    }

    /** The sizes of the parts of this upload, this one included, add up within int64. */
    ghost predicate TotalFits(id: Id, number: int, body: Bytes)
      reads store
    {
      number > 0 && id in store.sessions && (maxPartSize > 0 ==> |body| <= maxPartSize) ==>
        NewTotal(store.sessions[id], number, Part(|body|, etagOf(body))) <= MAX_INT64
    }

    /** When the bytes of the part and all that is reserved stay within int64, so does the upload's total. */
    lemma UsedBoundsTotal(id: Id, number: int, body: Bytes)
      requires Valid() && AllLoaded() && |body| + ledger.used <= MAX_INT64
      ensures TotalFits(id, number, body)
    {
      if number > 0 && id in store.sessions {
        ReservedHolds(store.sessions, id);
        NewTotalBounds(store.sessions[id], number, Part(|body|, etagOf(body)));
      }
    }

    method Glitch() returns (broken: bool)
      ensures reliable ==> !broken
    {
      broken := *;
      broken := broken && !reliable;
    }

    method Reserve(bytes: int) returns (ok: bool)
      requires ledger.Valid() && bytes <= MAX_INT64
      modifies ledger
      ensures ledger.Valid()
      ensures ledger.used == if ok && bytes > 0 then old(ledger.used) + bytes else old(ledger.used)
      ensures reliable ==> (ok <==> bytes <= 0 || Room(ledger.capacity, old(ledger.used) + bytes))
    {
      if bytes <= 0 {
        return true;
      }
      ok := ledger.TryReserve(bytes);
      if ok {
        var guardFails := Glitch();
        if guardFails {
          ledger.Release(bytes);
          ok := false;
        }
      }
    }

    /** Gives bytes back; the counter always holds at least that many, so nothing is clamped away. */
    method Release(bytes: int)
      requires ledger.Valid() && bytes <= ledger.used
      modifies ledger
      ensures ledger.Valid()
      ensures ledger.used == old(ledger.used) - if bytes > 0 then bytes else 0
    {
      ledger.Release(bytes);
    }

    method Create(id: Id, bucket: string, key: string, expectedSize: int) returns (err: Option<Error>)
      requires Valid() && id !in store.sessions && expectedSize <= MAX_INT64
      modifies this`sessions, store, ledger
      ensures Valid()
      ensures var session := Session(bucket, key, if expectedSize < 0 then 0 else expectedSize, map[]);
              if err.None?
              then sessions == old(sessions)[id := session] && store.sessions == old(store.sessions)[id := session]
              else sessions == old(sessions) && store.sessions == old(store.sessions)
      ensures reliable ==>
                && (err == Some(UploadTooLarge) <==> 0 < maxUploadSize < expectedSize)
                && (err == Some(Full) <==>
                      && !(0 < maxUploadSize < expectedSize) && expectedSize > 0
                      && !Room(ledger.capacity, old(ledger.used) + expectedSize))
                && (err == None <==>
                      && !(0 < maxUploadSize < expectedSize)
                      && (expectedSize <= 0 || Room(ledger.capacity, old(ledger.used) + expectedSize)))
    {
      hide Mirrors, AllTidy, FilesHonest, Reserved;
      var expected := if expectedSize < 0 then 0 else expectedSize;
      if maxUploadSize > 0 && expected > maxUploadSize {
        return Some(UploadTooLarge);
      }
      var broken := Glitch();
      if broken {
        return Some(Failed);
      }
      var ok := Reserve(expected);
      if !ok {
        return Some(Full);
      }
      broken := Glitch();
      if broken {
        Release(expected);
        return Some(Failed);
      }
      var session := Session(bucket, key, expected, map[]);
      NewSessionKeeps(sessions, store.sessions, scratch.files, scratch.accepted, etagOf, id, session);
      store.Create(id, session);
      sessions := sessions[id := session];
      return None;
    }

    /**
     Finds a session, reading it from the store and reserving its bytes when memory does not hold it.
     Between the reservation and the insertion another call may insert it first; that is a step of
     the interleaved ledger.
     */
    method Load(id: Id) returns (err: Option<Error>)
      requires Consistent()
      modifies this`sessions, ledger
      ensures Consistent()
      ensures err.None? ==> id in sessions && sessions == Loaded(old(sessions), store.sessions, id)
      ensures err.Some? ==> sessions == old(sessions)
      ensures reliable ==>
                && (err == Some(NotFound) <==> id !in store.sessions)
                && (err == Some(Full) <==>
                      && id in store.sessions && id !in old(sessions)
                      && !Room(ledger.capacity, old(ledger.used) + store.sessions[id].reserved))
                && (err == None <==>
                      && id in store.sessions
                      && (id in old(sessions)
                          || Room(ledger.capacity, old(ledger.used) + store.sessions[id].reserved)))
    {
      hide Room, Reserved, Tidy;
      RoomIsBound(ledger.capacity, ledger.used);
      var broken := Glitch();
      if broken {
        return Some(Failed);
      }
      if id in sessions {
        return None;
      }
      if id !in store.sessions {
        return Some(NotFound);
      }
      var session := store.sessions[id];
      ReservedHolds(store.sessions, id);
      var ok := Reserve(session.reserved);
      if !ok {
        return Some(Full);
      }
      ReservedChanges(sessions, id, session);
      sessions := sessions[id := session];
      return None;
    }

    /** Adds up the sizes of the other parts. */
    method TotalWith(session: Session, number: nat, part: Part) returns (total: int)
      requires part.size <= MAX_INT64
      ensures total == WrapInt64(NewTotal(session, number, part))
    {
      hide SoFar, Total, WrapInt64;
      total := part.size;
      var parts := session.parts;
      var rest := parts.Keys;
      SoFarNone(parts, number, part.size);
      assert parts.Keys - rest == {};
      while |rest| != 0
        invariant rest <= parts.Keys
        invariant total == SoFar(parts, number, parts.Keys - rest, part.size)
      {
        var n :| n in rest;
        SoFarStep(parts, number, parts.Keys - rest, n, part.size);
        assert parts.Keys - (rest - {n}) == parts.Keys - rest + {n};
        if n != number {
          total := WrapInt64(total + parts[n].size);
        }
        rest := rest - {n};
      }
      assert parts.Keys - rest == parts.Keys;
      SoFarAll(parts, number, part);
    }

    method ReserveForPart(id: Id, number: nat, part: Part) returns (err: Option<Error>, r: Reservation)
      requires ledger.Valid() && id in sessions && Tidy(sessions[id])
      requires NewTotal(sessions[id], number, part) <= MAX_INT64
      modifies this`sessions, ledger
      ensures ledger.Valid()
      ensures err.None? ==>
                var session := old(sessions)[id];
                && r == ReservationFor(session, number, part)
                && sessions == old(sessions)[id := WithPart(session, number, part, r.reserved)]
                && ledger.used == old(ledger.used) + if r.delta > 0 then r.delta else 0
      ensures err.Some? ==> sessions == old(sessions) && ledger.used == old(ledger.used)
      ensures reliable ==>
                var before := old(sessions)[id];
                var total := Total(before.parts[number := part]);
                && (err == Some(UploadTooLarge) <==> 0 < maxUploadSize < total)
                && (err == Some(Full) <==>
                      && !(0 < maxUploadSize < total)
                      && !Room(ledger.capacity, old(ledger.used) + total - before.reserved))
                && (err == None <==>
                      && !(0 < maxUploadSize < total)
                      && Room(ledger.capacity, old(ledger.used) + total - before.reserved))
      ensures err.None? ==> !(0 < maxUploadSize < Total(old(sessions)[id].parts[number := part]))
    {
      err, r := Some(Failed), Reservation(0, 0, None, 0);
      var broken := Glitch();
      if broken {
        return;
      }
      var session := sessions[id];
      NewTotalBounds(session, number, part);
      var total := TotalWith(session, number, part);
      if maxUploadSize > 0 && total > maxUploadSize {
        return Some(UploadTooLarge), r;
      }
      var delta := total - session.reserved;
      if delta > 0 {
        var ok := Reserve(delta);
        if !ok {
          return Some(Full), r;
        }
      }
      r := Reservation(delta, total, PartAt(session, number), session.reserved);
      sessions := sessions[id := session.(parts := session.parts[number := part], reserved := total)];
      return None, r;
    }

    method RollbackReservation(id: Id, number: nat, r: Reservation)
      requires ledger.Valid() && r.delta <= ledger.used
      modifies this`sessions, ledger
      ensures ledger.Valid()
      ensures id in old(sessions) ==> sessions == old(sessions)[id := Restored(old(sessions)[id], number, r)]
      ensures id !in old(sessions) ==> sessions == old(sessions)
      ensures ledger.used == old(ledger.used) - if r.delta > 0 then r.delta else 0
    {
      if id in sessions {
        var session := sessions[id];
        var parts := if r.previous.Some? then session.parts[number := r.previous.value] else session.parts - {number};
        sessions := sessions[id := session.(parts := parts, reserved := r.previousReserved)];
      }
      if r.delta > 0 {
        Release(r.delta);
      }
    }

    method FinishReservation(r: Reservation)
      requires ledger.Valid() && -r.delta <= ledger.used
      modifies ledger
      ensures ledger.Valid()
      ensures ledger.used == old(ledger.used) - if r.delta < 0 then -r.delta else 0
    {
      if r.delta < 0 {
        Release(-r.delta);
      }
    }

    method SavePart(id: Id, number: nat, part: Part, reserved: int) returns (ok: bool)
      modifies store
      ensures ok ==> id in old(store.sessions)
      ensures ok ==>
                store.sessions == old(store.sessions)[id := WithPart(old(store.sessions)[id], number, part, reserved)]
      ensures !ok ==> store.sessions == old(store.sessions)
      ensures reliable && id in old(store.sessions) ==> ok
    {
      var broken := Glitch();
      if broken {
        return false;
      }
      ok := store.SavePart(id, number, part, reserved);
    }

    /** A part is reserved for in memory, and neither on disk nor in the store yet. */
    ghost predicate Underway(before: Sessions, id: Id, number: nat, part: Part, r: Reservation)
      reads this, store, ledger, scratch
    {
      && id in before && sessions == before[id := WithPart(before[id], number, part, r.reserved)]
      && r == ReservationFor(before[id], number, part) && r.reserved <= MAX_INT64
      && ledger.Valid() && ledger.used == Reserved(before) + (if r.delta > 0 then r.delta else 0)
      && Mirrors(before, store.sessions) && AllTidy(store.sessions)
      && FilesHonest(store.sessions, scratch.files, scratch.accepted, etagOf)
    }

    /** Renames the spooled bytes into place and saves the part, or undoes the reservation. */
    method CommitPart(ghost before: Sessions, id: Id, number: nat, part: Part, data: Bytes, r: Reservation)
      returns (ok: bool)
      requires Underway(before, id, number, part, r) && part == Part(|data|, etagOf(data))
      modifies this`sessions, ledger, store, scratch
      ensures Valid()
      ensures ok ==>
                && sessions == old(sessions)
                && store.sessions == old(store.sessions)[id := WithPart(before[id], number, part, r.reserved)]
                && scratch.files == old(scratch.files)[Slot(id, number) := data]
                && scratch.accepted == old(scratch.accepted)[Slot(id, number) := data]
      ensures !ok ==>
                && sessions == before && store.sessions == old(store.sessions)
                && scratch.accepted == old(scratch.accepted)
                && (scratch.files == old(scratch.files) || scratch.files == old(scratch.files) - {Slot(id, number)})
      ensures reliable ==> ok
    {
      hide Reserved, Mirrors, AllTidy, FilesHonest, Tidy, NewTotal;
      ghost var files, accepted, stored := scratch.files, scratch.accepted, store.sessions;
      MirrorsAt(before, stored, id);
      ReservedNonNegative(before, stored);
      RestoreUndoes(before[id], number, part, r.reserved, r);
      var slot := Slot(id, number);
      var broken := Glitch();
      if broken {
        RollbackReservation(id, number, r);
        assert sessions == before;
        return false;
      }
      scratch.files := scratch.files[slot := data];
      ok := SavePart(id, number, part, r.reserved);
      if !ok {
        scratch.files := scratch.files - {slot};
        RollbackReservation(id, number, r);
        assert sessions == before && scratch.files == files - {slot};
        LossKeepsHonest(stored, files, accepted, etagOf, stored, scratch.files);
        return;
      }
      scratch.accepted := scratch.accepted[slot := data];
      SavedPartKeeps(before, stored, id, number, part);
      SaveKeepsHonest(stored, files, accepted, etagOf, id, number, data, r.reserved);
      FinishReservation(r);
    }

    /** Spools the bytes of a part of a loaded upload, reserves for it and commits it. */
    method Spool(id: Id, number: nat, body: Bytes) returns (err: Option<Error>, part: Part)
      requires Valid() && number > 0 && id in sessions && TotalFits(id, number, body)
      modifies this`sessions, ledger, store, scratch
      ensures Valid()
      ensures err.None? ==>
                var before := old(store.sessions)[id];
                var session := WithPart(before, number, part, NewTotal(before, number, part));
                && part == Part(|body|, etagOf(body))
                && !(0 < maxPartSize < |body|) && !(0 < maxUploadSize < Total(before.parts[number := part]))
                && store.sessions == old(store.sessions)[id := session] && sessions == old(sessions)[id := session]
                && scratch.files == old(scratch.files)[Slot(id, number) := body]
                && scratch.accepted == old(scratch.accepted)[Slot(id, number) := body]
      ensures err.Some? ==>
                && store.sessions == old(store.sessions) && scratch.accepted == old(scratch.accepted)
                && sessions == old(sessions)
                && (scratch.files == old(scratch.files) || scratch.files == old(scratch.files) - {Slot(id, number)})
      ensures reliable && err.Some? ==> scratch.files == old(scratch.files)
      ensures id in old(store.sessions)
      ensures reliable ==>
                var before := old(store.sessions)[id];
                var total := Total(before.parts[number := Part(|body|, etagOf(body))]);
                var placed := old(ledger.used) + total - before.reserved;
                && (err == Some(PartTooLarge) <==> 0 < maxPartSize < |body|)
                && (err == Some(UploadTooLarge) <==> !(0 < maxPartSize < |body|) && 0 < maxUploadSize < total)
                && (err == Some(Full) <==>
                      && !(0 < maxPartSize < |body|) && !(0 < maxUploadSize < total) && !Room(ledger.capacity, placed))
                && (err == None <==>
                      && !(0 < maxPartSize < |body|) && !(0 < maxUploadSize < total) && Room(ledger.capacity, placed))
    {
      hide Reserved, Mirrors, AllTidy, FilesHonest, Tidy, Total, WithPart, Room;
      part := Part(0, "");
      MirrorsAt(sessions, store.sessions, id);
      var broken := Glitch();
      if broken {
        return Some(Failed), part;
      }
      var data := if maxPartSize > 0 && |body| > maxPartSize + 1 then body[..maxPartSize + 1] else body;
      if maxPartSize > 0 && |data| > maxPartSize {
        return Some(PartTooLarge), part;
      }
      part := Part(|data|, etagOf(data));
      ReservedHoldsAll(store.sessions, id);
      var r;
      err, r := ReserveForPart(id, number, part);
      if err.Some? {
        return;
      }
      var saved := CommitPart(old(sessions), id, number, part, data, r);
      err := if saved then None else Some(Failed);
    }

    /**
     Receives one part.  Success replaces the part in memory, in the store and on disk; a failure
     leaves the store and every other file as they were, and the counter exact.
     */
    method PutPart(id: Id, number: int, body: Bytes) returns (err: Option<Error>, part: Part)
      requires Valid() && TotalFits(id, number, body)
      modifies this`sessions, ledger, store, scratch
      ensures Valid()
      ensures err.None? ==> number > 0 && id in old(store.sessions) && part == Part(|body|, etagOf(body))
      ensures err.None? ==>
                var before := old(store.sessions)[id];
                var session := WithPart(before, number, part, NewTotal(before, number, part));
                && store.sessions == old(store.sessions)[id := session] && sessions == old(sessions)[id := session]
                && scratch.files == old(scratch.files)[Slot(id, number) := body]
                && scratch.accepted == old(scratch.accepted)[Slot(id, number) := body]
      ensures err.Some? ==>
                && store.sessions == old(store.sessions) && scratch.accepted == old(scratch.accepted)
                && (sessions == old(sessions) || sessions == Loaded(old(sessions), store.sessions, id))
                && (|| scratch.files == old(scratch.files)
                    || (number > 0 && scratch.files == old(scratch.files) - {Slot(id, number)}))
      ensures reliable && err.Some? ==> scratch.files == old(scratch.files)
      ensures reliable && number <= 0 ==> err == Some(BadNumber)
      ensures reliable && number > 0 && id !in old(store.sessions) ==> err == Some(NotFound)
      ensures reliable && number > 0 && id in old(store.sessions) ==>
                var before := old(store.sessions)[id];
                var total := Total(before.parts[number := Part(|body|, etagOf(body))]);
                var loaded := old(ledger.used) + if id in old(sessions) then 0 else before.reserved;
                var placed := loaded + total - before.reserved;
                && (err == Some(PartTooLarge) <==> Room(ledger.capacity, loaded) && 0 < maxPartSize < |body|)
                && (err == Some(UploadTooLarge) <==>
                      && Room(ledger.capacity, loaded) && !(0 < maxPartSize < |body|) && 0 < maxUploadSize < total)
                && (err == Some(Full) <==>
                      || !Room(ledger.capacity, loaded)
                      || (&& !(0 < maxPartSize < |body|) && !(0 < maxUploadSize < total)
                          && !Room(ledger.capacity, placed)))
                && (err == None <==>
                      && Room(ledger.capacity, loaded) && !(0 < maxPartSize < |body|) && !(0 < maxUploadSize < total)
                      && Room(ledger.capacity, placed))
      ensures WithinLimits(old(store.sessions), maxPartSize, maxUploadSize) ==>
                WithinLimits(store.sessions, maxPartSize, maxUploadSize)
    {
      hide Reserved, Mirrors, AllTidy, FilesHonest, Tidy, Total, NewTotal, Loaded, WithPart, Room, WithinLimits;
      part := Part(0, "");
      if number <= 0 {
        return Some(BadNumber), part;
      }
      RoomIsBound(ledger.capacity, ledger.used);
      err := Load(id);
      if err.Some? {
        return;
      }
      ReservedLoads(old(sessions), store.sessions, id);
      err, part := Spool(id, number, body);
      if err.None? {
        LoadedThenSet(old(sessions), old(store.sessions), id, store.sessions[id]);
        if WithinLimits(old(store.sessions), maxPartSize, maxUploadSize) {
          PlacedWithinLimits(old(store.sessions), id, number, part, NewTotal(old(store.sessions)[id], number, part),
                             maxPartSize, maxUploadSize);
        }
      }
    }

    /**
     Forgets an upload in the store, then in memory, gives its bytes back and removes its files.  An
     error before the store forgets it changes nothing; one while removing files only leaves files behind.
     */
    method DeleteSession(id: Id) returns (err: Option<Error>, ghost removed: bool)
      requires Valid()
      modifies this`sessions, ledger, store, scratch
      ensures Valid() && scratch.accepted == old(scratch.accepted)
      ensures !removed ==> err.Some?
      ensures !removed ==> sessions == old(sessions) && store.sessions == old(store.sessions)
      ensures !removed ==> scratch.files == old(scratch.files)
      ensures removed ==> sessions == old(sessions) - {id} && store.sessions == old(store.sessions) - {id}
      ensures removed ==> Trimmed(old(scratch.files), scratch.files, id)
      ensures err.None? ==> forall slot :: slot in scratch.files ==> slot.id != id
      ensures reliable ==> err.None?
    {
      hide Reserved, Mirrors, AllTidy, FilesHonest, Tidy;
      removed := false;
      var broken := Glitch();
      if broken {
        return Some(Failed), false;
      }
      DropKeeps(sessions, store.sessions, id);
      ghost var stored := store.sessions;
      var found := store.Delete(id);
      removed := true;
      if id in sessions {
        var reserved := sessions[id].reserved;
        sessions := sessions - {id};
        ReservedNonNegative(sessions, store.sessions);
        Release(reserved);
      } else {
        assert sessions - {id} == sessions;
      }
      broken := Glitch();
      var stuck: set<Slot> := *;
      var files := scratch.files;
      scratch.files := map slot | slot in files && (slot.id != id || (broken && slot in stuck)) :: files[slot];
      LossKeepsHonest(stored, old(scratch.files), scratch.accepted, etagOf, store.sessions, scratch.files);
      err := if broken then Some(Failed) else None;
    }

    /** Abort, and the clean-up after completion: the session is found (reserving its bytes if need be) and deleted. */
    method Abort(id: Id) returns (err: Option<Error>, ghost removed: bool)
      requires Valid()
      modifies this`sessions, ledger, store, scratch
      ensures Valid() && scratch.accepted == old(scratch.accepted)
      ensures removed ==> id in old(store.sessions) && sessions == old(sessions) - {id}
      ensures removed ==> store.sessions == old(store.sessions) - {id}
      ensures removed ==> Trimmed(old(scratch.files), scratch.files, id)
      ensures !removed ==> err.Some? && store.sessions == old(store.sessions) && scratch.files == old(scratch.files)
      ensures !removed ==> sessions == old(sessions) || sessions == Loaded(old(sessions), store.sessions, id)
      ensures err.None? ==> removed && forall slot :: slot in scratch.files ==> slot.id != id
      ensures reliable ==> (err == Some(NotFound) <==> id !in old(store.sessions))
      ensures reliable && id in old(store.sessions) ==>
                var loaded := old(ledger.used) + old(store.sessions)[id].reserved;
                err == if id in old(sessions) || Room(ledger.capacity, loaded) then None else Some(Full)
    {
      hide Reserved, Mirrors, AllTidy, FilesHonest, Tidy;
      removed := false;
      MirrorsAt(sessions, store.sessions, id);
      err := Load(id);
      if err.None? {
        err, removed := DeleteSession(id);
        assert Loaded(old(sessions), old(store.sessions), id) - {id} == old(sessions) - {id};
      }
    }

    /**
     Opens the listed parts in turn and reads them through: the bytes last accepted for each, or an error.
     Without a list all parts are taken in ascending order.
     */
    method Open(id: Id, orderedParts: seq<nat>) returns (r: Option<Bytes>, order: seq<nat>)
      requires Valid()
      modifies this`sessions, ledger
      ensures Valid()
      ensures sessions == old(sessions) || sessions == Loaded(old(sessions), store.sessions, id)
      ensures orderedParts != [] ==> order == orderedParts
      ensures r.Some? && orderedParts == [] ==>
                && id in store.sessions && (forall n :: n in order <==> n in store.sessions[id].parts)
                && forall i, j :: 0 <= i < j < |order| ==> order[i] < order[j]
      ensures r.Some? ==>
                AllAccepted(scratch.accepted, id, order) && r.value == Concat(PartBytes(scratch.accepted, id, order))
      ensures reliable && id in old(sessions) && AllReadable(old(sessions)[id].parts, id, orderedParts) ==> r.Some?
    {
      hide Reserved, AllTidy, Tidy;
      order := orderedParts;
      var err := Load(id);
      if err.Some? {
        return None, order;
      }
      var session := sessions[id];
      if |order| == 0 {
        order := Sorted(session.parts.Keys);
      }
      var files: seq<Bytes> := [];
      for i := 0 to |order|
        invariant Valid() && sessions == Loaded(old(sessions), store.sessions, id) && session == sessions[id]
        invariant AllAccepted(scratch.accepted, id, order[..i]) && files == PartBytes(scratch.accepted, id, order[..i])
      {
        var number := order[i];
        var broken := Glitch();
        if broken || number !in session.parts || Slot(id, number) !in scratch.files {
          return None, order;
        }
        assert PartHonest(store.sessions[id].parts[number], Slot(id, number), scratch.files, scratch.accepted, etagOf);
        assert order[..i + 1] == order[..i] + [number];
        files := files + [scratch.files[Slot(id, number)]];
      }
      assert order[..|order|] == order;
      return Some(Concat(files)), order;
    }

    /** The listed parts, or all of them without a list, are there to be read. */
    ghost predicate AllReadable(parts: map<nat, Part>, id: Id, orderedParts: seq<nat>)
      reads scratch
    {
      && (forall n :: n in orderedParts ==> n in parts && Slot(id, n) in scratch.files)
      && (orderedParts == [] ==> forall n :: n in parts ==> Slot(id, n) in scratch.files)
    }

    /** One session of the start-up list; a session already in memory gives the second reservation back. */
    method LoadStored(id: Id) returns (err: Option<Error>)
      requires Consistent() && id in store.sessions
      modifies this`sessions, ledger
      ensures Consistent()
      ensures sessions == if err.None? then Loaded(old(sessions), store.sessions, id) else old(sessions)
      ensures reliable && id !in old(sessions) && Reserved(store.sessions) <= Bound(ledger.capacity) ==> err.None?
    {
      hide Reserved, AllTidy, Tidy, FilesHonest;
      var broken := Glitch();
      if broken {
        return Some(Failed);
      }
      var session := store.sessions[id];
      ReservedHolds(store.sessions, id);
      ReservedLoads(sessions, store.sessions, id);
      ReservedNonNegative(sessions, store.sessions);
      if id !in sessions {
        LoadFits(sessions, store.sessions, id);
      }
      var ok := Reserve(session.reserved);
      if !ok {
        return Some(Full);
      }
      if id in sessions {
        Release(session.reserved);
        return None;
      }
      sessions := sessions[id := session];
      return None;
    }

    method LoadTenant(tenant: string) returns (err: Option<Error>)
      requires Consistent()
      modifies this`sessions, ledger
      ensures Consistent()
      ensures err.None? ==> sessions == LoadedTenants(old(sessions), store.sessions, {tenant})
      ensures reliable && NoneOf(old(sessions), tenant) && Reserved(store.sessions) <= Bound(ledger.capacity) ==>
                err.None?
    {
      hide Consistent, Reserved, Mirrors, Only;
      var listed := set id | id in store.sessions && id.tenant == tenant;
      ghost var all := listed;
      OnlyNone(sessions, store.sessions, all);
      while |listed| != 0
        invariant Consistent() && listed <= all
        invariant sessions == old(sessions) + Only(store.sessions, all - listed)
      {
        var id :| id in listed;
        NotLoadedYet(old(sessions), store.sessions, all - listed, id);
        OnlyGrows(old(sessions), store.sessions, all - listed, id) by { AllMirrored(); }
        assert all - listed + {id} == all - (listed - {id});
        err := LoadStored(id);
        if err.Some? {
          return;
        }
        listed := listed - {id};
      }
      assert all - listed == all == OfTenants(store.sessions, {tenant});
      return None;
    }

    /** Start-up: every stored session of every tenant is loaded, reserving its bytes. */
    method LoadActive() returns (err: Option<Error>)
      requires Consistent()
      modifies this`sessions, ledger
      ensures Consistent()
      ensures err.None? ==> sessions == store.sessions
      ensures reliable && old(sessions) == map[] && Reserved(store.sessions) <= Bound(ledger.capacity) ==> err.None?
    {
      hide Consistent, Reserved, Mirrors, LoadedTenants;
      var tenants := set id | id in store.sessions :: id.tenant;
      ghost var done: set<string> := {};
      AllMirrored();
      TenantsNone(sessions, store.sessions);
      while |tenants| != 0
        invariant Consistent() && store.sessions == old(store.sessions)
        invariant forall id :: id in store.sessions ==> id.tenant in tenants + done
        invariant tenants !! done
        invariant sessions == LoadedTenants(old(sessions), store.sessions, done)
      {
        var tenant :| tenant in tenants;
        TenantsSoFar(store.sessions, done);
        err := LoadTenant(tenant);
        if err.Some? {
          return;
        }
        TenantsGrow(old(sessions), store.sessions, done, tenant);
        done := done + {tenant};
        tenants := tenants - {tenant};
      }
      TenantsAll(old(sessions), store.sessions, done);
      return None;
    }
  }

  // ---------------------------------------------------------------- whole runs and restarts

  datatype Call =
    | CreateCall(id: Id, bucket: string, key: string, expectedSize: int)
    | PutCall(id: Id, number: int, body: Bytes)
    | AbortCall(id: Id)
    | DeleteCall(id: Id)

  /**
   Any sequence of calls, each failing or succeeding as it may.  Upload ids are fresh when created and
   all bytes together stay below 2^63.  No part and no upload ever grows beyond its limit.
   */
  method Run(m: Manager, calls: seq<Call>)
    requires m.Valid() && m.AllLoaded()
    modifies m`sessions, m.ledger, m.store, m.scratch
    ensures m.Valid() && m.AllLoaded()
    ensures WithinLimits(old(m.store.sessions), m.maxPartSize, m.maxUploadSize) ==>
              WithinLimits(m.store.sessions, m.maxPartSize, m.maxUploadSize)
  {
    hide Reserved, Mirrors, AllTidy, FilesHonest, Tidy, WithinLimits;
    for i := 0 to |calls|
      invariant m.Valid() && m.AllLoaded()
      invariant WithinLimits(old(m.store.sessions), m.maxPartSize, m.maxUploadSize) ==>
                  WithinLimits(m.store.sessions, m.maxPartSize, m.maxUploadSize)
    {
      ghost var before := m.store.sessions;
      var err, part;
      ghost var removed;
      match calls[i] {
        case CreateCall(id, bucket, key, expectedSize) =>
          if id !in m.store.sessions && expectedSize <= MAX_INT64 {
            err := m.Create(id, bucket, key, expectedSize);
          }
        case PutCall(id, number, body) =>
          if |body| + m.ledger.used <= MAX_INT64 {
            m.UsedBoundsTotal(id, number, body);
            err, part := m.PutPart(id, number, body);
          }
        case AbortCall(id) =>
          err, removed := m.Abort(id);
        case DeleteCall(id) =>
          err, removed := m.DeleteSession(id);
      }
      if WithinLimits(before, m.maxPartSize, m.maxUploadSize) {
        LimitsStay(before, m.store.sessions, m.maxPartSize, m.maxUploadSize);
      }
    }
  }

  /** A fresh manager over the same store and scratch directory rebuilds the same sessions and the same total. */
  method Restart(m: Manager) returns (m1: Manager)
    requires m.Valid() && m.AllLoaded()
    ensures fresh(m1) && fresh(m1.ledger) && m1.store == m.store && m1.scratch == m.scratch
    ensures m1.Valid() && m1.AllLoaded() && m1.sessions == m.sessions
    ensures m1.ledger.capacity == m.ledger.capacity && m1.ledger.used == m.ledger.used <= Bound(m1.ledger.capacity)
  {
    var ledger := new DiskReservations(m.ledger.capacity);
    m1 := new Manager(m.store, ledger, m.scratch, m.maxPartSize, m.maxUploadSize, m.etagOf, true);
    var err := m1.LoadActive();
  }

  /** From an empty start, whatever happened and however calls failed, a restart loses and duplicates nothing. */
  method RunThenRestart(capacity: int, maxPartSize: int, maxUploadSize: int, etagOf: Bytes -> string, reliable: bool,
                        calls: seq<Call>)
    returns (m: Manager, m1: Manager)
    requires Capacity(capacity)
    ensures m.Valid() && m1.Valid() && m1.store == m.store
    ensures m1.sessions == m.sessions == m.store.sessions
    ensures m1.ledger.used == m.ledger.used == Reserved(m.sessions)
    ensures WithinLimits(m1.sessions, maxPartSize, maxUploadSize)
  {
    var store := new SessionStore();
    var scratch := new Scratch();
    var ledger := new DiskReservations(capacity);
    m := new Manager(store, ledger, scratch, maxPartSize, maxUploadSize, etagOf, reliable);
    Run(m, calls);
    m1 := Restart(m);
  }
}
