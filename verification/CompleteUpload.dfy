/**
 Completing a multipart upload: the list of parts is checked, the parts are read in order and stored as one
 object.
 */
module CompleteUpload {
  import opened Backends
  import opened ByteData
  import opened Contents
  import opened Int64
  import opened Limits
  import opened Metadata
  import opened Multipart
  import Objects = ObjectService
  import opened Text

  const MAX_PART_NUMBER := 10000

  datatype CompletePart = CompletePart(number: int, etag: string)

  datatype Validation = Accepted(order: seq<nat>) | Rejected(code: string)

  predicate Matches(uploaded: map<nat, Part>, part: CompletePart, fold: string -> string)
    requires part.number >= 0
  {
    && part.number in uploaded && NormalizeETag(part.etag, fold) != ""
    && NormalizeETag(part.etag, fold) == NormalizeETag(uploaded[part.number].etag, fold)
  }

  /** A nonempty, strictly ascending list of numbers in range, each an uploaded part with this ETag. */
  predicate Acceptable(uploaded: map<nat, Part>, completed: seq<CompletePart>, fold: string -> string) {
    && completed != []
    && (forall i :: 0 <= i < |completed| ==> 1 <= completed[i].number <= MAX_PART_NUMBER)
    && (forall i, j :: 0 <= i < j < |completed| ==> completed[i].number < completed[j].number)
    && (forall i :: 0 <= i < |completed| ==> Matches(uploaded, completed[i], fold))
  }

  /** The two tags are the same but for quotes, surrounding white space and case, and not empty. */
  ghost predicate SameTag(a: string, b: string, fold: string -> string) {
    exists x, y :: TagOf(a, x) && TagOf(b, y) && fold(x) == fold(y) != ""
  }

  lemma SameTagIff(a: string, b: string, fold: string -> string)
    ensures SameTag(a, b, fold) <==> NormalizeETag(a, fold) == NormalizeETag(b, fold) != ""
  {
    hide TagOf, NormalizeETag;
    var x := TagHasCore(a);
    var y := TagHasCore(b);
    NormalizeETagOf(a, x, fold);
    NormalizeETagOf(b, y, fold);
    if v, w :| TagOf(a, v) && TagOf(b, w) && fold(v) == fold(w) != "" {
      NormalizeETagOf(a, v, fold);
      NormalizeETagOf(b, w, fold);
    }
  }

  /** A list is acceptable exactly when it names uploaded parts, with their tags, in strictly ascending order. */
  lemma AcceptableWrittenOut(uploaded: map<nat, Part>, completed: seq<CompletePart>, fold: string -> string)
    ensures Acceptable(uploaded, completed, fold) <==>
              && |completed| > 0
              && (forall i :: 0 <= i < |completed| ==>
                    && 1 <= completed[i].number <= 10000 && completed[i].number in uploaded
                    && SameTag(completed[i].etag, uploaded[completed[i].number].etag, fold))
              && (forall i, j :: 0 <= i < j < |completed| ==> completed[i].number < completed[j].number)
  {
    hide SameTag, NormalizeETag;
    forall i | 0 <= i < |completed| && 1 <= completed[i].number
      ensures Matches(uploaded, completed[i], fold) <==>
                && completed[i].number in uploaded
                && SameTag(completed[i].etag, uploaded[completed[i].number].etag, fold)
    {
      if completed[i].number in uploaded {
        SameTagIff(completed[i].etag, uploaded[completed[i].number].etag, fold);
      }
    }
  }

  /** What is wrong with entry i, seen after the entry before it. */
  function Problem(uploaded: map<nat, Part>, completed: seq<CompletePart>, fold: string -> string, i: nat)
    : Option<string>
    requires i < |completed|
  {
    var part := completed[i];
    if part.number <= 0 || part.number > MAX_PART_NUMBER then Some("InvalidPart")
    else if i > 0 && part.number <= completed[i - 1].number then Some("InvalidPartOrder")
    else if !Matches(uploaded, part, fold) then Some("InvalidPart")
    else None
  }

  /** The codes: InvalidPartOrder for a number in range that does not ascend, InvalidPart for anything else. */
  lemma ProblemWrittenOut(uploaded: map<nat, Part>, completed: seq<CompletePart>, fold: string -> string, i: nat)
    requires i < |completed|
    ensures var n, problem := completed[i].number, Problem(uploaded, completed, fold, i);
            && (problem == None <==>
                  && 1 <= n <= 10000 && (i > 0 ==> completed[i - 1].number < n)
                  && n in uploaded && SameTag(completed[i].etag, uploaded[n].etag, fold))
            && (problem == Some("InvalidPartOrder") <==> 1 <= n <= 10000 && i > 0 && n <= completed[i - 1].number)
            && problem in {None, Some("InvalidPartOrder"), Some("InvalidPart")}
  {
    hide SameTag, NormalizeETag;
    var n := completed[i].number;
    if 1 <= n && n in uploaded {
      SameTagIff(completed[i].etag, uploaded[n].etag, fold);
    }
  }

  function NumbersOf(completed: seq<CompletePart>): seq<nat> {
    seq(|completed|, i requires 0 <= i < |completed| => if completed[i].number < 0 then 0 else completed[i].number)
  }

  /** The list is acceptable exactly when no entry has a problem. */
  lemma {:induction false} AcceptableIff(uploaded: map<nat, Part>, completed: seq<CompletePart>, fold: string -> string)
    ensures Acceptable(uploaded, completed, fold) <==>
            completed != [] && forall i :: 0 <= i < |completed| ==> Problem(uploaded, completed, fold, i) == None
  {
    if completed != [] && forall i :: 0 <= i < |completed| ==> Problem(uploaded, completed, fold, i) == None {
      forall i, j | 0 <= i < j < |completed| ensures completed[i].number < completed[j].number {
        Ascends(uploaded, completed, fold, i, j);
      }
      forall i | 0 <= i < |completed|
        ensures 1 <= completed[i].number <= MAX_PART_NUMBER && Matches(uploaded, completed[i], fold)
      {
        assert Problem(uploaded, completed, fold, i) == None;
      }
    }
  }

  lemma {:induction false} Ascends(uploaded: map<nat, Part>, completed: seq<CompletePart>, fold: string -> string,
                                   i: nat, j: nat)
    requires i < j < |completed|
    requires forall k :: 0 <= k < |completed| ==> Problem(uploaded, completed, fold, k) == None
    ensures completed[i].number < completed[j].number
    decreases j
  {
    assert Problem(uploaded, completed, fold, j) == None;
    if i < j - 1 {
      Ascends(uploaded, completed, fold, i, j - 1);
    }
  }

  /** The code is that of an empty list, or of the first entry with a problem. */
  ghost predicate FirstProblem(uploaded: map<nat, Part>, completed: seq<CompletePart>, fold: string -> string,
                               code: string) {
    if completed == [] then code == "MalformedXML"
    else exists i :: 0 <= i < |completed| && Problem(uploaded, completed, fold, i) == Some(code) &&
           forall j :: 0 <= j < i ==> Problem(uploaded, completed, fold, j) == None
  }

  /** The ascending order leaves no room for the duplicate the source also looks for. */
  method ValidateCompletedParts(uploaded: map<nat, Part>, completed: seq<CompletePart>, fold: string -> string)
    returns (r: Validation)
    ensures r.Accepted? <==> Acceptable(uploaded, completed, fold)
    ensures r.Accepted? ==> completed != [] && r.order == NumbersOf(completed)
    ensures r.Rejected? ==> FirstProblem(uploaded, completed, fold, r.code)
  {
    AcceptableIff(uploaded, completed, fold);
    if |completed| == 0 {
      return Rejected("MalformedXML");
    }
    var order: seq<nat> := [];
    var last := 0;
    for i := 0 to |completed|
      invariant last == if i == 0 then 0 else completed[i - 1].number
      invariant forall j :: 0 <= j < i ==> Problem(uploaded, completed, fold, j) == None
      invariant order == NumbersOf(completed[..i])
    {
      var part := completed[i];
      if part.number <= 0 || part.number > MAX_PART_NUMBER {
        assert Problem(uploaded, completed, fold, i) == Some("InvalidPart");
        return Rejected("InvalidPart");
      }
      if part.number <= last {
        assert Problem(uploaded, completed, fold, i) == Some("InvalidPartOrder");
        return Rejected("InvalidPartOrder");
      }
      if part.number !in uploaded {
        assert Problem(uploaded, completed, fold, i) == Some("InvalidPart");
        return Rejected("InvalidPart");
      }
      var etag := NormalizeETag(part.etag, fold);
      if etag == "" || etag != NormalizeETag(uploaded[part.number].etag, fold) {
        assert Problem(uploaded, completed, fold, i) == Some("InvalidPart");
        return Rejected("InvalidPart");
      }
      assert Problem(uploaded, completed, fold, i) == None;
      assert NumbersOf(completed[..i + 1]) == NumbersOf(completed[..i]) + [part.number];
      last := part.number;
      order := order + [part.number];
    }
    assert completed[..|completed|] == completed;
    return Accepted(order);
  }

  // ---------------------------------------------------------------- completing

  datatype Completion = Completed(manifest: Manifest) | Invalid(code: string) | NoUpload | Broken

  /** All that is assumed of a chunking engine: the pieces make up the body. */
  ghost predicate Partitions(split: Bytes -> seq<Bytes>) {
    forall body :: Concat(split(body)) == body
  }

  /** The object stored is the listed parts' accepted bytes, in the order of the list. */
  ghost predicate StoredAs(sha: Sha, digestOf: Bytes -> string, split: Bytes -> seq<Bytes>, manifest: Manifest,
                           blocks: BlockMap, tenant: string, body: Bytes) {
    && manifest.chunks == RefsOf(sha, split(body))
    && manifest.size == |body| && manifest.etag == "\"" + digestOf(body) + "\""
    && forall piece :: piece in split(body) ==> (tenant, sha(piece)) in blocks
  }

  /** A lookup at the upload's bucket and key finds this manifest. */
  ghost predicate FoundAt(s: StoreState, id: Id, session: Session, manifest: Manifest) {
    GetObject(s, id.tenant, session.bucket, session.key) == Some(manifest)
  }

  ghost predicate AllPresent(files: map<Slot, Bytes>, id: Id, order: seq<nat>) {
    forall n :: n in order ==> Slot(id, n) in files
  }

  lemma AcceptableParts(uploaded: map<nat, Part>, completed: seq<CompletePart>, fold: string -> string)
    requires Acceptable(uploaded, completed, fold)
    ensures forall n :: n in NumbersOf(completed) ==> n in uploaded
  {
    forall n | n in NumbersOf(completed) ensures n in uploaded {
      var i :| 0 <= i < |completed| && NumbersOf(completed)[i] == n;
      assert Matches(uploaded, completed[i], fold);
    }
  }

  /**
   Checks the list, reads the parts, stores the object, then drops the session.  With nothing failing
   around it, an acceptable list is completed unless a listed part's file is gone.
   */
  method Complete(m: Manager, service: Objects.Service, id: Id, completed: seq<CompletePart>, fold: string -> string,
                  split: Bytes -> seq<Bytes>, freshId: string, headers: map<string, string>, now: int, at: Stamps)
    returns (c: Completion, ghost body: Bytes)
    requires m.Valid()
    requires freshId != "" && freshId !in service.store.objects && Partitions(split)
    modifies m`sessions, m.ledger, m.store, m.scratch, service.store, service.backend
    ensures m.Valid() && m.scratch.accepted == old(m.scratch.accepted)
    ensures c.Completed? ==>
              && id in old(m.store.sessions) && Acceptable(old(m.store.sessions)[id].parts, completed, fold)
              && AllAccepted(m.scratch.accepted, id, NumbersOf(completed))
              && body == Concat(PartBytes(m.scratch.accepted, id, NumbersOf(completed)))
              && FoundAt(service.store.State(), id, old(m.store.sessions)[id], c.manifest)
              && StoredAs(service.sha, service.digestOf, split, c.manifest, service.backend.blocks, id.tenant, body)
              && m.store.sessions == old(m.store.sessions) - {id} && m.sessions == old(m.sessions) - {id}
    ensures c.Invalid? ==> id in old(m.store.sessions) && !Acceptable(old(m.store.sessions)[id].parts, completed, fold)
    ensures c.Invalid? ==> FirstProblem(old(m.store.sessions)[id].parts, completed, fold, c.code)
    ensures m.reliable && id in old(m.sessions) && !Acceptable(old(m.store.sessions)[id].parts, completed, fold) ==>
              c.Invalid?
    ensures m.reliable && service.calm && service.backend.reliable && id in old(m.sessions) && c.Broken? ==>
              !AllPresent(old(m.scratch.files), id, NumbersOf(completed))
    ensures m.reliable ==> (c.NoUpload? <==> id !in old(m.store.sessions))
    ensures m.reliable && service.calm && service.backend.reliable && id in old(m.sessions)
            && Acceptable(old(m.store.sessions)[id].parts, completed, fold)
            && AllPresent(old(m.scratch.files), id, NumbersOf(completed)) ==>
              c.Completed?
    ensures !c.Completed? && !c.Broken? ==>
              m.store.sessions == old(m.store.sessions) && service.store.State() == old(service.store.State())
  {
    hide Reserved, AllTidy, Tidy, FilesHonest, Acceptable, GetObject, Lookup, IndexExact, RefOf, Concat, PartBytes;
    hide RefsOf, AllAccepted, FirstProblem;
    body := [];
    var err := m.Load(id);
    if err.Some? {
      return if err.value == NotFound then NoUpload else Broken, body;
    }
    var session := m.sessions[id];
    MirrorsAt(m.sessions, m.store.sessions, id);
    var validation := ValidateCompletedParts(session.parts, completed, fold);
    if validation.Rejected? {
      return Invalid(validation.code), body;
    }
    AcceptableParts(session.parts, completed, fold);
    var content, order := m.Open(id, validation.order);
    if content.None? {
      return Broken, body;
    }
    body := content.value;
    var pieces := split(content.value);
    var manifest;
    ghost var committed;
    manifest, committed := service.Put(freshId, id.tenant, session.bucket, session.key, pieces, true, headers, now, at);
    if manifest.None? {
      return Broken, body;
    }
    ghost var removed;
    err, removed := m.Abort(id);
    if err.Some? {
      return Broken, body;
    }
    return Completed(manifest.value), body;
  }

  // ---------------------------------------------------------------- a whole upload

  datatype PartUpload = PartUpload(number: int, body: Bytes)

  /** The uploads that were acknowledged, in order. */
  function Acknowledged(uploads: seq<PartUpload>, oks: seq<bool>): seq<PartUpload>
    requires |oks| == |uploads|
  {
    if |uploads| == 0 then []
    else
      var before := Acknowledged(uploads[..|uploads| - 1], oks[..|oks| - 1]);
      before + if oks[|oks| - 1] then [uploads[|uploads| - 1]] else []
  }

  /** The body of the last upload of a part. */
  function Latest(uploads: seq<PartUpload>, number: nat): Option<Bytes>
  {
    if |uploads| == 0 then None
    else if uploads[|uploads| - 1].number == number then Some(uploads[|uploads| - 1].body)
    else Latest(uploads[..|uploads| - 1], number)
  }

  ghost predicate AllUploaded(uploads: seq<PartUpload>, order: seq<nat>) {
    forall i :: 0 <= i < |order| ==> Latest(uploads, order[i]).Some?
  }

  ghost function LatestOf(uploads: seq<PartUpload>, order: seq<nat>): seq<Bytes>
    requires AllUploaded(uploads, order)
  {
    seq(|order|, i requires 0 <= i < |order| => Latest(uploads, order[i]).value)
  }

  /** The session holds exactly the parts uploaded, and the record of each is its latest body. */
  ghost predicate Reflects(uploads: seq<PartUpload>, parts: map<nat, Part>, accepted: map<Slot, Bytes>, id: Id) {
    forall n: nat :: (n in parts <==> Latest(uploads, n).Some?) &&
      (n in parts ==> Slot(id, n) in accepted && accepted[Slot(id, n)] == Latest(uploads, n).value)
  }

  lemma ReflectsNext(uploads: seq<PartUpload>, parts: map<nat, Part>, accepted: map<Slot, Bytes>, id: Id, number: nat,
                     body: Bytes, part: Part)
    requires Reflects(uploads, parts, accepted, id)
    ensures Reflects(uploads + [PartUpload(number, body)], parts[number := part],
                     accepted[Slot(id, number) := body], id)
  {
    var all := uploads + [PartUpload(number, body)];
    assert all[..|all| - 1] == uploads;
  }

  lemma ReflectedBytes(uploads: seq<PartUpload>, parts: map<nat, Part>, accepted: map<Slot, Bytes>, id: Id,
                       completed: seq<CompletePart>, fold: string -> string)
    requires Reflects(uploads, parts, accepted, id) && Acceptable(parts, completed, fold)
    requires AllAccepted(accepted, id, NumbersOf(completed))
    ensures AllUploaded(uploads, NumbersOf(completed))
    ensures PartBytes(accepted, id, NumbersOf(completed)) == LatestOf(uploads, NumbersOf(completed))
  {
    var order := NumbersOf(completed);
    forall i | 0 <= i < |order|
      ensures Latest(uploads, order[i]).Some? && accepted[Slot(id, order[i])] == Latest(uploads, order[i]).value
    {
      assert Matches(parts, completed[i], fold);
    }
  }

  /** The session with one more part taken. */
  ghost function Extended(s: Session, etagOf: Bytes -> string, upload: PartUpload): Session {
    var part := Part(|upload.body|, etagOf(upload.body));
    if upload.number < 0 then s else WithPart(s, upload.number, part, NewTotal(s, upload.number, part))
  }

  /** The session once these parts have been taken, in order. */
  ghost function SessionAfter(s: Session, etagOf: Bytes -> string, taken: seq<PartUpload>): Session {
    if |taken| == 0 then s
    else Extended(SessionAfter(s, etagOf, taken[..|taken| - 1]), etagOf, taken[|taken| - 1])
  }

  /** Nothing the manager checks speaks against this part, and all bytes together stay below 2^63. */
  ghost predicate Welcome(m: Manager, id: Id, s: Session, used: int, upload: PartUpload) {
    && |upload.body| + used <= MAX_INT64
    && upload.number > 0 && Room(m.ledger.capacity, used)
    && !(0 < m.maxPartSize < |upload.body|)
    && var total := Total(s.parts[upload.number := Part(|upload.body|, m.etagOf(upload.body))]);
       !(0 < m.maxUploadSize < total) && Room(m.ledger.capacity, used + total - s.reserved)
  }

  /** The same once these parts have been taken: the counter has moved with the session's reservation. */
  ghost predicate WelcomeAfter(m: Manager, id: Id, s: Session, used: int, taken: seq<PartUpload>, upload: PartUpload) {
    var now := SessionAfter(s, m.etagOf, taken);
    Welcome(m, id, now, used - s.reserved + now.reserved, upload)
  }

  /** Each part was acknowledged exactly when it was welcome at that moment. */
  ghost predicate AnsweredExactly(m: Manager, id: Id, s: Session, used: int, uploads: seq<PartUpload>, oks: seq<bool>)
    requires |oks| <= |uploads|
  {
    forall i :: 0 <= i < |oks| ==>
      (oks[i] <==> WelcomeAfter(m, id, s, used, Acknowledged(uploads[..i], oks[..i]), uploads[i]))
  }

  lemma AnsweredNext(m: Manager, id: Id, s: Session, used: int, uploads: seq<PartUpload>, oks: seq<bool>, ok: bool)
    requires |oks| < |uploads| && AnsweredExactly(m, id, s, used, uploads, oks)
    requires ok <==> WelcomeAfter(m, id, s, used, Acknowledged(uploads[..|oks|], oks), uploads[|oks|])
    ensures AnsweredExactly(m, id, s, used, uploads, oks + [ok])
  {
    hide WelcomeAfter, Acknowledged;
    var next := oks + [ok];
    forall i | 0 <= i < |next|
      ensures next[i] <==> WelcomeAfter(m, id, s, used, Acknowledged(uploads[..i], next[..i]), uploads[i])
    {
      assert next[..i] == oks[..i];
      assert oks[..|oks|] == oks;
    }
  }

  lemma AcknowledgedNext(uploads: seq<PartUpload>, oks: seq<bool>, i: nat, ok: bool)
    requires i < |uploads| && |oks| == i
    ensures Acknowledged(uploads[..i + 1], oks + [ok]) ==
            if ok then Acknowledged(uploads[..i], oks) + [uploads[i]] else Acknowledged(uploads[..i], oks)
  {
    assert uploads[..i + 1][..i] == uploads[..i];
    assert (oks + [ok])[..i] == oks;
  }

  /** Taking one more part extends session, records and order of uploads alike. */
  lemma TakenNext(s: Session, etagOf: Bytes -> string, taken: seq<PartUpload>, upload: PartUpload, before: Session,
                  accepted: map<Slot, Bytes>, id: Id)
    requires upload.number > 0 && before == SessionAfter(s, etagOf, taken)
    requires Reflects(taken, before.parts, accepted, id)
    ensures SessionAfter(s, etagOf, taken + [upload]) == Extended(before, etagOf, upload)
    ensures Reflects(taken + [upload], Extended(before, etagOf, upload).parts,
                     accepted[Slot(id, upload.number) := upload.body], id)
    ensures Extended(before, etagOf, upload).bucket == before.bucket
    ensures Extended(before, etagOf, upload).key == before.key
    ensures Extended(before, etagOf, upload).parts.Keys == before.parts.Keys + {upload.number}
  {
    hide NewTotal;
    assert (taken + [upload])[..|taken|] == taken;
    ReflectsNext(taken, before.parts, accepted, id, upload.number, upload.body,
                 Part(|upload.body|, etagOf(upload.body)));
  }

  ghost predicate PartsPresent(parts: map<nat, Part>, files: map<Slot, Bytes>, id: Id) {
    forall n :: n in parts ==> Slot(id, n) in files
  }

  /** One call that uploads a part; the bytes of the part and all that is reserved have to stay below 2^63. */
  method ReceivePart(m: Manager, id: Id, upload: PartUpload) returns (ok: bool)
    requires m.Valid() && m.AllLoaded() && id in m.store.sessions
    modifies m`sessions, m.ledger, m.store, m.scratch
    ensures m.Valid() && m.AllLoaded() && id in m.store.sessions
    ensures var before := old(m.store.sessions)[id];
            && m.store.sessions[id] == (if ok then Extended(before, m.etagOf, upload) else before)
            && m.ledger.used == old(m.ledger.used) + m.store.sessions[id].reserved - before.reserved
    ensures ok ==> upload.number > 0 && m.scratch.accepted ==
                                       old(m.scratch.accepted)[Slot(id, upload.number) := upload.body]
    ensures !ok ==> m.scratch.accepted == old(m.scratch.accepted)
    ensures m.reliable ==>
              (ok <==> Welcome(m, id, old(m.store.sessions)[id], old(m.ledger.used), upload))
    ensures m.reliable ==>
              m.scratch.files == if ok then old(m.scratch.files)[Slot(id, upload.number) := upload.body]
                                 else old(m.scratch.files)
  {
    hide Reserved, AllTidy, Tidy, FilesHonest, Mirrors, Total, Room, WithinLimits;
    ok := false;
    if |upload.body| + m.ledger.used <= MAX_INT64 {
      m.UsedBoundsTotal(id, upload.number, upload.body);
      ghost var before := m.store.sessions;
      var err, part := m.PutPart(id, upload.number, upload.body);
      ok := err.None?;
      if ok {
        ReservedChanges(before, id, m.store.sessions[id]);
      }
    }
  }

  /** All the calls that upload a part, in order. */
  method ReceiveParts(m: Manager, id: Id, uploads: seq<PartUpload>) returns (oks: seq<bool>)
    requires m.Valid() && m.AllLoaded() && id in m.store.sessions && m.store.sessions[id].parts == map[]
    modifies m`sessions, m.ledger, m.store, m.scratch
    ensures m.Valid() && m.AllLoaded() && id in m.store.sessions && |oks| == |uploads|
    ensures m.store.sessions[id] == SessionAfter(old(m.store.sessions)[id], m.etagOf, Acknowledged(uploads, oks))
    ensures m.store.sessions[id].bucket == old(m.store.sessions)[id].bucket
    ensures m.store.sessions[id].key == old(m.store.sessions)[id].key
    ensures Reflects(Acknowledged(uploads, oks), m.store.sessions[id].parts, m.scratch.accepted, id)
    ensures m.reliable ==> PartsPresent(m.store.sessions[id].parts, m.scratch.files, id)
    ensures m.reliable ==>
              AnsweredExactly(m, id, old(m.store.sessions)[id], old(m.ledger.used), uploads, oks)
  {
    hide Reserved, AllTidy, Tidy, FilesHonest, Mirrors, NewTotal, Welcome, Extended, AnsweredExactly, Reflects;
    oks := [];
    ghost var session, used := m.store.sessions[id], m.ledger.used;
    NothingReceived(m, id, session, used, uploads, m.scratch.accepted);
    for i := 0 to |uploads|
      invariant m.Valid() && m.AllLoaded()
      invariant |oks| == i
      invariant id in m.store.sessions
      invariant m.store.sessions[id] == SessionAfter(session, m.etagOf, Acknowledged(uploads[..i], oks))
      invariant m.ledger.used == used - session.reserved + m.store.sessions[id].reserved
      invariant m.store.sessions[id].bucket == session.bucket && m.store.sessions[id].key == session.key
      invariant Reflects(Acknowledged(uploads[..i], oks), m.store.sessions[id].parts, m.scratch.accepted, id)
      invariant m.reliable ==> PartsPresent(m.store.sessions[id].parts, m.scratch.files, id)
      invariant m.reliable ==> AnsweredExactly(m, id, session, used, uploads, oks)
    {
      ghost var before, accepted := m.store.sessions[id], m.scratch.accepted;
      var ok := ReceivePart(m, id, uploads[i]);
      AcknowledgedNext(uploads, oks, i, ok);
      if ok {
        TakenNext(session, m.etagOf, Acknowledged(uploads[..i], oks), uploads[i], before, accepted, id);
      }
      if m.reliable {
        AnsweredNext(m, id, session, used, uploads, oks, ok);
      }
      oks := oks + [ok];
    }
    assert uploads[..|uploads|] == uploads;
  }

  lemma NothingReceived(m: Manager, id: Id, s: Session, used: int, uploads: seq<PartUpload>, accepted: map<Slot, Bytes>)
    requires s.parts == map[]
    ensures Acknowledged(uploads[..0], []) == [] && SessionAfter(s, m.etagOf, []) == s
    ensures Reflects([], s.parts, accepted, id) && AnsweredExactly(m, id, s, used, uploads, [])
  {
  }

  /**
   An upload from start to finish: parts arrive in any order and any number of times, some calls fail;
   what is stored at the end is the concatenation, in the listed ascending order, of the latest
   acknowledged bodies.  When nothing fails around it, a part is acknowledged exactly when no check speaks
   against it at that moment, and the upload is completed exactly when the list is acceptable for the
   acknowledged parts.
   */
  method UploadAndComplete(m: Manager, service: Objects.Service, id: Id, uploads: seq<PartUpload>,
                           completed: seq<CompletePart>, fold: string -> string, split: Bytes -> seq<Bytes>,
                           freshId: string, headers: map<string, string>, now: int, at: Stamps)
    returns (c: Completion, oks: seq<bool>)
    requires m.Valid() && m.AllLoaded() && id in m.store.sessions && m.store.sessions[id].parts == map[]
    requires freshId != "" && freshId !in service.store.objects && Partitions(split)
    modifies m`sessions, m.ledger, m.store, m.scratch, service.store, service.backend
    ensures |oks| == |uploads|
    ensures c.Completed? ==>
              && AllUploaded(Acknowledged(uploads, oks), NumbersOf(completed))
              && FoundAt(service.store.State(), id, old(m.store.sessions)[id], c.manifest)
              && StoredAs(service.sha, service.digestOf, split, c.manifest, service.backend.blocks, id.tenant,
                          Concat(LatestOf(Acknowledged(uploads, oks), NumbersOf(completed))))
    ensures m.reliable ==>
              AnsweredExactly(m, id, old(m.store.sessions)[id], old(m.ledger.used), uploads, oks)
    ensures var session := SessionAfter(old(m.store.sessions)[id], m.etagOf, Acknowledged(uploads, oks));
            && (c.Completed? ==> Acceptable(session.parts, completed, fold))
            && (m.reliable && service.calm && service.backend.reliable && Acceptable(session.parts, completed, fold) ==>
                  c.Completed?)
  {
    hide Reserved, AllTidy, Tidy, FilesHonest, Acceptable, Mirrors, AnsweredExactly, Reflects, SessionAfter;
    oks := ReceiveParts(m, id, uploads);
    ghost var parts, files := m.store.sessions[id].parts, m.scratch.files;
    ghost var body;
    c, body := Complete(m, service, id, completed, fold, split, freshId, headers, now, at);
    if c.Completed? {
      ReflectedBytes(Acknowledged(uploads, oks), parts, m.scratch.accepted, id, completed, fold);
    }
    if m.reliable && Acceptable(parts, completed, fold) {
      AcceptableParts(parts, completed, fold);
      assert AllPresent(files, id, NumbersOf(completed));
    }
  }
}
