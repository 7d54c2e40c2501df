/** The uploads of the step machine hand the row store nothing its transactions refuse. */
module ServedUploads {
  import opened ByteData
  import opened Contents
  import opened Metadata
  import opened RowStores
  import opened RowSimulation
  import opened Shards
  import Gc = GcMachine
  import Objects = ObjectService

  /** References to pieces are valid chunk rows as long as no piece hashes to the empty name. */
  lemma RefsAreValid(sha: Sha, pieces: seq<Bytes>)
    ensures ValidChunks(RefsOf(sha, pieces)) <==> forall piece :: piece in pieces ==> sha(piece) != ""
  {
    var refs := RefsOf(sha, pieces);
    Objects.RefsLength(sha, pieces);
    forall i | 0 <= i < |pieces|
      ensures refs[i] in refs && refs[i] == ChunkRef(sha(pieces[i]), |Concat(pieces[..i])|, |pieces[i]|)
    {
      Objects.RefsAt(sha, pieces, i);
    }
    if ValidChunks(refs) {
      forall piece | piece in pieces ensures sha(piece) != "" {
        var i :| 0 <= i < |pieces| && pieces[i] == piece;
        assert refs[i] in refs;
      }
    }
  }

  /** The metadata operation a step performs, when it performs one. */
  ghost function OpOf(s: Gc.Sys, step: Gc.Step): Option<Op> {
    match step
    case PutBegin(_, id, tenant, bucket, key, now) =>
      Some(OpCreate(id, NO_MANIFEST.(tenant := tenant, bucket := bucket, key := key), now))
    case PutCommit(p, etag, headers, at) =>
      if p in s.puts then Some(OpCommit(s.puts[p].id, Gc.ManifestOf(s.puts[p], etag, headers), at)) else None
    case ClientDelete(tenant, bucket, key, at) => Some(OpDelete(tenant, bucket, key, at))
    case SweepForget(w) =>
      if w in s.batches then Some(OpForget(s.batches[w].tenant, s.batches[w].candidates)) else None
    case _ => None
  }

  /** Hexadecimal digests are never empty. */
  ghost predicate NamesNonEmpty(sha: Sha) {
    forall data :: sha(data) != ""
  }

  /** A step changes the metadata by its operation alone. */
  lemma StepIsItsOp(sha: Sha, s: Gc.Sys, step: Gc.Step)
    requires Gc.Enabled(sha, s, step)
    ensures Gc.Next(sha, s, step).store == match OpOf(s, step) case None => s.store case Some(op) => Apply(s.store, op)
  {
    hide CreatePending, Commit, DeleteObject, ForgetBlocks;
  }

  /** Every operation of the step machine, of whatever tenant, is one the simulation covers. */
  lemma UploadsAreServed(sha: Sha, s: Gc.Sys, step: Gc.Step)
    requires Gc.SysInv(sha, s) && Gc.Enabled(sha, s, step) && OpOf(s, step).Some?
    requires NamesNonEmpty(sha)
    ensures Allowed(s.store, OpOf(s, step).value) && Served(s.store, OpOf(s, step).value)
  {
    hide Inv, RefsOf, ValidChunks;
    if step.PutCommit? {
      assert Gc.PutOk(sha, s, s.puts[step.p]);
      RefsAreValid(sha, s.puts[step.p].pieces);
    }
  }

  /** The databases that follow a run of the machine. */
  ghost function Mirrored(sha: Sha, digest: string -> string, s: Gc.Sys, databases: Databases, steps: seq<Gc.Step>)
    : Databases
    requires Gc.AllEnabled(sha, s, steps)
    decreases |steps|
  {
    if |steps| == 0 then databases
    else
      var op := OpOf(s, steps[0]);
      Mirrored(sha, digest, Gc.Next(sha, s, steps[0]),
               if op.Some? then ApplyDatabases(digest, databases, op.value) else databases, steps[1..])
  }

  /** Every operation of the run is one of these tenants'. */
  ghost predicate Among(sha: Sha, tenants: set<string>, s: Gc.Sys, steps: seq<Gc.Step>)
    requires Gc.AllEnabled(sha, s, steps)
    decreases |steps|
  {
    |steps| == 0 || (&& (OpOf(s, steps[0]).Some? ==> TenantOf(OpOf(s, steps[0]).value) in tenants)
                     && Among(sha, tenants, Gc.Next(sha, s, steps[0]), steps[1..]))
  }

  lemma {:induction false} RunIsMirrored(sha: Sha, digest: string -> string, tenants: set<string>, s: Gc.Sys,
                                         databases: Databases, steps: seq<Gc.Step>)
    requires Gc.SysInv(sha, s) && Gc.AllEnabled(sha, s, steps) && Gc.AllGuarded(sha, s, steps)
    requires NamesNonEmpty(sha) && Separate(digest, tenants) && Among(sha, tenants, s, steps)
    requires Simulates(digest, tenants, databases, s.store)
    ensures Simulates(digest, tenants, Mirrored(sha, digest, s, databases, steps), Gc.Run(sha, s, steps).store)
    decreases |steps|
  {
    hide Gc.SysInv, Gc.Enabled, Gc.Next, Gc.Guarded, Simulates, OpOf, Allowed, Served, Apply, ApplyDatabases, Separate;
    if |steps| != 0 {
      var op := OpOf(s, steps[0]);
      Gc.GuardedStepKeeps(sha, s, steps[0]);
      StepIsItsOp(sha, s, steps[0]);
      if op.Some? {
        UploadsAreServed(sha, s, steps[0]);
        OpSimulates(digest, tenants, databases, s.store, op.value);
      }
      var next := if op.Some? then ApplyDatabases(digest, databases, op.value) else databases;
      RunIsMirrored(sha, digest, tenants, Gc.Next(sha, s, steps[0]), next, steps[1..]);
    }
  }

  /** Every check of the commit transaction of an upload's manifest passes over these rows. */
  ghost predicate CommitPasses(rows: Rows, id: string, m: Manifest) {
    && id in rows.objects && rows.objects[id].state == Pending && NoRowsFor(rows.chunks, id)
    && rows.objects[id].bucket == m.bucket && rows.objects[id].key == m.key
    && ValidChunks(m.chunks) && m.size >= 0
  }

  /** The row store, holding the same objects of all tenants, takes the commit: none of its checks can fail. */
  lemma UploadCommitSucceeds(sha: Sha, digest: string -> string, tenants: set<string>, s: Gc.Sys, step: Gc.Step,
                             databases: Databases)
    requires step.PutCommit? && Gc.SysInv(sha, s) && Gc.Enabled(sha, s, step) && NamesNonEmpty(sha)
    requires Simulates(digest, tenants, databases, s.store) && s.puts[step.p].tenant in tenants
    ensures var put := s.puts[step.p];
            CommitPasses(RowsOf(databases, SafeTenant(digest, put.tenant)), put.id,
                         Gc.ManifestOf(put, step.etag, step.headers))
  {
    hide Simulates, Served, SafeTenant;
    var put := s.puts[step.p];
    assert Gc.PutOk(sha, s, put);
    UploadsAreServed(sha, s, step);
    var manifest := Gc.ManifestOf(put, step.etag, step.headers);
    ServedCommitSucceeds(digest, tenants, databases, s.store, put.id, manifest, step.at);
  }

  /**
   Through every guarded run of tenants that share no database, the databases that take the same operations
   keep simulating the shared store, and the commit an upload is about to make passes all their checks.
   */
  lemma GuardedRunsAreMirrored(sha: Sha, digest: string -> string, tenants: set<string>, steps: seq<Gc.Step>,
                               next: Gc.Step)
    requires NamesNonEmpty(sha) && Separate(digest, tenants)
    requires Gc.AllEnabled(sha, Gc.INITIAL, steps) && Gc.AllGuarded(sha, Gc.INITIAL, steps)
    requires Among(sha, tenants, Gc.INITIAL, steps)
    requires var s := Gc.Run(sha, Gc.INITIAL, steps);
             next.PutCommit? && Gc.Enabled(sha, s, next) && s.puts[next.p].tenant in tenants
    ensures var s := Gc.Run(sha, Gc.INITIAL, steps);
            var databases, put := Mirrored(sha, digest, Gc.INITIAL, map[], steps), s.puts[next.p];
            && Simulates(digest, tenants, databases, s.store)
            && CommitPasses(RowsOf(databases, SafeTenant(digest, put.tenant)), put.id,
                            Gc.ManifestOf(put, next.etag, next.headers))
  {
    hide Gc.SysInv, Simulates, CommitPasses, Separate, SafeTenant;
    Gc.InitialInv(sha);
    EmptySimulates(digest, tenants);
    Gc.GuardedRunKeeps(sha, Gc.INITIAL, steps);
    RunIsMirrored(sha, digest, tenants, Gc.INITIAL, map[], steps);
    UploadCommitSucceeds(sha, digest, tenants, Gc.Run(sha, Gc.INITIAL, steps), next,
                         Mirrored(sha, digest, Gc.INITIAL, map[], steps));
  }
}
