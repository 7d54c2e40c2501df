/** Content addressing: chunk lists of a body, blocks named by hash, and reading a body back. */
module Contents {
  import opened ByteData
  import opened Metadata

  /** The hash naming blocks; only injectivity on the data in use is ever assumed of it. */
  type Sha = Bytes -> string

  type BlockMap = map<(string, string), Bytes>

  /** The references a body's pieces produce, with contiguous offsets. */
  function RefsOf(sha: Sha, pieces: seq<Bytes>): seq<ChunkRef>
  {
    if |pieces| == 0 then []
    else
      var before := pieces[..|pieces| - 1];
      var last := pieces[|pieces| - 1];
      RefsOf(sha, before) + [ChunkRef(sha(last), |Concat(before)|, |last|)]
  }

  /** Every block's content hashes to its name. */
  ghost predicate ContentNamed(sha: Sha, backend: BlockMap) {
    forall t, h :: (t, h) in backend ==> sha(backend[(t, h)]) == h
  }

  /** What a reader assembles from a manifest. */
  function Assemble(backend: BlockMap, tenant: string, chunks: seq<ChunkRef>): Bytes
    requires forall c :: c in chunks ==> (tenant, c.hash) in backend
  {
    if |chunks| == 0 then []
    else
      assert chunks == chunks[..|chunks| - 1] + [chunks[|chunks| - 1]];
      Assemble(backend, tenant, chunks[..|chunks| - 1]) + backend[(tenant, chunks[|chunks| - 1].hash)]
  }

  /** No two distinct byte strings among those in use share a hash. */
  ghost predicate CollisionFree(sha: Sha, backend: BlockMap, pieces: seq<Bytes>) {
    forall at, piece :: at in backend && piece in pieces && sha(backend[at]) == sha(piece) ==> backend[at] == piece
  }

  lemma {:induction false} AssembleRefs(sha: Sha, backend: BlockMap, tenant: string, pieces: seq<Bytes>)
    requires ContentNamed(sha, backend) && CollisionFree(sha, backend, pieces)
    requires forall c :: c in RefsOf(sha, pieces) ==> (tenant, c.hash) in backend
    ensures Assemble(backend, tenant, RefsOf(sha, pieces)) == Concat(pieces)
    decreases |pieces|
  {
    if |pieces| != 0 {
      var before := pieces[..|pieces| - 1];
      var last := pieces[|pieces| - 1];
      var refs := RefsOf(sha, pieces);
      assert refs[..|refs| - 1] == RefsOf(sha, before);
      assert refs[|refs| - 1] in refs;
      assert forall piece :: piece in before ==> piece in pieces;
      AssembleRefs(sha, backend, tenant, before);
      assert last in pieces && (tenant, sha(last)) in backend;
    }
  }
}
