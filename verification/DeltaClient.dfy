/** The delta client: a chunk cache on disk, the request for what is missing, and putting the object together again. */
module DeltaClient {
  import opened ByteData
  import opened Contents
  import opened MemoryStores
  import opened Metadata
  import Objects = ObjectService
  import opened Text

  const MAX_REQUEST_HASHES := 1000

  predicate HexDigits(s: string) {
    forall c :: c in s ==> 'a' <= c <= 'f' || '0' <= c <= '9'
  }

  predicate ValidChunkHash(hash: string) { |hash| == 64 && HexDigits(hash) }

  /** A SHA-256 digest as hexadecimal writes it. */
  predicate ShaName(hash: string) {
    |hash| == 64 && forall i :: 0 <= i < 64 ==> '0' <= hash[i] <= '9' || 'a' <= hash[i] <= 'f'
  }

  lemma ValidIsShaName(hash: string)
    ensures ValidChunkHash(hash) <==> ShaName(hash)
  {
    assert forall i :: 0 <= i < |hash| ==> hash[i] in hash;
  }

  /** The cache file of a chunk is there, of this size unless that is negative, and hashes to its name. */
  predicate Holds(sha: Sha, files: map<string, Bytes>, hash: string, size: int) {
    && ValidChunkHash(hash) && hash in files
    && (size >= 0 ==> |files[hash]| == size) && sha(files[hash]) == hash
  }

  ghost predicate HoldsAll(sha: Sha, files: map<string, Bytes>, chunks: seq<ChunkRef>) {
    forall i :: 0 <= i < |chunks| ==> Holds(sha, files, chunks[i].hash, chunks[i].size)
  }

  /** The distinct names, in manifest order, that the cache cannot serve. */
  function Missing(sha: Sha, files: map<string, Bytes>, chunks: seq<ChunkRef>): seq<string>
  {
    if |chunks| == 0 then []
    else
      var before, last := chunks[..|chunks| - 1], chunks[|chunks| - 1];
      Missing(sha, files, before) +
      if last.hash in HashSet(before) || Holds(sha, files, last.hash, last.size) then [] else [last.hash]
  }

  ghost predicate EqualHashesEqualSizes(chunks: seq<ChunkRef>) {
    forall c, d :: c in chunks && d in chunks && c.hash == d.hash ==> c.size == d.size
  }

  /** Every file of the cache that carries a piece's hash is that piece. */
  ghost predicate NoCollision(sha: Sha, files: map<string, Bytes>, pieces: seq<Bytes>) {
    forall h, piece :: h in files && piece in pieces && sha(files[h]) == sha(piece) ==> files[h] == piece
  }

  /** What the cache files add up to, in manifest order. */
  function FromCache(files: map<string, Bytes>, chunks: seq<ChunkRef>): seq<Bytes>
    requires AllIn(files, chunks)
  {
    seq(|chunks|, i requires 0 <= i < |chunks| => files[chunks[i].hash])
  }

  /** The digest an entity tag carries: 32 hexadecimal digits, or nothing. */
  function TagDigest(etag: string, fold: string -> string): string {
    var value := NormalizeETag(etag, fold);
    if |value| == 32 && HexDigits(value) then value else ""
  }

  /** The digest the manifest promises for the whole object; empty when it promises none. */
  function WantedDigest(objectDigest: string, etag: string, fold: string -> string): string {
    if objectDigest != "" then fold(objectDigest) else TagDigest(etag, fold)
  }

  /** A digest as its hexadecimal encoding writes it. */
  predicate DigestText(digest: string, fold: string -> string) {
    |digest| == 32 && HexDigits(digest) && fold(digest) == digest
  }

  /** A request the server takes. */
  predicate Requestable(hashes: seq<string>) {
    |hashes| <= MAX_REQUEST_HASHES && forall h :: h in hashes ==> ValidChunkHash(h)
  }

  /** The named blocks, each once, as the backend has them. */
  ghost predicate Answers(sha: Sha, blocks: BlockMap, tenant: string, hashes: seq<string>,
                          answer: seq<Objects.SelectedChunk>) {
    && Objects.NamesOf(answer) == Objects.Dedup(hashes)
    && forall c :: c in answer ==> FromBlock(sha, blocks, tenant, c)
  }

  ghost predicate FromBlock(sha: Sha, blocks: BlockMap, tenant: string, c: Objects.SelectedChunk) {
    sha(c.data) == c.hash && |c.data| == c.size && (tenant, c.hash) in blocks && blocks[(tenant, c.hash)] == c.data
  }

  // ---------------------------------------------------------------- lemmas

  lemma MissingStep(sha: Sha, files: map<string, Bytes>, chunks: seq<ChunkRef>, i: nat)
    requires i < |chunks|
    ensures Missing(sha, files, chunks[..i + 1]) == Missing(sha, files, chunks[..i]) +
              if chunks[i].hash in HashSet(chunks[..i]) || Holds(sha, files, chunks[i].hash, chunks[i].size)
              then [] else [chunks[i].hash]
    ensures HashSet(chunks[..i + 1]) == HashSet(chunks[..i]) + {chunks[i].hash}
  {
    assert chunks[..i + 1][..i] == chunks[..i];
    assert chunks[..i + 1] == chunks[..i] + [chunks[i]];
  }

  /** Exactly the names the cache does not hold are missing, each listed once. */
  lemma {:induction false} MissingExact(sha: Sha, files: map<string, Bytes>, chunks: seq<ChunkRef>)
    requires EqualHashesEqualSizes(chunks)
    ensures forall c :: c in chunks ==> (c.hash in Missing(sha, files, chunks) <==> !Holds(sha, files, c.hash, c.size))
    ensures forall h :: h in Missing(sha, files, chunks) ==> h in HashSet(chunks)
    ensures Distinct(Missing(sha, files, chunks))
    decreases |chunks|
  {
    if |chunks| != 0 {
      var before, last := chunks[..|chunks| - 1], chunks[|chunks| - 1];
      assert chunks == before + [last];
      MissingExact(sha, files, before);
      assert HashSet(chunks) == HashSet(before) + {last.hash};
      if last.hash in HashSet(before) {
        var c :| c in before && c.hash == last.hash;
        assert c.size == last.size;
      }
    }
  }

  /** Equal hashes come from equal pieces when the blocks are what their names say. */
  lemma StoredSizes(sha: Sha, blocks: BlockMap, tenant: string, chunks: seq<ChunkRef>, pieces: seq<Bytes>)
    requires Objects.Stored(sha, blocks, tenant, chunks, pieces)
    ensures EqualHashesEqualSizes(chunks)
    ensures forall c :: c in chunks ==> (tenant, c.hash) in blocks && |blocks[(tenant, c.hash)]| == c.size
  {
    Objects.RefsLength(sha, pieces);
    forall i | 0 <= i < |chunks|
      ensures (tenant, chunks[i].hash) in blocks && |blocks[(tenant, chunks[i].hash)]| == chunks[i].size
    {
      Objects.RefsAt(sha, pieces, i);
      Objects.ContentIsPiece(sha, blocks, tenant, pieces, i);
    }
  }

  /** A cache that holds every chunk of a manifest holds the pieces it was cut from. */
  lemma CacheIsPieces(sha: Sha, files: map<string, Bytes>, pieces: seq<Bytes>)
    requires HoldsAll(sha, files, RefsOf(sha, pieces)) && NoCollision(sha, files, pieces)
    ensures AllIn(files, RefsOf(sha, pieces))
    ensures FromCache(files, RefsOf(sha, pieces)) == pieces
  {
    var chunks := RefsOf(sha, pieces);
    Objects.RefsLength(sha, pieces);
    forall i | 0 <= i < |chunks| ensures chunks[i].hash in files && files[chunks[i].hash] == pieces[i] {
      Objects.RefsAt(sha, pieces, i);
      assert Holds(sha, files, chunks[i].hash, chunks[i].size);
      assert pieces[i] in pieces;
    }
  }

  lemma {:induction false} DedupSet(hashes: seq<string>)
    ensures forall h :: h in Objects.Dedup(hashes) <==> h in hashes
    decreases |hashes|
  {
    if |hashes| != 0 {
      DedupSet(hashes[..|hashes| - 1]);
    }
  }

  ghost predicate Carried(response: seq<Objects.SelectedChunk>, hash: string, data: Bytes) {
    exists c :: c in response && c.hash == hash && c.data == data
  }

  lemma KeptNames(response: seq<Objects.SelectedChunk>, chunks: map<string, Bytes>, hashes: seq<string>)
    requires Objects.NamesOf(response) == Objects.Dedup(hashes)
    requires forall h :: h in chunks ==> Carried(response, h, chunks[h])
    requires forall j :: 0 <= j < |response| ==> response[j].hash in chunks
    ensures chunks.Keys == ToSet(hashes)
  {
    DedupSet(hashes);
    var names := Objects.NamesOf(response);
    forall h ensures h in chunks <==> h in names {
      if h in chunks {
        var c :| c in response && c.hash == h && c.data == chunks[h];
        var j :| 0 <= j < |response| && response[j] == c;
        assert names[j] == h;
      }
      if h in names {
        var j :| 0 <= j < |names| && names[j] == h;
      }
    }
  }

  predicate AllIn(files: map<string, Bytes>, chunks: seq<ChunkRef>) {
    forall c :: c in chunks ==> c.hash in files
  }

  predicate DigestMatches(want: string, got: string) { want == "" || got == want }

  /** The tag the service gives a body promises that body's digest. */
  lemma TagPromisesDigest(digestOf: Bytes -> string, body: Bytes, fold: string -> string)
    requires DigestText(digestOf(body), fold)
    ensures var etag := Objects.ETagOf(digestOf, body);
            TagDigest(etag, fold) == digestOf(body) && WantedDigest(TagDigest(etag, fold), etag, fold) == digestOf(body)
  {
    var d := digestOf(body);
    var etag := Objects.ETagOf(digestOf, body);
    assert d[0] in d && d[|d| - 1] in d;
    TrimSpaceOf("", etag, "");
    assert "" + etag + "" == etag;
    assert etag[1..] == d + "\"";
    assert (d + "\"")[..|d|] == d;
    assert TrimQuotesLeft(etag) == TrimQuotesLeft(d + "\"") == d + "\"";
    assert TrimQuotesRight(d + "\"") == TrimQuotesRight(d) == d;
  }

  /** Every name was fetched, is a proper name, and came with bytes that hash to it. */
  predicate Usable(sha: Sha, missing: seq<string>, fetched: map<string, Bytes>) {
    forall h :: h in missing ==> h in fetched && ValidChunkHash(h) && sha(fetched[h]) == h
  }

  /** Every file was there before or is a fetched chunk. */
  ghost predicate Sourced(before: map<string, Bytes>, fetched: map<string, Bytes>, files: map<string, Bytes>) {
    forall h :: h in files ==> (h in before && files[h] == before[h]) || (h in fetched && files[h] == fetched[h])
  }

  /** Files under other names are as they were. */
  ghost predicate OthersKept(names: seq<string>, before: map<string, Bytes>, files: map<string, Bytes>) {
    forall h :: h !in names ==> (h in files <==> h in before) && (h in files ==> files[h] == before[h])
  }

  ghost predicate FromBlocks(blocks: BlockMap, tenant: string, fetched: map<string, Bytes>) {
    forall h :: h in fetched ==> (tenant, h) in blocks && fetched[h] == blocks[(tenant, h)]
  }

  /** When the tag is a quoted digest, it is this one. */
  ghost predicate TagKept(etag: string, fold: string -> string, got: string) {
    forall digest :: etag == "\"" + digest + "\"" && DigestText(digest, fold) ==> got == digest
  }

  lemma MatchKeepsTag(etag: string, fold: string -> string, got: string)
    requires DigestMatches(WantedDigest(TagDigest(etag, fold), etag, fold), got)
    ensures TagKept(etag, fold, got)
  {
    hide WantedDigest, TagDigest;
    forall digest | etag == "\"" + digest + "\"" && DigestText(digest, fold) ensures got == digest {
      QuotedPromises(digest, fold);
    }
  }

  lemma QuotedPromises(digest: string, fold: string -> string)
    requires DigestText(digest, fold)
    ensures var etag := "\"" + digest + "\""; WantedDigest(TagDigest(etag, fold), etag, fold) == digest
  {
    TagPromisesDigest((body: Bytes) => digest, [], fold);
  }

  lemma {:induction false} FirstWithIn(chunks: seq<ChunkRef>, h: string)
    requires h in HashSet(chunks)
    ensures var c := Objects.FirstWith(chunks, h); c.Some? && c.value in chunks && c.value.hash == h
  {
    if chunks[0].hash != h {
      assert chunks == [chunks[0]] + chunks[1..];
      var c :| c in chunks && c.hash == h;
      assert c in chunks[1..];
      FirstWithIn(chunks[1..], h);
    }
  }

  /** Whatever part of a stored object is missing, the server can serve. */
  lemma MissingServable(sha: Sha, blocks: BlockMap, tenant: string, manifest: Manifest, pieces: seq<Bytes>,
                        missing: seq<string>)
    requires Objects.Stored(sha, blocks, tenant, manifest.chunks, pieces)
    requires forall h :: h in missing ==> h in HashSet(manifest.chunks)
    ensures Objects.Servable(blocks, tenant, Some(manifest), missing)
  {
    StoredSizes(sha, blocks, tenant, manifest.chunks, pieces);
    forall h | h in missing ensures Objects.BlockServable(blocks, tenant, manifest.chunks, h) {
      FirstWithIn(manifest.chunks, h);
    }
  }

  /** With the missing chunks filled in from the blocks, the cache holds the whole object. */
  lemma FilledCacheHolds(sha: Sha, blocks: BlockMap, tenant: string, chunks: seq<ChunkRef>, pieces: seq<Bytes>,
                         before: map<string, Bytes>, fetched: map<string, Bytes>, files: map<string, Bytes>)
    requires Objects.Stored(sha, blocks, tenant, chunks, pieces) && FromBlocks(blocks, tenant, fetched)
    requires forall h :: h in Missing(sha, before, chunks) ==> h in fetched && Holds(sha, files, h, |fetched[h]|)
    requires forall h :: h in before && h !in Missing(sha, before, chunks) ==> h in files && files[h] == before[h]
    requires Sourced(before, fetched, files) && NoCollision(sha, before, pieces)
    ensures HoldsAll(sha, files, chunks) && AllIn(files, chunks) && FromCache(files, chunks) == pieces
  {
    StoredSizes(sha, blocks, tenant, chunks, pieces);
    MissingExact(sha, before, chunks);
    forall i | 0 <= i < |chunks| ensures Holds(sha, files, chunks[i].hash, chunks[i].size) {
      var c := chunks[i];
      if c.hash in Missing(sha, before, chunks) {
        assert |fetched[c.hash]| == c.size;
      } else {
        assert Holds(sha, before, c.hash, c.size);
      }
    }
    forall h, piece | h in files && piece in pieces && sha(files[h]) == sha(piece) ensures files[h] == piece {
    }
    CacheIsPieces(sha, files, pieces);
  }

  // ---------------------------------------------------------------- the cache

  class Cache {
    const sha: Sha
    /** File operations of a reliable cache do not fail. */
    const reliable: bool
    var files: map<string, Bytes>

    constructor (sha: Sha, reliable: bool, files: map<string, Bytes>)
      ensures this.sha == sha && this.reliable == reliable && this.files == files
    {
      this.sha, this.reliable, this.files := sha, reliable, files;
    }

    method Read(hash: string, size: int) returns (r: Option<Bytes>)
      ensures r.Some? ==> Holds(sha, files, hash, size) && r.value == files[hash]
      ensures r.Some? ==> sha(r.value) == hash && (size >= 0 ==> |r.value| == size) && ShaName(hash)
      ensures reliable && Holds(sha, files, hash, size) ==> r.Some?
    {
      ValidIsShaName(hash);
      var broken: bool := *;
      if !ValidChunkHash(hash) || hash !in files || (!reliable && broken) {
        return None;
      }
      var data := files[hash];
      if size >= 0 && |data| != size {
        return None;
      }
      if sha(data) != hash {
        return None;
      }
      return Some(data);
    }

    method Has(hash: string, size: int) returns (has: bool)
      ensures has ==> Holds(sha, files, hash, size)
      ensures reliable && Holds(sha, files, hash, size) ==> has
    {
      var data := Read(hash, size);
      return data.Some?;
    }

    /** Only data that hashes to its name gets in; a failed write may lose the old file. */
    method Put(hash: string, data: Bytes) returns (ok: bool)
      modifies this
      ensures ok ==> Holds(sha, files, hash, |data|) && sha(data) == hash && sha(files[hash]) == hash
      ensures ok ==> files == old(files) || files == old(files)[hash := data]
      ensures !ok ==> files == old(files) || files == old(files) - {hash}
      ensures reliable && ValidChunkHash(hash) && sha(data) == hash ==> ok
    {
      if sha(data) != hash {
        return false;
      }
      var has := Has(hash, |data|);
      if has {
        return true;
      }
      if !ValidChunkHash(hash) {
        return false;
      }
      var broken: bool := *;
      if !reliable && broken {
        return false;
      }
      files := files - {hash};
      broken := *;
      if !reliable && broken {
        return false;
      }
      files := files[hash := data];
      assert files == old(files)[hash := data];
      return true;
    }
  }

  // ---------------------------------------------------------------- the client

  class Client {
    const server: Objects.Service
    const tenant: string
    const cache: Cache
    const digestOf: Bytes -> string
    const fold: string -> string
    /** With an honest network every request is answered, by the server; otherwise anything may come back. */
    const honest: bool

    constructor (server: Objects.Service, tenant: string, cache: Cache, digestOf: Bytes -> string,
                 fold: string -> string, honest: bool)
      ensures this.server == server && this.tenant == tenant && this.cache == cache
      ensures this.digestOf == digestOf && this.fold == fold && this.honest == honest
    {
      this.server, this.tenant, this.cache := server, tenant, cache;
      this.digestOf, this.fold, this.honest := digestOf, fold, honest;
    }

    /** The manifest the server serves for an object. */
    ghost function Published(bucket: string, key: string): Option<Manifest>
      reads server.store
    {
      GetObject(server.store.State(), tenant, bucket, key)
    }

    /** The server is reachable, healthy and holds what the request names. */
    ghost predicate CanServe(bucket: string, key: string, hashes: seq<string>)
      reads server.store, server.backend
    {
      && honest && Requestable(hashes) && server.backend.reliable && ContentNamed(server.sha, server.backend.blocks)
      && Objects.Servable(server.backend.blocks, tenant, Published(bucket, key), hashes)
    }

    /** The server's answer to a chunk request. */
    method Ask(bucket: string, key: string, hashes: seq<string>) returns (r: Option<seq<Objects.SelectedChunk>>)
      ensures honest && r.Some? ==>
                Requestable(hashes) && Answers(server.sha, server.backend.blocks, tenant, hashes, r.value)
      ensures CanServe(bucket, key, hashes) ==> r.Some?
    {
      if !honest {
        r := *;
        return;
      }
      if |hashes| > MAX_REQUEST_HASHES {
        return None;
      }
      for i := 0 to |hashes|
        invariant forall j :: 0 <= j < i ==> ValidChunkHash(hashes[j])
      {
        if !ValidChunkHash(hashes[i]) {
          return None;
        }
      }
      ghost var blocks, published := server.backend.blocks, Published(bucket, key);
      assert CanServe(bucket, key, hashes) ==>
          forall h :: h in hashes ==> Objects.BlockServable(blocks, tenant, published.value.chunks, h);
      var answer := server.ReadChunks(tenant, bucket, key, hashes);
      if !answer.Chunks? {
        return None;
      }
      return Some(answer.selected);
    }

    /** Whatever answers, only bytes that hash to the name they come under are kept. */
    method FetchChunks(bucket: string, key: string, hashes: seq<string>) returns (r: Option<map<string, Bytes>>)
      requires server.sha == cache.sha
      ensures r.Some? ==> forall h :: h in r.value ==> cache.sha(r.value[h]) == h
      ensures honest && r.Some? ==> Requestable(hashes) && r.value.Keys == ToSet(hashes)
      ensures honest && r.Some? ==> |hashes| <= 1000 && forall h :: h in hashes ==> ShaName(h)
      ensures honest && r.Some? ==> forall h :: h in r.value ==>
                (tenant, h) in server.backend.blocks && r.value[h] == server.backend.blocks[(tenant, h)]
      ensures CanServe(bucket, key, hashes) ==> r.Some?
    {
      var answer := Ask(bucket, key, hashes);
      if answer.None? {
        return None;
      }
      var response := answer.value;
      var chunks: map<string, Bytes> := map[];
      for i := 0 to |response|
        invariant forall h :: h in chunks ==> cache.sha(chunks[h]) == h && Carried(response[..i], h, chunks[h])
        invariant forall j :: 0 <= j < i ==> response[j].hash in chunks
      {
        var chunk := response[i];
        assert chunk in response && response[..i + 1] == response[..i] + [chunk];
        if |chunk.data| != chunk.size {
          return None;
        }
        if cache.sha(chunk.data) != chunk.hash {
          return None;
        }
        chunks := chunks[chunk.hash := chunk.data];
      }
      assert response[..|response|] == response;
      if honest {
        KeptNames(response, chunks, hashes);
        forall h | h in hashes ensures ShaName(h) {
          ValidIsShaName(h);
        }
      }
      return Some(chunks);
    }

    /** The chunks the cache cannot serve, asking about each distinct hash once. */
    method FindMissing(chunks: seq<ChunkRef>) returns (missing: seq<string>)
      ensures Distinct(missing) && forall h :: h in missing ==> h in HashSet(chunks)
      ensures cache.reliable ==> missing == Missing(cache.sha, cache.files, chunks)
    {
      missing := [];
      var seen: set<string> := {};
      for i := 0 to |chunks|
        invariant seen == HashSet(chunks[..i])
        invariant Distinct(missing) && forall h :: h in missing ==> h in seen
        invariant cache.reliable ==> missing == Missing(cache.sha, cache.files, chunks[..i])
      {
        var chunk := chunks[i];
        MissingStep(cache.sha, cache.files, chunks, i);
        if chunk.hash in seen {
          continue;
        }
        seen := seen + {chunk.hash};
        var has := cache.Has(chunk.hash, chunk.size);
        if !has {
          missing := missing + [chunk.hash];
        }
      }
      assert chunks[..|chunks|] == chunks;
    }

    /** Puts fetched chunks into the cache; what the cache held it still holds if nothing fails. */
    method StoreFetched(missing: seq<string>, fetched: map<string, Bytes>) returns (ok: bool)
      modifies cache
      ensures ok ==> forall h :: h in missing ==> h in fetched && Holds(cache.sha, cache.files, h, |fetched[h]|)
      ensures OthersKept(missing, old(cache.files), cache.files)
      ensures Sourced(old(cache.files), fetched, cache.files)
      ensures cache.reliable && Usable(cache.sha, missing, fetched) ==> ok
    {
      for i := 0 to |missing|
        invariant forall j :: 0 <= j < i ==>
                    missing[j] in fetched && Holds(cache.sha, cache.files, missing[j], |fetched[missing[j]]|)
        invariant OthersKept(missing, old(cache.files), cache.files)
        invariant Sourced(old(cache.files), fetched, cache.files)
      {
        var hash := missing[i];
        if hash !in fetched {
          return false;
        }
        ok := cache.Put(hash, fetched[hash]);
        if !ok {
          return false;
        }
      }
      return true;
    }

    /** Reads the chunks in manifest order and checks size and digest before the file is put in place. */
    method Reconstruct(manifest: Manifest, objectDigest: string) returns (r: Option<Bytes>)
      ensures r.Some? ==> HoldsAll(cache.sha, cache.files, manifest.chunks) && AllIn(cache.files, manifest.chunks)
      ensures r.Some? ==> r.value == Concat(FromCache(cache.files, manifest.chunks)) && |r.value| == manifest.size
      ensures r.Some? ==> DigestMatches(WantedDigest(objectDigest, manifest.etag, fold), digestOf(r.value))
      ensures cache.reliable && HoldsAll(cache.sha, cache.files, manifest.chunks) && AllIn(cache.files, manifest.chunks)
              && (var data := Concat(FromCache(cache.files, manifest.chunks));
                  && |data| == manifest.size
                  && DigestMatches(WantedDigest(objectDigest, manifest.etag, fold), digestOf(data)))
              ==> r.Some?
    {
      var data: Bytes := [];
      var written := 0;
      for i := 0 to |manifest.chunks|
        invariant HoldsAll(cache.sha, cache.files, manifest.chunks[..i]) && AllIn(cache.files, manifest.chunks[..i])
        invariant data == Concat(FromCache(cache.files, manifest.chunks[..i])) && written == |data|
      {
        var chunk := manifest.chunks[i];
        assert manifest.chunks[..i + 1] == manifest.chunks[..i] + [chunk];
        var part := cache.Read(chunk.hash, chunk.size);
        if part.None? {
          assert !Holds(cache.sha, cache.files, manifest.chunks[i].hash, manifest.chunks[i].size) || !cache.reliable;
          return None;
        }
        ConcatAppend(FromCache(cache.files, manifest.chunks[..i]), [part.value]);
        ConcatOne(part.value);
        assert FromCache(cache.files, manifest.chunks[..i + 1]) ==
               FromCache(cache.files, manifest.chunks[..i]) + [part.value];
        data := data + part.value;
        written := written + |part.value|;
      }
      assert manifest.chunks[..|manifest.chunks|] == manifest.chunks;
      if written != manifest.size {
        return None;
      }
      var want := WantedDigest(objectDigest, manifest.etag, fold);
      if want != "" && digestOf(data) != want {
        return None;
      }
      var broken: bool := *;
      if !cache.reliable && broken {
        return None;
      }
      return Some(data);
    }

    /** Both ends work, the object is stored as the service stores it, and the cache holds no hash collision. */
    ghost predicate Healthy(bucket: string, key: string, pieces: seq<Bytes>)
      reads server.store, server.backend, cache
    {
      var m := Published(bucket, key);
      && honest && cache.reliable && server.backend.reliable && digestOf == server.digestOf && m.Some?
      && Objects.Stored(server.sha, server.backend.blocks, tenant, m.value.chunks, pieces)
      && m.value.size == |Concat(pieces)| && m.value.etag == Objects.ETagOf(server.digestOf, Concat(pieces))
      && DigestText(digestOf(Concat(pieces)), fold)
      && (forall piece :: piece in pieces ==> ShaName(server.sha(piece)))
      && NoCollision(cache.sha, cache.files, pieces)
    }

    /** The names of a healthy object's chunks are proper names, so only their number can make a request too large. */
    lemma MissingRequestable(bucket: string, key: string, pieces: seq<Bytes>)
      requires server.sha == cache.sha && Healthy(bucket, key, pieces)
      ensures var missing := Missing(cache.sha, cache.files, Published(bucket, key).value.chunks);
              && (forall h :: h in missing ==> ValidChunkHash(h))
              && (Requestable(missing) <==> |missing| <= MAX_REQUEST_HASHES)
    {
      hide DigestText, NoCollision, Missing, HexDigits;
      var chunks := Published(bucket, key).value.chunks;
      StoredSizes(server.sha, server.backend.blocks, tenant, chunks, pieces);
      MissingExact(cache.sha, cache.files, chunks);
      Objects.RefsLength(server.sha, pieces);
      forall h | h in Missing(cache.sha, cache.files, chunks) ensures ValidChunkHash(h) {
        var i :| 0 <= i < |chunks| && chunks[i].hash == h;
        Objects.RefsAt(server.sha, pieces, i);
        assert pieces[i] in pieces;
        ValidIsShaName(h);
      }
    }

    /** The server can serve what is missing unless that is too much to ask for at once. */
    lemma HealthyServes(bucket: string, key: string, pieces: seq<Bytes>, missing: seq<string>)
      requires server.sha == cache.sha && Healthy(bucket, key, pieces)
      requires missing == Missing(cache.sha, cache.files, Published(bucket, key).value.chunks)
      ensures if |missing| <= MAX_REQUEST_HASHES then CanServe(bucket, key, missing) else !Requestable(missing)
      ensures forall h :: h in missing ==> ValidChunkHash(h)
    {
      hide DigestText, NoCollision, RefsOf, Missing, ContentNamed, HexDigits;
      var manifest := Published(bucket, key).value;
      MissingRequestable(bucket, key, pieces);
      StoredSizes(server.sha, server.backend.blocks, tenant, manifest.chunks, pieces);
      MissingExact(cache.sha, cache.files, manifest.chunks);
      MissingServable(server.sha, server.backend.blocks, tenant, manifest, pieces, missing);
    }

    /** What a healthy object's manifest promises about the bytes put together. */
    lemma HealthyPromise(bucket: string, key: string, pieces: seq<Bytes>)
      requires Healthy(bucket, key, pieces)
      ensures var m := Published(bucket, key).value;
              && |Concat(pieces)| == m.size
              && DigestMatches(WantedDigest(TagDigest(m.etag, fold), m.etag, fold), digestOf(Concat(pieces)))
      ensures honest && cache.reliable && Published(bucket, key).Some?
      ensures Objects.Stored(server.sha, server.backend.blocks, tenant, Published(bucket, key).value.chunks, pieces)
      ensures NoCollision(cache.sha, cache.files, pieces)
    {
      TagPromisesDigest(digestOf, Concat(pieces), fold);
    }

    /**
     Downloads an object against one manifest, from any cache, corrupt files included.  A result is the
     object: its chunks are all valid in the cache, and only a hash collision in the cache could make it
     differ from the pieces stored.  What was asked for is exactly what was missing, each name once.  With
     everything healthy the download succeeds exactly when at most 1000 names are missing: the client asks
     once for all of them.
     */
    method Download(bucket: string, key: string, ghost pieces: seq<Bytes>)
      returns (r: Option<Bytes>, requested: seq<string>)
      requires server.sha == cache.sha
      requires Published(bucket, key).Some? ==> Published(bucket, key).value.chunks == RefsOf(server.sha, pieces)
      modifies cache
      ensures r.Some? ==>
                var m := Published(bucket, key);
                && m.Some? && HoldsAll(cache.sha, cache.files, m.value.chunks) && |r.value| == m.value.size
                && (NoCollision(cache.sha, cache.files, pieces) ==> r.value == Concat(pieces))
      ensures Distinct(requested)
      ensures honest && cache.reliable && Published(bucket, key).Some? ==>
                requested == Missing(cache.sha, old(cache.files), Published(bucket, key).value.chunks)
      ensures old(Healthy(bucket, key, pieces)) ==>
                var missing := Missing(cache.sha, old(cache.files), Published(bucket, key).value.chunks);
                r == if |missing| <= 1000 then Some(Concat(pieces)) else None
      ensures r.Some? ==> TagKept(Published(bucket, key).value.etag, fold, digestOf(r.value))
    {
      hide Healthy, CanServe, DigestMatches, TagKept, TagDigest, WantedDigest, RefsOf, Concat, NoCollision, FromCache;
      ghost var healthy := Healthy(bucket, key, pieces);
      r, requested := None, [];
      if healthy {
        HealthyPromise(bucket, key, pieces);
      }
      var unreachable: bool := *;
      if !honest && unreachable {
        return;
      }
      var published := server.store.Get(tenant, bucket, key);
      if published.None? {
        return;
      }
      var manifest := published.value;
      requested := FindMissing(manifest.chunks);
      ghost var before := cache.files;
      var fetched: map<string, Bytes> := map[];
      if healthy {
        HealthyPromise(bucket, key, pieces);
        HealthyServes(bucket, key, pieces, requested);
      }
      if |requested| > 0 {
        var answer := FetchChunks(bucket, key, requested);
        if answer.None? {
          return;
        }
        fetched := answer.value;
        var ok := StoreFetched(requested, fetched);
        if !ok {
          return;
        }
      }
      if healthy {
        FilledCacheHolds(server.sha, server.backend.blocks, tenant, manifest.chunks, pieces,
                         before, fetched, cache.files);
      }
      r := Reconstruct(manifest, TagDigest(manifest.etag, fold));
      if r.Some? {
        MatchKeepsTag(manifest.etag, fold, digestOf(r.value));
      }
      if r.Some? && NoCollision(cache.sha, cache.files, pieces) {
        CacheIsPieces(cache.sha, cache.files, pieces);
      }
    }
  }
}
