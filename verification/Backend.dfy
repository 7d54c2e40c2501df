/** The block store: a map from tenant and block name to bytes, whose calls may fail. */
module Backends {
  import opened ByteData
  import opened Metadata
  import opened Contents

  function Names(tenant: string, hashes: set<string>): set<(string, string)> {
    set h | h in hashes :: (tenant, h)
  }

  class BlockStore {
    var blocks: BlockMap
    /** A reliable store never reports an error; nothing is assumed of the others. */
    const reliable: bool

    constructor (reliable: bool)
      ensures blocks == map[] && this.reliable == reliable
    {
      blocks := map[];
      this.reliable := reliable;
    }

    method HasBlock(tenant: string, hash: string) returns (ok: bool, exists_: bool)
      ensures ok ==> (exists_ <==> (tenant, hash) in blocks)
      ensures reliable ==> ok
    {
      var broken: bool := *;
      if !reliable && broken {
        return false, false;
      }
      return true, (tenant, hash) in blocks;
    }

    /** An existing block is left as it is. */
    method PutBlock(tenant: string, hash: string, data: Bytes) returns (ok: bool)
      modifies this
      ensures ok ==>
                blocks == if (tenant, hash) in old(blocks) then old(blocks) else old(blocks)[(tenant, hash) := data]
      ensures !ok ==> blocks == old(blocks)
      ensures reliable ==> ok
    {
      var broken: bool := *;
      if !reliable && broken {
        return false;
      }
      if (tenant, hash) !in blocks {
        blocks := blocks[(tenant, hash) := data];
      }
      return true;
    }

    method GetBlock(tenant: string, hash: string) returns (r: Option<Bytes>)
      ensures r.Some? ==> (tenant, hash) in blocks && r.value == blocks[(tenant, hash)]
      ensures reliable && (tenant, hash) in blocks ==> r.Some?
    {
      if (tenant, hash) !in blocks {
        return None;
      }
      var broken: bool := *;
      if !reliable && broken {
        return None;
      }
      return Some(blocks[(tenant, hash)]);
    }

    /** Removes the named blocks one by one; an error leaves the ones before it removed. */
    method DeleteBlocks(tenant: string, hashes: seq<string>) returns (ok: bool, ghost removed: set<string>)
      modifies this
      ensures removed <= (set h | h in hashes) && blocks == old(blocks) - Names(tenant, removed)
      ensures ok ==> removed == set h | h in hashes
      ensures reliable ==> ok
    {
      removed := {};
      for i := 0 to |hashes|
        invariant removed == set h | h in hashes[..i]
        invariant blocks == old(blocks) - Names(tenant, removed)
      {
        var broken: bool := *;
        if !reliable && broken {
          return false, removed;
        }
        assert hashes[..i + 1] == hashes[..i] + [hashes[i]];
        blocks := blocks - {(tenant, hashes[i])};
        removed := removed + {hashes[i]};
      }
      assert hashes[..|hashes|] == hashes;
      return true, removed;
    }
  }
}
