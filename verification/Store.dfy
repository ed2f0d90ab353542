/** The local block store (client/src/store.rs). The directory of files named by identifier text is
    a map keyed by identifier: `Cid.ToTextInjective` shows that distinct identifiers have distinct
    file names. */
module Store {
  import opened Arith
  import opened Base
  import opened Cid

  const MAX_BLOCK_BYTES: nat := 1024 * 1024

  datatype StoreError = ContentIntegrity | TooLarge(found: nat)

  /** The directory: one file of octets per identifier. */
  type Disk = map<Cid, Octets>

  /** An encoded block and the identifier that addresses it. */
  datatype Block = Block(cid: Cid, bytes: Octets)

  predicate Genuine(sha: Hash, cid: Cid, bytes: Octets) {
    sha(bytes) == cid.digest
  }

  /** What reading an identifier returns, on any directory whatever. */
  function GetFrom(sha: Hash, disk: Disk, cid: Cid): Result<Option<Octets>, StoreError> {
    if cid !in disk then Ok(None)
    else if |disk[cid]| > MAX_BLOCK_BYTES then Err(TooLarge(|disk[cid]|))
    else if !Genuine(sha, cid, disk[cid]) then Err(ContentIntegrity)
    else Ok(Some(disk[cid]))
  }

  function PutRefusal(sha: Hash, block: Block): Option<StoreError> {
    if |block.bytes| > MAX_BLOCK_BYTES then Some(TooLarge(|block.bytes|))
    else if !Genuine(sha, block.cid, block.bytes) then Some(ContentIntegrity)
    else None
  }

  /** Every file is what its name says and no larger than a block may be. */
  ghost predicate Sound(sha: Hash, disk: Disk) {
    forall c :: c in disk ==> Genuine(sha, c, disk[c]) && |disk[c]| <= MAX_BLOCK_BYTES
  }

  /** `later` holds everything `earlier` held, unchanged. */
  ghost predicate Extends(earlier: Disk, later: Disk) {
    forall c :: c in earlier ==> c in later && later[c] == earlier[c]
  }

  /** What filing a list of blocks leaves behind, and how many were new; a block already held is
      skipped without a look at the bytes offered. */
  datatype Filed = Filed(disk: Disk, result: Result<nat, StoreError>)

  function PutAllOn(sha: Hash, disk: Disk, blocks: seq<Block>): Filed
    decreases |blocks|
  {
    if |blocks| == 0 then Filed(disk, Ok(0))
    else if blocks[0].cid in disk then PutAllOn(sha, disk, blocks[1..])
    else
      match PutRefusal(sha, blocks[0])
      case Some(e) => Filed(disk, Err(e))
      case None =>
        var rest := PutAllOn(sha, disk[blocks[0].cid := blocks[0].bytes], blocks[1..]);
        match rest.result
        case Ok(n) => Filed(rest.disk, Ok(n + 1))
        case Err(_) => rest
  }

  class BlockStore {
    const sha: Hash
    var disk: Disk

    constructor (sha: Hash)
      ensures this.sha == sha && disk == map[]
    {
      this.sha := sha;
      this.disk := map[];
    }

    /** Compare digests octet by octet without an early exit. */
    method Verify(cid: Cid, bytes: Octets) returns (ok: bool)
      ensures ok == Genuine(sha, cid, bytes)
    {
      var digest := sha(bytes);
      var diff: nat := 0;
      for i := 0 to |digest|
        invariant diff == 0 <==> digest[..i] == cid.digest[..i]
      {
        OctetsDiffer(digest[i], cid.digest[i], diff);
        assert digest[..i + 1] == digest[..i] + [digest[i]];
        assert cid.digest[..i + 1] == cid.digest[..i] + [cid.digest[i]];
        diff := BitOr(diff, BitXor(digest[i], cid.digest[i]));
      }
      assert digest[..|digest|] == digest && cid.digest[..|digest|] == cid.digest;
      ok := diff == 0;
    }

    /** File one block; refused blocks and blocks already held change nothing. */
    method Put(cid: Cid, bytes: Octets) returns (r: Outcome<StoreError>)
      modifies this`disk
      ensures match PutRefusal(sha, Block(cid, bytes))
              case Some(e) => r == Fail(e) && disk == old(disk)
              case None => r.Pass? && disk == if cid in old(disk) then old(disk) else old(disk)[cid := bytes]
    {
      if |bytes| > MAX_BLOCK_BYTES {
        return Fail(TooLarge(|bytes|));
      }
      var genuine := Verify(cid, bytes);
      if !genuine {
        return Fail(ContentIntegrity);
      }
      if cid !in disk {
        disk := disk[cid := bytes];
      }
      r := Pass;
    }

    method Get(cid: Cid) returns (r: Result<Option<Octets>, StoreError>)
      ensures r == GetFrom(sha, disk, cid)
    {
      if cid !in disk {
        return Ok(None);
      }
      var bytes := disk[cid];
      if |bytes| > MAX_BLOCK_BYTES {
        return Err(TooLarge(|bytes|));
      }
      var genuine := Verify(cid, bytes);
      if !genuine {
        return Err(ContentIntegrity);
      }
      r := Ok(Some(bytes));
    }

    method Remove(cid: Cid) returns (removed: bool)
      modifies this`disk
      ensures removed == (cid in old(disk)) && disk == old(disk) - {cid}
    {
      removed := cid in disk;
      disk := disk - {cid};
    }

    method PutAll(blocks: seq<Block>) returns (r: Result<nat, StoreError>)
      modifies this`disk
      ensures Filed(disk, r) == PutAllOn(sha, old(disk), blocks)
    {
      var written: nat := 0;
      assert blocks[0..] == blocks;
      for i := 0 to |blocks|
        invariant PutAllOn(sha, old(disk), blocks) == Counted(PutAllOn(sha, disk, blocks[i..]), written)
      {
        assert blocks[i..][1..] == blocks[i + 1..];
        var target := blocks[i].cid;
        if target !in disk {
          var outcome := Put(target, blocks[i].bytes);
          if outcome.Fail? {
            return Err(outcome.error);
          }
          written := written + 1;
        }
      }
      r := Ok(written);
    }
  }

  /** A result after `n` blocks had been written before. */
  function Counted(f: Filed, n: nat): Filed {
    match f.result
    case Ok(m) => Filed(f.disk, Ok(n + m))
    case Err(_) => f
  }

  // ----- what the store keeps -----

  /** On any directory, tampered or not, what is returned is the file of that name, and only if it is what was
      asked for and no larger than 1,048,576 octets; a refusal says which of the two it is not. */
  lemma {:induction false} GetIsGenuine(sha: Hash, disk: Disk, cid: Cid)
    ensures var r := GetFrom(sha, disk, cid);
            if cid !in disk then r == Ok(None)
            else if |disk[cid]| > 1_048_576 then r == Err(TooLarge(|disk[cid]|))
            else if sha(disk[cid]) != cid.digest then r == Err(ContentIntegrity)
            else r == Ok(Some(disk[cid])) && Genuine(sha, cid, disk[cid])
  {
  }

  /** A block is refused for its size or for its digest, and for nothing else. */
  lemma {:induction false} PutRefusesIff(sha: Hash, block: Block)
    ensures PutRefusal(sha, block)
         == if |block.bytes| > 1_048_576 then Some(TooLarge(|block.bytes|))
            else if sha(block.bytes) != block.cid.digest then Some(ContentIntegrity)
            else None
  {
  }

  /** A directory is sound exactly when no read is ever refused. */
  lemma {:induction false} SoundIffNoReadRefused(sha: Hash, disk: Disk)
    ensures Sound(sha, disk) <==> forall c :: GetFrom(sha, disk, c).Ok?
  {
    if forall c :: GetFrom(sha, disk, c).Ok? {
      forall c | c in disk ensures Genuine(sha, c, disk[c]) && |disk[c]| <= MAX_BLOCK_BYTES {
        assert GetFrom(sha, disk, c).Ok?;
      }
    }
  }

  /** Filing keeps soundness, loses nothing, and on success holds every block of the list. */
  lemma {:induction false} PutAllKeeps(sha: Hash, disk: Disk, blocks: seq<Block>)
    requires Sound(sha, disk)
    ensures var filed := PutAllOn(sha, disk, blocks);
            && Sound(sha, filed.disk) && Extends(disk, filed.disk)
            && (filed.result.Ok? ==>
                  && |filed.disk| == |disk| + filed.result.value
                  && forall b :: b in blocks ==> b.cid in filed.disk)
    decreases |blocks|
  {
    if |blocks| > 0 {
      var b := blocks[0];
      assert forall x :: x in blocks <==> x == b || x in blocks[1..];
      if b.cid in disk {
        PutAllKeeps(sha, disk, blocks[1..]);
      } else if PutRefusal(sha, b).None? {
        PutAllKeeps(sha, disk[b.cid := b.bytes], blocks[1..]);
      }
    }
  }

  /** No two byte strings of the collection share a digest. */
  ghost predicate NoCollision(sha: Hash, strings: set<Octets>) {
    forall x, y :: x in strings && y in strings && sha(x) == sha(y) ==> x == y
  }

  ghost predicate Holds(sha: Hash, disk: Disk, b: Block) {
    GetFrom(sha, disk, b.cid) == Ok(Some(b.bytes))
  }

  /** Without collisions, what is held after a successful filing are the blocks themselves. */
  lemma {:induction false} FiledAreHeld(sha: Hash, disk: Disk, blocks: seq<Block>, strings: set<Octets>)
    requires Sound(sha, disk) && PutAllOn(sha, disk, blocks).result.Ok?
    requires forall b :: b in blocks ==> Genuine(sha, b.cid, b.bytes) && b.bytes in strings
    requires Within(disk, strings)
    requires NoCollision(sha, strings)
    ensures forall b :: b in blocks ==> Holds(sha, PutAllOn(sha, disk, blocks).disk, b)
  {
    PutAllKeeps(sha, disk, blocks);
    FiledFrom(sha, disk, blocks, strings);
    var after := PutAllOn(sha, disk, blocks).disk;
    forall b | b in blocks ensures Holds(sha, after, b) {
      assert b.cid in after && Genuine(sha, b.cid, after[b.cid]) && after[b.cid] in strings;
      assert sha(after[b.cid]) == sha(b.bytes);
    }
  }

  ghost predicate Within(disk: Disk, strings: set<Octets>) {
    forall c :: c in disk ==> disk[c] in strings
  }

  lemma {:induction false} FiledFrom(sha: Hash, disk: Disk, blocks: seq<Block>, strings: set<Octets>)
    requires forall b :: b in blocks ==> b.bytes in strings
    requires Within(disk, strings)
    ensures Within(PutAllOn(sha, disk, blocks).disk, strings)
    decreases |blocks|
  {
    if |blocks| > 0 {
      var b := blocks[0];
      assert b in blocks && forall x :: x in blocks[1..] ==> x in blocks;
      if b.cid in disk {
        FiledFrom(sha, disk, blocks[1..], strings);
      } else if PutRefusal(sha, b).None? {
        FiledFrom(sha, disk[b.cid := b.bytes], blocks[1..], strings);
        assert PutAllOn(sha, disk, blocks).disk == PutAllOn(sha, disk[b.cid := b.bytes], blocks[1..]).disk;
      }
    }
  }
}
