/** The publish flow (client/src/publish_flow.rs): check, import, pin, sign, in that order. The authoring
    checks are a parameter that says whether any of their findings is an error. */
module PublishFlow {
  import opened Base
  import opened Utf8
  import opened Cid
  import opened Store
  import opened Ordering
  import opened Importer
  import opened ImportSite
  import opened Walker
  import opened SiteRead
  import opened CompileRead
  import opened Sizes
  import opened Closure
  import opened Record
  import opened Chain
  import BuiltRecords

  datatype FlowError =
    | DuplicatePath(path: Text)
    | Doctor
    | ImportRefused(importError: PublishError)
    | Pin(storeError: StoreError)
    | BuildRefused(buildError: BuildError)

  datatype Published = Published(root: Cid, newlyPinned: nat, record: Octets, sourceBytes: nat, storedBytes: nat,
                                 blockCount: nat)

  /** Who publishes what, when, and under what predecessor. */
  datatype Request = Request(identity: Identity, name: Str, tld: Str, files: seq<SiteFile>, now: u64,
                             predecessor: Option<Predecessor>, windowCount: u64, powLimit: u64)

  /** The first path that an earlier file has already claimed. */
  function FirstDuplicate(files: seq<SiteFile>): Option<Text>
  {
    if |files| == 0 then None
    else
      match FirstDuplicate(files[..|files| - 1])
      case Some(path) => Some(path)
      case None =>
        var last := files[|files| - 1];
        if Claimed(files[..|files| - 1], last.path) then Some(last.path) else None
  }

  predicate Claimed(files: seq<SiteFile>, path: Text) {
    exists i :: 0 <= i < |files| && files[i].path == path
  }

  /** The signed pointer: a registration first, an update under a predecessor. */
  function Pointer(p: Primitives, r: Request, root: Cid): Result<Octets, BuildError> {
    var entries := [RecordEntry(ContentId(ToBytes(root)), None)];
    match r.predecessor
    case None => BuildRegister(p, r.identity, r.name, r.tld, r.now, entries, r.windowCount, None, r.powLimit)
    case Some(prev) => BuildUpdate(p, r.identity, prev, r.name, r.tld, r.now, entries)
  }

  /** What a publish returns and what it leaves on the disk. */
  datatype Flow = Flow(disk: Disk, result: Result<Published, FlowError>)

  function PublishOn(p: Primitives, disk: Disk, stopped: bool, r: Request): Flow {
    match FirstDuplicate(r.files)
    case Some(path) => Flow(disk, Err(DuplicatePath(path)))
    case None =>
      if stopped then Flow(disk, Err(Doctor))
      else
        match Import(p.sha, r.files)
        case Err(e) => Flow(disk, Err(ImportRefused(e)))
        case Ok(Imported(blocks, root)) =>
          var filed := PutAllOn(p.sha, disk, blocks);
          match filed.result
          case Err(e) => Flow(filed.disk, Err(Pin(e)))
          case Ok(written) =>
            match Pointer(p, r, root)
            case Err(e) => Flow(filed.disk, Err(BuildRefused(e)))
            case Ok(record) =>
              Flow(filed.disk, Ok(Published(root, written, record, SourceBytes(r.files), TotalBytes(blocks), |blocks|)))
  }

  method FindDuplicate(files: seq<SiteFile>) returns (r: Option<Text>)
    ensures r == FirstDuplicate(files)
  {
    var seen: set<Text> := {};
    for i := 0 to |files|
      invariant FirstDuplicate(files[..i]) == None
      invariant forall path :: path in seen <==> Claimed(files[..i], path)
    {
      var front := files[..i];
      assert files[..i + 1][..i] == front;
      if files[i].path in seen {
        DuplicateStays(files, i + 1);
        return Some(files[i].path);
      }
      forall path ensures Claimed(files[..i + 1], path) <==> Claimed(front, path) || path == files[i].path {
        if Claimed(front, path) {
          var k :| 0 <= k < |front| && front[k].path == path;
          assert files[..i + 1][k].path == path;
        }
        assert files[..i + 1][i] == files[i];
        if Claimed(files[..i + 1], path) {
          var k :| 0 <= k < i + 1 && files[..i + 1][k].path == path;
          assert k < i ==> front[k].path == path;
        }
      }
      seen := seen + {files[i].path};
    }
    assert files[..|files|] == files;
    r := None;
  }

  lemma {:induction false} DuplicateStays(files: seq<SiteFile>, i: nat)
    requires i <= |files| && FirstDuplicate(files[..i]).Some?
    ensures FirstDuplicate(files) == FirstDuplicate(files[..i])
    decreases |files|
  {
    if i < |files| {
      assert files[..|files| - 1][..i] == files[..i];
      DuplicateStays(files[..|files| - 1], i);
    } else {
      assert files[..i] == files;
    }
  }

  method CountBytes(files: seq<SiteFile>, blocks: seq<Block>) returns (source: nat, stored: nat)
    ensures source == SourceBytes(files) && stored == TotalBytes(blocks)
  {
    source, stored := 0, 0;
    for i := 0 to |files|
      invariant source == SourceBytes(files[..i])
    {
      assert files[..i + 1][..i] == files[..i];
      source := source + |files[i].content|;
    }
    assert files[..|files|] == files;
    for i := 0 to |blocks|
      invariant stored == TotalBytes(blocks[..i])
    {
      assert blocks[..i + 1][..i] == blocks[..i];
      stored := stored + |blocks[i].bytes|;
    }
    assert blocks[..|blocks|] == blocks;
  }

  method PublishSite(store: BlockStore, p: Primitives, check: seq<SiteFile> -> bool, request: Request)
    returns (r: Result<Published, FlowError>)
    requires store.sha == p.sha
    modifies store`disk
    ensures Flow(store.disk, r) == PublishOn(p, old(store.disk), check(request.files), request)
  {
    hide Import, PutAllOn, Pointer, FirstDuplicate;
    var duplicate := FindDuplicate(request.files);
    if duplicate.Some? {
      return Err(DuplicatePath(duplicate.value));
    }
    if check(request.files) {
      return Err(Doctor);
    }
    var imported := Run(p.sha, request.files);
    if imported.Err? {
      return Err(ImportRefused(imported.error));
    }
    var blocks, root := imported.value.blocks, imported.value.root;
    var source, stored := CountBytes(request.files, blocks);
    var written := store.PutAll(blocks);
    if written.Err? {
      return Err(Pin(written.error));
    }
    var record := Pointer(p, request, root);
    if record.Err? {
      return Err(BuildRefused(record.error));
    }
    r := Ok(Published(root, written.value, record.value, source, stored, |blocks|));
  }

  // ----- what a publish guarantees -----

  lemma {:induction false} NoDuplicateIff(files: seq<SiteFile>)
    ensures FirstDuplicate(files).None? <==> DistinctPaths(files)
  {
    if |files| > 0 {
      var front, last := files[..|files| - 1], files[|files| - 1];
      NoDuplicateIff(front);
      if FirstDuplicate(files).None? {
        forall i, j | 0 <= i < j < |files| ensures PathOf(files[i]) != PathOf(files[j]) {
          if j < |front| {
            assert PathOf(front[i]) != PathOf(front[j]);
          } else {
            assert front[i].path != last.path;
          }
        }
      }
      if DistinctPaths(files) {
        forall i, j | 0 <= i < j < |front| ensures PathOf(front[i]) != PathOf(front[j]) {
          assert PathOf(files[i]) != PathOf(files[j]);
        }
        forall i | 0 <= i < |front| ensures front[i].path != last.path {
          assert PathOf(files[i]) != PathOf(files[|files| - 1]);
        }
      }
    }
  }

  /** Everything the root reaches is in the store, whatever the reader's limits. */
  ghost predicate RootHeld(sha: Hash, disk: Disk, root: Cid) {
    && Reaches(sha, disk, DEFAULT_LIMITS, root, root)
    && forall limits, cid :: Reaches(sha, disk, limits, root, cid) ==> GetFrom(sha, disk, cid).Ok? && cid in disk
  }

  /** A record is returned only when the tree it points at is held in full: nothing is signed before. */
  lemma {:induction false} SignedOnlyWhenHeld(p: Primitives, disk: Disk, stopped: bool, r: Request)
    requires PublishOn(p, disk, stopped, r).result.Ok? && Sound(p.sha, disk)
    requires NoneCollide(p.sha, disk, Import(p.sha, r.files).value.blocks)
    ensures var flow := PublishOn(p, disk, stopped, r);
            && !stopped && DistinctPaths(r.files)
            && Sound(p.sha, flow.disk) && Extends(disk, flow.disk)
            && Held(p.sha, flow.disk, Import(p.sha, r.files).value.blocks)
            && RootHeld(p.sha, flow.disk, flow.result.value.root)
  {
    hide Import, PutAllOn, Pointer, FirstDuplicate, NoneCollide, Held, Sound, Extends, Reaches, DistinctPaths;
    var im := Import(p.sha, r.files).value;
    var after := PutAllOn(p.sha, disk, im.blocks).disk;
    NoDuplicateIff(r.files);
    ImportGenuine(p.sha, r.files);
    PutAllKeeps(p.sha, disk, im.blocks);
    FiledHeld(p.sha, disk, im.blocks);
    ReachesItself(p.sha, after, DEFAULT_LIMITS, im.root);
    forall limits, cid | Reaches(p.sha, after, limits, im.root, cid) ensures GetFrom(p.sha, after, cid).Ok?
      && cid in after {
      ReachedIsHeld(p.sha, after, r.files, limits, cid);
    }
  }

  /** And from the published root every file reads back under its own path, exactly within the reader's
      limits; nothing else reads back at all. */
  lemma {:induction false} PublishedReadsBack(p: Primitives, disk: Disk, stopped: bool, r: Request, path: Text,
                                              content: Vec, limits: WalkLimits)
    requires PublishOn(p, disk, stopped, r).result.Ok? && Sound(p.sha, disk)
    requires NoneCollide(p.sha, disk, Import(p.sha, r.files).value.blocks)
    ensures var flow := PublishOn(p, disk, stopped, r);
            (ReadPath(p.sha, flow.disk, flow.result.value.root, Split(path), limits) == Ok(content)
             <==> (SiteFile(path, content) in r.files
                   && DirectoriesWithin(Leaves(SiteOf(r.files)), Split(path), limits)
                   && FileWithin(|content|, limits, limits.maxDepth)))
  {
    hide Import, PutAllOn, Pointer, FirstDuplicate, NoneCollide, ReadPath, DirectoriesWithin, Split, PathMap, Distinct;
    NoDuplicateIff(r.files);
    CompileThenRead(p.sha, r.files, disk, Split(path), content, limits);
    DistinctMap(r.files);
    var f := SiteFile(path, content);
    if SiteMaps(r.files, Split(path), content) {
      var other :| other in PathMap(r.files) && Split(other) == Split(path) && PathMap(r.files)[other] == content;
      SplitInjective(other, path);
      assert f.path in PathMap(r.files) && PathMap(r.files)[f.path] == f.content;
    }
    if f in r.files {
      assert f.path in PathMap(r.files) && PathMap(r.files)[f.path] == f.content;
    }
  }

  /** The reported sizes: what is stored is the root's cumulative size, and more than the source. */
  lemma {:induction false} ReportedSizes(p: Primitives, disk: Disk, stopped: bool, r: Request)
    requires PublishOn(p, disk, stopped, r).result.Ok?
    ensures var published := PublishOn(p, disk, stopped, r).result.value;
            && Build(p.sha, Leaves(SiteOf(r.files))).Ok?
            && published.storedBytes == Build(p.sha, Leaves(SiteOf(r.files))).value.tsize
            && published.storedBytes > published.sourceBytes
  {
    hide PutAllOn, Pointer, FirstDuplicate, Build, TotalBytes, SourceBytes, FileBlocksOf, DistinctPaths;
    NoDuplicateIff(r.files);
    ImportSize(p.sha, r.files);
    StoredExceedsSource(p.sha, r.files);
  }

  /** A stopped publish never signs, and before pinning it does not touch the store. */
  lemma {:induction false} StopsBefore(p: Primitives, disk: Disk, stopped: bool, r: Request)
    requires PublishOn(p, disk, stopped, r).result.Err?
    ensures var flow := PublishOn(p, disk, stopped, r);
            flow.disk != disk ==> flow.result.error.Pin? || flow.result.error.BuildRefused?
    ensures stopped && DistinctPaths(r.files) ==> PublishOn(p, disk, stopped, r) == Flow(disk, Err(Doctor))
    ensures !DistinctPaths(r.files) ==> PublishOn(p, disk, stopped, r).result.error.DuplicatePath?
  {
    hide Import, PutAllOn, Pointer, FirstDuplicate, DistinctPaths;
    NoDuplicateIff(r.files);
  }

  // ----- what the record points at -----

  /** The entries of a published record: the root, under type `cid`, for an hour. */
  function RootItems(root: Cid): Cbor.Value {
    Cbor.Array([Cbor.Map([BuiltRecords.Field("ttl", Cbor.UInt(3_600)),
                          BuiltRecords.Field("type", Cbor.Text(Lit("cid"))),
                          BuiltRecords.Field("value", Cbor.Bytes(ToBytes(root)))])])
  }

  /** A registration at position 0, for 31,536,000 seconds. */
  ghost predicate Registers(r: Request, root: Cid, record: Octets, nonce: Pow.Nonce, sig: Signature) {
    var bits := Pow.RequiredBits(CharCount(r.name), r.windowCount);
    && r.now + 31_536_000 < U64_LIMIT && bits < U32_LIMIT
    && CborMembers.HoldsExactly(
         record, BuiltRecords.RecordFields("REGISTER", r.name, r.tld, r.identity.publicKey, 0, r.now,
                                           r.now + 31_536_000, RootItems(root), BuiltRecords.ProofItem(bits, nonce),
                                           seq(32, _ => 0), sig, None))
  }

  /** An update at the next position, that keeps the expiry. */
  ghost predicate Updates(r: Request, prev: Predecessor, root: Cid, record: Octets, sig: Signature) {
    && prev.seqNo + 1 < U64_LIMIT
    && CborMembers.HoldsExactly(
         record, BuiltRecords.RecordFields("UPDATE", r.name, r.tld, r.identity.publicKey, prev.seqNo + 1, r.now,
                                           prev.notAfter, RootItems(root), Cbor.Null, prev.hash, sig, None))
  }

  /** The whole record: a registration when there was no predecessor, an update of the predecessor otherwise; of
      the name, under the key and at the time of the request, signed with that key over its own octets. */
  lemma {:induction false} RecordSays(p: Primitives, disk: Disk, stopped: bool, r: Request)
    returns (nonce: Pow.Nonce, sig: Signature)
    requires PublishOn(p, disk, stopped, r).result.Ok?
    ensures var published := PublishOn(p, disk, stopped, r).result.value;
            && BuiltRecords.SignedAs(published.record, r.identity, None, sig, None)
            && match r.predecessor
               case None => Registers(r, published.root, published.record, nonce, sig)
               case Some(prev) => Updates(r, prev, published.root, published.record, sig)
  {
    PublishedPointer(p, disk, stopped, r);
    hide PublishOn, Pointer, BuiltRecords.SignedAs, BuiltRecords.RecordFields, CborMembers.HoldsExactly, RootItems,
         Registers, Updates;
    var published := PublishOn(p, disk, stopped, r).result.value;
    nonce := Pow.NonceAt(0);
    match r.predecessor
    case None => nonce, sig := Registered(p, r, published.root, published.record);
    case Some(prev) => sig := Updated(p, r, prev, published.root, published.record);
  }

  lemma {:induction false} PublishedPointer(p: Primitives, disk: Disk, stopped: bool, r: Request)
    requires PublishOn(p, disk, stopped, r).result.Ok?
    ensures var published := PublishOn(p, disk, stopped, r).result.value;
            Pointer(p, r, published.root) == Ok(published.record)
  {
    hide PutAllOn, FirstDuplicate, Import, Pointer;
  }

  lemma {:induction false} Registered(p: Primitives, r: Request, root: Cid, record: Octets)
    returns (nonce: Pow.Nonce, sig: Signature)
    requires r.predecessor.None? && Pointer(p, r, root) == Ok(record)
    ensures BuiltRecords.SignedAs(record, r.identity, None, sig, None) && Registers(r, root, record, nonce, sig)
  {
    hide BuiltRecords.RecordFields, BuiltRecords.SignedAs, CborMembers.HoldsExactly, CharCount, Pow.RequiredBits,
         ToBytes, BuiltRecords.EntryItem, BuildRegister, RootItems;
    RootItemsAre(root);
    var entries := [RecordEntry(ContentId(ToBytes(root)), None)];
    var step := ToRegister(r.identity, r.name, r.tld, r.now, entries, r.windowCount, None, r.powLimit);
    nonce, sig := BuiltRecords.RegisterHolds(p, step, record);
  }

  lemma {:induction false} Updated(p: Primitives, r: Request, prev: Predecessor, root: Cid, record: Octets)
    returns (sig: Signature)
    requires r.predecessor == Some(prev) && Pointer(p, r, root) == Ok(record)
    ensures BuiltRecords.SignedAs(record, r.identity, None, sig, None) && Updates(r, prev, root, record, sig)
  {
    hide BuiltRecords.RecordFields, BuiltRecords.SignedAs, CborMembers.HoldsExactly, ToBytes, BuiltRecords.EntryItem,
         BuildUpdate, RootItems;
    RootItemsAre(root);
    var entries := [RecordEntry(ContentId(ToBytes(root)), None)];
    var step := ToUpdate(r.identity, r.name, r.tld, r.now, entries);
    sig := BuiltRecords.UpdateHolds(p, prev, step, record);
  }

  lemma {:induction false} RootItemsAre(root: Cid)
    ensures Cbor.Array(BuiltRecords.EntryItems([RecordEntry(ContentId(ToBytes(root)), None)])) == RootItems(root)
  {
    hide ToBytes;
    var list := [RecordEntry(ContentId(ToBytes(root)), None)];
    assert BuiltRecords.EntryItems(list) == [BuiltRecords.EntryItem(list[0])];
  }

  lemma {:induction false} RegisteredItems(r: Request, root: Cid, record: Octets, nonce: Pow.Nonce, sig: Signature)
    requires Registers(r, root, record, nonce, sig)
    ensures FieldIn(record, RECORDS) == Some(RootItems(root))
  {
    hide RootItems, BuiltRecords.RecordFields, CborMembers.HoldsExactly, FieldIn, CharCount, Pow.RequiredBits,
         BuiltRecords.ProofItem;
    BuiltRecords.RecordsHeld(record, "REGISTER", r.name, r.tld, r.identity.publicKey, 0, r.now, r.now + 31_536_000,
                             RootItems(root),
                             BuiltRecords.ProofItem(Pow.RequiredBits(CharCount(r.name), r.windowCount), nonce),
                             seq(32, _ => 0), sig, None);
  }

  lemma {:induction false} UpdatedItems(r: Request, prev: Predecessor, root: Cid, record: Octets, sig: Signature)
    requires Updates(r, prev, root, record, sig)
    ensures FieldIn(record, RECORDS) == Some(RootItems(root))
  {
    hide RootItems, BuiltRecords.RecordFields, CborMembers.HoldsExactly, FieldIn;
    BuiltRecords.RecordsHeld(record, "UPDATE", r.name, r.tld, r.identity.publicKey, prev.seqNo + 1, r.now,
                             prev.notAfter, RootItems(root), Cbor.Null, prev.hash, sig, None);
  }

  /** The returned record's only entry is the published root, and decoding the record finds it. */
  lemma {:induction false} RecordPointsAtRoot(p: Primitives, disk: Disk, stopped: bool, r: Request)
    requires PublishOn(p, disk, stopped, r).result.Ok?
    ensures var published := PublishOn(p, disk, stopped, r).result.value;
            FieldIn(published.record, RECORDS) == Some(RootItems(published.root))
  {
    var nonce, sig := RecordSays(p, disk, stopped, r);
    hide PublishOn, RootItems, BuiltRecords.SignedAs, FieldIn, Registers, Updates;
    var published := PublishOn(p, disk, stopped, r).result.value;
    match r.predecessor
    case None => RegisteredItems(r, published.root, published.record, nonce, sig);
    case Some(prev) => UpdatedItems(r, prev, published.root, published.record, sig);
  }
}
