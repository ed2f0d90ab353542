/** The importer and the walker together: a site imported, filed and read back by path
    (client/src/publish.rs, client/src/store.rs, client/src/dagnode.rs). */
module CompileRead {
  import opened Base
  import opened Cid
  import opened DagPb
  import opened Store
  import opened Ordering
  import opened Importer
  import opened TreeShape
  import opened Walker
  import opened SiteRead

  /** What a list of files says: the last file of a path counts. */
  function PathMap(files: seq<SiteFile>): map<Text, Vec>
  {
    if |files| == 0 then map[]
    else
      var last := files[|files| - 1];
      PathMap(files[..|files| - 1])[last.path := last.content]
  }

  /** The ordered path map holds exactly what the files say, in path order. */
  lemma {:induction false} SiteHolds(files: seq<SiteFile>)
    ensures Increasing(PathOf, SiteOf(files))
    ensures forall f :: f in SiteOf(files) <==> f.path in PathMap(files) && PathMap(files)[f.path] == f.content
  {
    if |files| > 0 {
      var front, last := files[..|files| - 1], files[|files| - 1];
      SiteHolds(front);
      PlaceIncreasing(PathOf, SiteOf(front), last);
      forall f ensures f in SiteOf(files) <==> f.path in PathMap(files) && PathMap(files)[f.path] == f.content {
        PlaceMembers(PathOf, SiteOf(front), last, f);
      }
    }
  }

  lemma {:induction false} MapFromFiles(files: seq<SiteFile>)
    ensures forall p :: p in PathMap(files) ==> SiteFile(p, PathMap(files)[p]) in files
  {
    if |files| > 0 {
      MapFromFiles(files[..|files| - 1]);
    }
  }

  ghost predicate DistinctPaths(files: seq<SiteFile>) {
    Distinct(PathOf, files)
  }

  /** With distinct paths every file counts. */
  lemma {:induction false} DistinctMap(files: seq<SiteFile>)
    requires DistinctPaths(files)
    ensures forall f :: f in files <==> f.path in PathMap(files) && PathMap(files)[f.path] == f.content
  {
    if |files| > 0 {
      var front, last := files[..|files| - 1], files[|files| - 1];
      DistinctMap(front);
      forall f ensures f in files <==> f.path in PathMap(files) && PathMap(files)[f.path] == f.content {
        assert f in files <==> f in front || f == last;
        if f in front {
          var i :| 0 <= i < |front| && front[i] == f;
          assert PathOf(files[i]) != PathOf(files[|files| - 1]);
        }
      }
    }
  }

  // ----- paths and lists of steps -----

  function Join(steps: seq<Octets>): Octets
    requires |steps| > 0
  {
    if |steps| == 1 then steps[0] else steps[0] + [SLASH] + Join(steps[1..])
  }

  lemma {:induction false} JoinSplit(path: Text)
    ensures Join(Split(path)) == path
    decreases |path|
  {
    var k := SlashAt(path);
    if k < |path| {
      CutText(path, k);
      JoinSplit(path[k + 1..]);
      assert Split(path)[1..] == Split(path[k + 1..]);
      assert path == path[..k] + [SLASH] + path[k + 1..];
    }
  }

  lemma {:induction false} SplitInjective(a: Text, b: Text)
    requires Split(a) == Split(b)
    ensures a == b
  {
    JoinSplit(a);
    JoinSplit(b);
  }

  /** Some path of the site has these steps and this content. */
  ghost predicate SiteMaps(files: seq<SiteFile>, steps: seq<Octets>, content: Octets) {
    exists path :: path in PathMap(files) && Split(path) == steps && PathMap(files)[path] == content
  }

  lemma {:induction false} LeavesMap(files: seq<SiteFile>, steps: seq<Octets>, content: Octets)
    ensures Maps(Leaves(SiteOf(files)), steps, content) <==> SiteMaps(files, steps, content)
  {
    hide Split, SiteOf, PathMap;
    var site := SiteOf(files);
    SiteHolds(files);
    if Maps(Leaves(site), steps, content) {
      var leaf :| leaf in Leaves(site) && Named(leaf, steps, content);
      var i :| 0 <= i < |site| && Leaves(site)[i] == leaf;
      assert [leaf.name] + leaf.below == Split(site[i].path);
      assert site[i] in site;
    }
    if SiteMaps(files, steps, content) {
      var path :| path in PathMap(files) && Split(path) == steps && PathMap(files)[path] == content;
      assert SiteFile(path, content) in site;
      var i :| 0 <= i < |site| && site[i] == SiteFile(path, content);
      var leaf := Leaves(site)[i];
      assert [leaf.name] + leaf.below == Split(path);
      assert leaf in Leaves(site) && Named(leaf, steps, content);
    }
  }

  // ----- the blocks of an import -----

  ghost predicate AllGenuine(sha: Hash, blocks: seq<Block>) {
    forall b :: b in blocks ==> Genuine(sha, b.cid, b.bytes)
  }

  lemma {:induction false} FileGenuine(sha: Hash, content: Vec)
    ensures AllGenuine(sha, FileBlocks(sha, content).blocks)
  {
    hide NodeBytes, Chunks;
  }

  lemma {:induction false} FilesGenuine(sha: Hash, files: seq<SiteFile>)
    ensures AllGenuine(sha, FileBlocksOf(sha, files))
  {
    hide FileBlocks;
    if |files| > 0 {
      FilesGenuine(sha, files[..|files| - 1]);
      FileGenuine(sha, files[|files| - 1].content);
    }
  }

  lemma {:induction false} TreeGenuine(sha: Hash, leaves: seq<Leaf>)
    requires Build(sha, leaves).Ok?
    ensures AllGenuine(sha, Build(sha, leaves).value.blocks)
    decreases Weight(leaves), 1, 0
  {
    hide Build;
    BuiltFrom(sha, leaves);
    SubtreesGenuine(sha, leaves, Subdirectories(leaves));
  }

  lemma {:induction false} SubtreesGenuine(sha: Hash, leaves: seq<Leaf>, names: seq<Text>)
    requires forall n :: n in names ==> Descends(leaves, n)
    requires BuildSubtrees(sha, leaves, names).Ok?
    ensures AllGenuine(sha, BuildSubtrees(sha, leaves, names).value.blocks)
    decreases Weight(leaves), 0, |names|
  {
    if |names| > 0 {
      hide Build, BuildSubtrees;
      var name := names[|names| - 1];
      LastSubtree(sha, leaves, names);
      SubtreesGenuine(sha, leaves, names[..|names| - 1]);
      DescendLighter(leaves, name);
      TreeGenuine(sha, Descend(leaves, name));
    }
  }

  /** Every block the importer emits hashes to its own identifier. */
  lemma {:induction false} ImportGenuine(sha: Hash, files: seq<SiteFile>)
    requires Import(sha, files).Ok?
    ensures AllGenuine(sha, Import(sha, files).value.blocks)
  {
    hide Build, FileBlocksOf;
    FilesGenuine(sha, files);
    TreeGenuine(sha, Leaves(SiteOf(files)));
  }

  lemma {:induction false} FileBlocksAmong(sha: Hash, files: seq<SiteFile>, file: SiteFile)
    requires file in files
    ensures forall b :: b in FileBlocks(sha, file.content).blocks ==> b in FileBlocksOf(sha, files)
  {
    hide FileBlocks;
    if file != files[|files| - 1] {
      FileBlocksAmong(sha, files[..|files| - 1], file);
    }
  }

  /** Once all blocks of an import are held, so is its tree. */
  lemma {:induction false} ImportHeld(sha: Hash, disk: Disk, files: seq<SiteFile>)
    requires Import(sha, files).Ok? && Held(sha, disk, Import(sha, files).value.blocks)
    ensures TreeHeld(sha, disk, Leaves(SiteOf(files)))
    ensures Build(sha, Leaves(SiteOf(files))).value.cid == Import(sha, files).value.root
  {
    hide Build, FileBlocksOf, FileBlocks, Holds;
    var site := SiteOf(files);
    var leaves := Leaves(site);
    SiteHolds(files);
    MapFromFiles(files);
    forall leaf | leaf in leaves ensures Held(sha, disk, FileBlocks(sha, leaf.content).blocks) {
      var i :| 0 <= i < |leaves| && leaves[i] == leaf;
      assert site[i] in site && SiteFile(site[i].path, site[i].content) == site[i];
      FileBlocksAmong(sha, files, site[i]);
    }
  }

  // ----- the round trip -----

  /** The byte strings in play: what the disk held and what the import adds, without collisions. */
  ghost predicate NoneCollide(sha: Hash, disk: Disk, blocks: seq<Block>) {
    NoCollision(sha, (set c | c in disk :: disk[c]) + (set b | b in blocks :: b.bytes))
  }

  lemma {:induction false} FiledHeld(sha: Hash, disk: Disk, blocks: seq<Block>)
    requires Sound(sha, disk) && AllGenuine(sha, blocks) && NoneCollide(sha, disk, blocks)
    requires PutAllOn(sha, disk, blocks).result.Ok?
    ensures Held(sha, PutAllOn(sha, disk, blocks).disk, blocks)
  {
    hide PutAllOn, Holds;
    FiledAreHeld(sha, disk, blocks, (set c | c in disk :: disk[c]) + (set b | b in blocks :: b.bytes));
  }

  /** Import a site and file its blocks in a sound store: reading a list of steps from the root returns
      a content exactly when some path of the site has those steps and that content, the directories
      on the way are not too wide, and the file is not too large for the node and byte budgets. */
  lemma {:induction false} CompileThenRead(sha: Hash, files: seq<SiteFile>, disk: Disk, steps: seq<Octets>,
                                           content: Octets, limits: WalkLimits)
    requires Import(sha, files).Ok? && Sound(sha, disk)
    requires NoneCollide(sha, disk, Import(sha, files).value.blocks)
    requires PutAllOn(sha, disk, Import(sha, files).value.blocks).result.Ok?
    ensures var im := Import(sha, files).value;
            (ReadPath(sha, PutAllOn(sha, disk, im.blocks).disk, im.root, steps, limits) == Ok(content)
             <==> (SiteMaps(files, steps, content)
                   && DirectoriesWithin(Leaves(SiteOf(files)), steps, limits)
                   && FileWithin(|content|, limits, limits.maxDepth)))
  {
    hide Import, PutAllOn, Build, ReadFrom, DirectoriesWithin, SiteMaps, Maps, Split, Held, TreeHeld, AssembleFile,
         NoneCollide;
    var im := Import(sha, files).value;
    var after := PutAllOn(sha, disk, im.blocks).disk;
    var leaves := Leaves(SiteOf(files));
    ImportGenuine(sha, files);
    FiledHeld(sha, disk, im.blocks);
    ImportHeld(sha, after, files);
    if |steps| == 0 {
      NotAFile(sha, after, leaves, limits);
      NoEmptyPath(files, content);
    } else {
      TreeReadsBack(sha, after, leaves, steps, content, limits);
      LeavesMap(files, steps, content);
    }
  }

  lemma {:induction false} NoEmptyPath(files: seq<SiteFile>, content: Octets)
    ensures !SiteMaps(files, [], content)
  {
  }

  /** Filing an import fails only for size: it succeeds exactly when every block that is not yet held
      is small enough. */
  lemma {:induction false} FilingSucceedsIff(sha: Hash, disk: Disk, blocks: seq<Block>)
    requires AllGenuine(sha, blocks)
    requires forall a, b :: a in blocks && b in blocks && a.cid == b.cid ==> a.bytes == b.bytes
    ensures PutAllOn(sha, disk, blocks).result.Ok?
       <==> forall b :: b in blocks ==> b.cid in disk || |b.bytes| <= MAX_BLOCK_BYTES
    decreases |blocks|
  {
    if |blocks| > 0 {
      var first, rest := blocks[0], blocks[1..];
      assert forall b :: b in blocks <==> b == first || b in rest;
      if first.cid in disk {
        FilingSucceedsIff(sha, disk, rest);
      } else if |first.bytes| <= MAX_BLOCK_BYTES {
        FilingSucceedsIff(sha, disk[first.cid := first.bytes], rest);
      }
    }
  }

  /** A path has one content, so what is read back is either that or nothing. */
  lemma {:induction false} OneContent(files: seq<SiteFile>, steps: seq<Octets>, a: Octets, b: Octets)
    requires SiteMaps(files, steps, a) && SiteMaps(files, steps, b)
    ensures a == b
  {
    hide PathMap, Split;
    var p :| p in PathMap(files) && Split(p) == steps && PathMap(files)[p] == a;
    var q :| q in PathMap(files) && Split(q) == steps && PathMap(files)[q] == b;
    SplitInjective(p, q);
  }

  /** Outside the limits a file of the site does not read back at all. */
  lemma {:induction false} BeyondLimits(sha: Hash, files: seq<SiteFile>, disk: Disk, steps: seq<Octets>,
                                        content: Octets, limits: WalkLimits)
    requires Import(sha, files).Ok? && Sound(sha, disk)
    requires NoneCollide(sha, disk, Import(sha, files).value.blocks)
    requires PutAllOn(sha, disk, Import(sha, files).value.blocks).result.Ok?
    requires SiteMaps(files, steps, content)
    requires !DirectoriesWithin(Leaves(SiteOf(files)), steps, limits) || !FileWithin(|content|, limits, limits.maxDepth)
    ensures var im := Import(sha, files).value;
            ReadPath(sha, PutAllOn(sha, disk, im.blocks).disk, im.root, steps, limits).Err?
  {
    hide Import, PutAllOn, ReadPath, DirectoriesWithin, FileWithin, SiteMaps, NoneCollide;
    var im := Import(sha, files).value;
    var r := ReadPath(sha, PutAllOn(sha, disk, im.blocks).disk, im.root, steps, limits);
    if r.Ok? {
      CompileThenRead(sha, files, disk, steps, r.value, limits);
      OneContent(files, steps, content, r.value);
    }
  }

  lemma {:induction false} DefaultPieces(length: nat)
    ensures FileWithin(length, DEFAULT_LIMITS, DEFAULT_LIMITS.maxDepth) <==> length <= 31 * CHUNK_BYTES
  {
    if length > CHUNK_BYTES {
      assert (length + CHUNK_BYTES - 1) / CHUNK_BYTES <= 31 <==> length + CHUNK_BYTES - 1 < 32 * CHUNK_BYTES;
    }
  }

  /** Under the walker's own default limits the node budget, not the byte bound, decides: reading a path of
      the site gives its content exactly when the directories on the way are not too wide and the content is
      no longer than 31 pieces, and gives nothing otherwise. */
  lemma {:induction false} DefaultFileBound(sha: Hash, files: seq<SiteFile>, disk: Disk, steps: seq<Octets>,
                                            content: Octets)
    requires Import(sha, files).Ok? && Sound(sha, disk)
    requires NoneCollide(sha, disk, Import(sha, files).value.blocks)
    requires PutAllOn(sha, disk, Import(sha, files).value.blocks).result.Ok?
    requires SiteMaps(files, steps, content)
    ensures var im := Import(sha, files).value;
            var r := ReadPath(sha, PutAllOn(sha, disk, im.blocks).disk, im.root, steps, DEFAULT_LIMITS);
            if DirectoriesWithin(Leaves(SiteOf(files)), steps, DEFAULT_LIMITS) && |content| <= 31 * CHUNK_BYTES
            then r == Ok(content) else r.Err?
  {
    hide Import, PutAllOn, ReadPath, DirectoriesWithin, FileWithin, SiteMaps, NoneCollide;
    DefaultPieces(|content|);
    CompileThenRead(sha, files, disk, steps, content, DEFAULT_LIMITS);
    if !DirectoriesWithin(Leaves(SiteOf(files)), steps, DEFAULT_LIMITS) || |content| > 31 * CHUNK_BYTES {
      BeyondLimits(sha, files, disk, steps, content, DEFAULT_LIMITS);
    }
  }
}
