/** Everything a root reaches is among the blocks its import emitted. */
module Closure {
  import opened Cid
  import opened DagPb
  import opened Store
  import opened Ordering
  import opened Importer
  import opened TreeShape
  import opened Walker
  import opened SiteRead
  import opened CompileRead
  import opened Importable

  ghost predicate Addresses(blocks: seq<Block>, cid: Cid) {
    exists b :: b in blocks && b.cid == cid
  }

  /** Whatever the block links to, under any limits, is the identifier of a block of the collection. */
  ghost predicate ClosedAt(sha: Hash, disk: Disk, blocks: seq<Block>, cid: Cid) {
    forall limits, target :: LinksTo(sha, disk, limits, cid, target) ==> Addresses(blocks, target)
  }

  ghost predicate Among(part: seq<Block>, blocks: seq<Block>) {
    forall b :: b in part ==> b in blocks
  }

  lemma {:induction false} FileAddressed(sha: Hash, content: Vec)
    ensures Addresses(FileBlocks(sha, content).blocks, FileBlocks(sha, content).cid)
  {
    hide NodeBytes, UnixfsFile;
    var built := FileBlocks(sha, content);
    assert built.blocks[|built.blocks| - 1] in built.blocks;
    assert built.blocks[|built.blocks| - 1].cid == built.cid;
  }

  lemma {:induction false} FileClosed(sha: Hash, disk: Disk, content: Vec, blocks: seq<Block>)
    requires Held(sha, disk, FileBlocks(sha, content).blocks) && Among(FileBlocks(sha, content).blocks, blocks)
    ensures forall b :: b in FileBlocks(sha, content).blocks ==> ClosedAt(sha, disk, blocks, b.cid)
  {
    hide NodeBytes, UnixfsFile, Holds, ReadNode, Chunks;
    var built := FileBlocks(sha, content);
    var pieces := Chunks(content);
    forall b, limits, target | b in built.blocks && LinksTo(sha, disk, limits, b.cid, target)
      ensures Addresses(blocks, target) {
      if |content| > CHUNK_BYTES && b == FileNode(sha, pieces) {
        HeldFileNode(sha, disk, content, limits);
        var i :| 0 <= i < |pieces| && PieceCids(sha, pieces)[i] == target;
        assert RawBlocks(sha, pieces)[i] in built.blocks;
        assert RawBlocks(sha, pieces)[i] in blocks;
      } else {
        HeldPiece(sha, disk, b.bytes, limits, 0);
      }
    }
  }

  lemma {:induction false} SubtreeBlockOrigin(sha: Hash, leaves: seq<Leaf>, names: seq<Text>, b: Block)
    returns (name: Text)
    requires forall n :: n in names ==> Descends(leaves, n)
    requires BuildSubtrees(sha, leaves, names).Ok? && b in BuildSubtrees(sha, leaves, names).value.blocks
    ensures Descends(leaves, name) && Build(sha, Descend(leaves, name)).Ok?
    ensures b in Build(sha, Descend(leaves, name)).value.blocks
    decreases |names|
  {
    if |names| > 0 {
      hide Build, BuildSubtrees;
      name := names[|names| - 1];
      LastSubtree(sha, leaves, names);
      if b !in Build(sha, Descend(leaves, name)).value.blocks {
        name := SubtreeBlockOrigin(sha, leaves, names[..|names| - 1], b);
      }
    } else {
      assert false;
    }
  }

  /** All blocks of a tree belong to the collection. */
  ghost predicate TreeAmong(sha: Hash, leaves: seq<Leaf>, blocks: seq<Block>) {
    && Build(sha, leaves).Ok?
    && Among(Build(sha, leaves).value.blocks, blocks)
    && forall leaf :: leaf in leaves ==> Among(FileBlocks(sha, leaf.content).blocks, blocks)
  }

  lemma {:induction false} TreeAmongBelow(sha: Hash, leaves: seq<Leaf>, name: Text, blocks: seq<Block>)
    requires TreeAmong(sha, leaves, blocks) && Descends(leaves, name)
    ensures TreeAmong(sha, Descend(leaves, name), blocks)
  {
    hide Build, FileBlocks;
    SubtreeEntry(sha, leaves, name);
    forall leaf | leaf in Descend(leaves, name) ensures Among(FileBlocks(sha, leaf.content).blocks, blocks) {
      DescendHas(leaves, name, leaf);
    }
  }

  lemma {:induction false} TreeAddressed(sha: Hash, leaves: seq<Leaf>)
    requires Build(sha, leaves).Ok?
    ensures Addresses(Build(sha, leaves).value.blocks, Build(sha, leaves).value.cid)
  {
    hide Build, EntryNode;
    BuiltFrom(sha, leaves);
    var node := EntryNode(sha, Entries(sha, leaves));
    assert node in Build(sha, leaves).value.blocks && node.cid == Build(sha, leaves).value.cid;
  }

  lemma {:induction false} AddressedAmong(part: seq<Block>, blocks: seq<Block>, cid: Cid)
    requires Addresses(part, cid) && Among(part, blocks)
    ensures Addresses(blocks, cid)
  {
  }

  /** A directory's own node links to files and subtrees of the collection only. */
  lemma {:induction false} NodeClosed(sha: Hash, disk: Disk, leaves: seq<Leaf>, blocks: seq<Block>)
    requires TreeHeld(sha, disk, leaves) && TreeAmong(sha, leaves, blocks)
    ensures ClosedAt(sha, disk, blocks, Build(sha, leaves).value.cid)
  {
    hide Build, FileBlocks, Sort, Entries, DirEntries, TreeAmong, Among, Addresses, ReadNode;
    var entries := Entries(sha, leaves);
    forall limits, target | LinksTo(sha, disk, limits, Build(sha, leaves).value.cid, target)
      ensures Addresses(blocks, target) {
      HeldTree(sha, disk, leaves, limits);
      var sorted := Sort(NameOf, entries);
      var i :| 0 <= i < |sorted| && DirEntries(sorted)[i].cid == target;
      SortMembers(NameOf, entries, sorted[i]);
      LinkAddressed(sha, leaves, sorted[i], blocks);
    }
  }

  lemma {:induction false} LinkAddressed(sha: Hash, leaves: seq<Leaf>, link: Link, blocks: seq<Block>)
    requires TreeAmong(sha, leaves, blocks) && link in Entries(sha, leaves)
    ensures Addresses(blocks, link.cid)
  {
    hide Build, FileBlocks, Entries, Addresses;
    EntryOrigin(sha, leaves, link);
    if IsSubtree(sha, leaves, link) {
      TreeAmongBelow(sha, leaves, link.name, blocks);
      TreeAddressed(sha, Descend(leaves, link.name));
      AddressedAmong(Build(sha, Descend(leaves, link.name)).value.blocks, blocks, link.cid);
    } else {
      var leaf :| leaf in leaves && Here(leaf) && link == LeafLink(sha, leaf);
      FileAddressed(sha, leaf.content);
      AddressedAmong(FileBlocks(sha, leaf.content).blocks, blocks, link.cid);
    }
  }

  lemma {:induction false} TreeClosed(sha: Hash, disk: Disk, leaves: seq<Leaf>, blocks: seq<Block>, b: Block)
    requires TreeHeld(sha, disk, leaves) && TreeAmong(sha, leaves, blocks)
    requires b in Build(sha, leaves).value.blocks
    ensures ClosedAt(sha, disk, blocks, b.cid)
    decreases Weight(leaves)
  {
    hide Build, TreeHeld, TreeAmong, ClosedAt, EntryNode;
    TreeParts(sha, disk, leaves, blocks);
    BuiltFrom(sha, leaves);
    if b == EntryNode(sha, Entries(sha, leaves)) {
      NodeClosed(sha, disk, leaves, blocks);
    } else {
      var name := SubtreeBlockOrigin(sha, leaves, Subdirectories(leaves), b);
      TreeHeldBelow(sha, disk, leaves, name);
      TreeAmongBelow(sha, leaves, name, blocks);
      DescendLighter(leaves, name);
      TreeClosed(sha, disk, Descend(leaves, name), blocks, b);
    }
  }

  lemma {:induction false} TreeParts(sha: Hash, disk: Disk, leaves: seq<Leaf>, blocks: seq<Block>)
    requires TreeHeld(sha, disk, leaves) && TreeAmong(sha, leaves, blocks)
    ensures Build(sha, leaves).Ok?
  {
  }

  lemma {:induction false} FileBlockOrigin(sha: Hash, files: seq<SiteFile>, b: Block) returns (file: SiteFile)
    requires b in FileBlocksOf(sha, files)
    ensures file in files && b in FileBlocks(sha, file.content).blocks
  {
    hide FileBlocks;
    file := files[|files| - 1];
    if b !in FileBlocks(sha, file.content).blocks {
      file := FileBlockOrigin(sha, files[..|files| - 1], b);
    }
  }

  lemma {:induction false} ImportAmong(sha: Hash, files: seq<SiteFile>)
    requires Import(sha, files).Ok?
    ensures TreeAmong(sha, Leaves(SiteOf(files)), Import(sha, files).value.blocks)
  {
    hide Build, FileBlocksOf, FileBlocks;
    var site := SiteOf(files);
    var leaves := Leaves(site);
    SiteHolds(files);
    MapFromFiles(files);
    forall leaf | leaf in leaves ensures Among(FileBlocks(sha, leaf.content).blocks, Import(sha, files).value.blocks) {
      var i :| 0 <= i < |leaves| && leaves[i] == leaf;
      assert site[i] in site && SiteFile(site[i].path, site[i].content) == site[i];
      FileBlocksAmong(sha, files, site[i]);
    }
  }

  /** Links never lead out of an import whose blocks are held. */
  lemma {:induction false} ImportClosed(sha: Hash, disk: Disk, files: seq<SiteFile>, b: Block)
    requires Import(sha, files).Ok? && Held(sha, disk, Import(sha, files).value.blocks)
    requires b in Import(sha, files).value.blocks
    ensures ClosedAt(sha, disk, Import(sha, files).value.blocks, b.cid)
  {
    hide Build, FileBlocksOf, FileBlocks, ClosedAt, TreeHeld, TreeAmong, Holds;
    var blocks := Import(sha, files).value.blocks;
    ImportHeld(sha, disk, files);
    ImportAmong(sha, files);
    if b in FileBlocksOf(sha, files) {
      var file := FileBlockOrigin(sha, files, b);
      FileBlocksAmong(sha, files, file);
      FileClosed(sha, disk, file.content, blocks);
    } else {
      TreeClosed(sha, disk, Leaves(SiteOf(files)), blocks, b);
    }
  }

  lemma {:induction false} TrailStays(sha: Hash, disk: Disk, files: seq<SiteFile>, limits: WalkLimits, trail: seq<Cid>)
    requires Import(sha, files).Ok? && Held(sha, disk, Import(sha, files).value.blocks)
    requires |trail| > 0 && Trail(sha, disk, limits, trail) && Addresses(Import(sha, files).value.blocks, trail[0])
    ensures Addresses(Import(sha, files).value.blocks, trail[|trail| - 1])
    decreases |trail|
  {
    hide Import, LinksTo, Held;
    if |trail| > 1 {
      var b :| b in Import(sha, files).value.blocks && b.cid == trail[0];
      ImportClosed(sha, disk, files, b);
      assert LinksTo(sha, disk, limits, trail[0], trail[0 + 1]);
      var rest := trail[1..];
      forall i | 0 <= i < |rest| - 1 ensures LinksTo(sha, disk, limits, rest[i], rest[i + 1]) {
        assert LinksTo(sha, disk, limits, trail[i + 1], trail[i + 1 + 1]);
      }
      TrailStays(sha, disk, files, limits, rest);
    }
  }

  /** Once the blocks of an import are held, everything its root reaches is held, under any limits. */
  lemma {:induction false} ReachedIsHeld(sha: Hash, disk: Disk, files: seq<SiteFile>, limits: WalkLimits, cid: Cid)
    requires Import(sha, files).Ok? && Held(sha, disk, Import(sha, files).value.blocks)
    requires Reaches(sha, disk, limits, Import(sha, files).value.root, cid)
    ensures exists b :: b in Import(sha, files).value.blocks && b.cid == cid && Holds(sha, disk, b)
  {
    hide Build, FileBlocksOf, Trail, Holds;
    var root := Import(sha, files).value.root;
    var trail :| |trail| > 0 && trail[0] == root && trail[|trail| - 1] == cid && Trail(sha, disk, limits, trail);
    TreeAddressed(sha, Leaves(SiteOf(files)));
    AddressedAmong(Build(sha, Leaves(SiteOf(files))).value.blocks, Import(sha, files).value.blocks, root);
    TrailStays(sha, disk, files, limits, trail);
  }

  // ----- and the other way round -----

  /** Whatever the root reaches can be read. */
  ghost predicate AllRead(sha: Hash, disk: Disk, limits: WalkLimits, root: Cid) {
    forall c :: Reaches(sha, disk, limits, root, c) ==> ReadNode(sha, disk, c, limits).Ok?
  }

  lemma {:induction false} FileReached(sha: Hash, disk: Disk, limits: WalkLimits, root: Cid, content: Vec)
    requires Held(sha, disk, FileBlocks(sha, content).blocks)
    requires Reaches(sha, disk, limits, root, FileBlocks(sha, content).cid)
    ensures forall b :: b in FileBlocks(sha, content).blocks ==> Reaches(sha, disk, limits, root, b.cid)
  {
    hide NodeBytes, UnixfsFile, Holds, ReadNode, Chunks, Reaches;
    var built, pieces := FileBlocks(sha, content), Chunks(content);
    forall b | b in built.blocks ensures Reaches(sha, disk, limits, root, b.cid) {
      if |content| > CHUNK_BYTES && b in RawBlocks(sha, pieces) {
        HeldFileNode(sha, disk, content, limits);
        var i :| 0 <= i < |pieces| && RawBlocks(sha, pieces)[i] == b;
        assert PieceCids(sha, pieces)[i] == b.cid;
        assert LinksTo(sha, disk, limits, built.cid, b.cid);
        ReachesOn(sha, disk, limits, root, built.cid, b.cid);
      }
    }
  }

  /** A held directory that reads links to every one of its entries. */
  lemma {:induction false} EntryReached(sha: Hash, disk: Disk, limits: WalkLimits, root: Cid, leaves: seq<Leaf>,
                                        link: Link)
    requires TreeHeld(sha, disk, leaves) && AllRead(sha, disk, limits, root)
    requires Reaches(sha, disk, limits, root, Build(sha, leaves).value.cid) && link in Entries(sha, leaves)
    ensures Reaches(sha, disk, limits, root, link.cid)
  {
    hide Build, Sort, Entries, DirEntries, ReadNode, Reaches, Holds, FileBlocks;
    HeldTree(sha, disk, leaves, limits);
    var entries := Entries(sha, leaves);
    var sorted := Sort(NameOf, entries);
    SortMembers(NameOf, entries, link);
    var i :| 0 <= i < |sorted| && sorted[i] == link;
    SortedTarget(sorted, i);
    LinksToIff(sha, disk, limits, Build(sha, leaves).value.cid, link.cid);
    ReachesOn(sha, disk, limits, root, Build(sha, leaves).value.cid, link.cid);
  }

  lemma {:induction false} SortedTarget(sorted: seq<Link>, i: nat)
    requires i < |sorted|
    ensures |DirEntries(sorted)| == |sorted| && DirEntries(sorted)[i].cid == sorted[i].cid
  {
  }

  /** Every block of a tree whose root is reached is reached, and so is every block of its files. */
  lemma {:induction false} TreeReached(sha: Hash, disk: Disk, limits: WalkLimits, root: Cid, leaves: seq<Leaf>)
    requires TreeHeld(sha, disk, leaves) && AllRead(sha, disk, limits, root)
    requires Reaches(sha, disk, limits, root, Build(sha, leaves).value.cid)
    ensures forall b :: b in Build(sha, leaves).value.blocks ==> Reaches(sha, disk, limits, root, b.cid)
    ensures forall leaf, b :: leaf in leaves && b in FileBlocks(sha, leaf.content).blocks ==>
              Reaches(sha, disk, limits, root, b.cid)
    decreases Weight(leaves)
  {
    hide Build, EntryNode, Reaches, FileBlocks, Entries, Holds, AllRead;
    forall b | b in Build(sha, leaves).value.blocks ensures Reaches(sha, disk, limits, root, b.cid) {
      BuiltFrom(sha, leaves);
      if b != EntryNode(sha, Entries(sha, leaves)) {
        var name := SubtreeBlockOrigin(sha, leaves, Subdirectories(leaves), b);
        SubtreeReached(sha, disk, limits, root, leaves, name);
        DescendLighter(leaves, name);
        TreeReached(sha, disk, limits, root, Descend(leaves, name));
      }
    }
    forall leaf, b | leaf in leaves && b in FileBlocks(sha, leaf.content).blocks
      ensures Reaches(sha, disk, limits, root, b.cid)
    {
      if Here(leaf) {
        LeafEntry(sha, leaves, leaf);
        EntryReached(sha, disk, limits, root, leaves, LeafLink(sha, leaf));
        FileReached(sha, disk, limits, root, leaf.content);
      } else {
        var below := LeafBelow(leaves, leaf);
        SubtreeReached(sha, disk, limits, root, leaves, leaf.name);
        DescendLighter(leaves, leaf.name);
        TreeReached(sha, disk, limits, root, Descend(leaves, leaf.name));
      }
    }
  }

  lemma {:induction false} LeafEntry(sha: Hash, leaves: seq<Leaf>, leaf: Leaf)
    requires Build(sha, leaves).Ok? && leaf in leaves && Here(leaf)
    ensures LeafLink(sha, leaf) in Entries(sha, leaves)
  {
    hide Build, BuildSubtrees, LeafLink;
    FilesAre(sha, leaves, LeafLink(sha, leaf));
  }

  lemma {:induction false} LeafBelow(leaves: seq<Leaf>, leaf: Leaf) returns (below: Leaf)
    requires leaf in leaves && !Here(leaf)
    ensures Descends(leaves, leaf.name) && below in Descend(leaves, leaf.name) && below.content == leaf.content
    ensures leaf.below == [below.name] + below.below
  {
    var i :| 0 <= i < |leaves| && leaves[i] == leaf;
    below := Leaf(leaf.below[0], leaf.below[1..], leaf.content);
    assert [below.name] + below.below == leaf.below;
    DescendHas(leaves, leaf.name, below);
  }

  lemma {:induction false} SubtreeReached(sha: Hash, disk: Disk, limits: WalkLimits, root: Cid, leaves: seq<Leaf>,
                                          name: Text)
    requires TreeHeld(sha, disk, leaves) && AllRead(sha, disk, limits, root) && Descends(leaves, name)
    requires Reaches(sha, disk, limits, root, Build(sha, leaves).value.cid)
    ensures TreeHeld(sha, disk, Descend(leaves, name))
    ensures Reaches(sha, disk, limits, root, Build(sha, Descend(leaves, name)).value.cid)
  {
    hide Build, Entries, Reaches, FileBlocks, Holds, AllRead;
    TreeHeldBelow(sha, disk, leaves, name);
    SubtreeEntry(sha, leaves, name);
    var sub := Build(sha, Descend(leaves, name)).value;
    EntryReached(sha, disk, limits, root, leaves, Link(sub.cid, name, sub.tsize));
  }

  /** When the paths of an import differ and all that its root reaches can be read, the root reaches every block
      that was emitted. */
  lemma {:induction false} EmittedIsReached(sha: Hash, disk: Disk, files: seq<SiteFile>, limits: WalkLimits, b: Block)
    requires Import(sha, files).Ok? && Held(sha, disk, Import(sha, files).value.blocks) && DistinctPaths(files)
    requires AllRead(sha, disk, limits, Import(sha, files).value.root) && b in Import(sha, files).value.blocks
    ensures Reaches(sha, disk, limits, Import(sha, files).value.root, b.cid)
  {
    hide Build, FileBlocksOf, FileBlocks, Reaches, Holds, AllRead, DistinctPaths, SiteOf, LeafOf, PathMap;
    var root, leaves := Import(sha, files).value.root, Leaves(SiteOf(files));
    ImportHeld(sha, disk, files);
    ReachesItself(sha, disk, limits, root);
    TreeReached(sha, disk, limits, root, leaves);
    if b in FileBlocksOf(sha, files) {
      var file := FileBlockOrigin(sha, files, b);
      FileIsLeaf(files, file);
      assert LeafOf(file.path, file.content).content == file.content;
    }
  }

  lemma {:induction false} FileIsLeaf(files: seq<SiteFile>, file: SiteFile)
    requires DistinctPaths(files) && file in files
    ensures LeafOf(file.path, file.content) in Leaves(SiteOf(files))
    ensures LeafOf(file.path, file.content).content == file.content
  {
    hide SiteOf, PathMap;
    DistinctMap(files);
    PathLeaf(files, file.path);
  }

  /** A collection from the root of an import is exactly the identifiers of the blocks it emitted. */
  lemma {:induction false} CollectionIsImport(sha: Hash, disk: Disk, files: seq<SiteFile>, limits: WalkLimits,
                                              collected: seq<Cid>)
    requires Import(sha, files).Ok? && Held(sha, disk, Import(sha, files).value.blocks) && DistinctPaths(files)
    requires Collection(sha, disk, limits, Import(sha, files).value.root, collected)
    ensures forall c :: c in collected <==> Addresses(Import(sha, files).value.blocks, c)
  {
    hide Import, Reaches, Holds, ReadNode;
    var root, blocks := Import(sha, files).value.root, Import(sha, files).value.blocks;
    CollectionIffReadable(sha, disk, limits, root, collected);
    forall c ensures c in collected <==> Addresses(blocks, c) {
      if c in collected {
        ReachedIsHeld(sha, disk, files, limits, c);
      }
      if Addresses(blocks, c) {
        var b :| b in blocks && b.cid == c;
        EmittedIsReached(sha, disk, files, limits, b);
      }
    }
  }

  // ----- when the walk can be finished -----

  /** No directory of the tree has more different names than a node may have links. */
  ghost predicate AllWithin(leaves: seq<Leaf>, limits: WalkLimits) {
    forall leaf :: leaf in leaves ==> DirectoriesWithin(leaves, [leaf.name] + leaf.below, limits)
  }

  lemma {:induction false} NodeWithin(leaves: seq<Leaf>, limits: WalkLimits)
    requires AllWithin(leaves, limits)
    ensures |NamesHere(leaves)| <= limits.maxLinksPerNode
  {
    if |leaves| > 0 {
      assert leaves[0] in leaves;
    } else {
      assert NamesHere(leaves) == {};
    }
  }

  lemma {:induction false} WithinBelow(leaves: seq<Leaf>, name: Text, limits: WalkLimits)
    requires AllWithin(leaves, limits)
    ensures AllWithin(Descend(leaves, name), limits)
  {
    hide NamesHere, Descend;
    forall leaf | leaf in Descend(leaves, name)
      ensures DirectoriesWithin(Descend(leaves, name), [leaf.name] + leaf.below, limits)
    {
      DescendHas(leaves, name, leaf);
      var longer := Leaf(name, [leaf.name] + leaf.below, leaf.content);
      assert longer in leaves;
      var steps := [longer.name] + longer.below;
      assert steps[0] == name && steps[1..] == [leaf.name] + leaf.below;
      assert DirectoriesWithin(leaves, steps, limits);
    }
  }

  lemma {:induction false} FileReads(sha: Hash, disk: Disk, content: Vec, limits: WalkLimits)
    requires Held(sha, disk, FileBlocks(sha, content).blocks)
    ensures forall b :: b in FileBlocks(sha, content).blocks ==> ReadNode(sha, disk, b.cid, limits).Ok?
  {
    hide NodeBytes, UnixfsFile, Holds, ReadNode, Chunks;
    var pieces := Chunks(content);
    forall b | b in FileBlocks(sha, content).blocks ensures ReadNode(sha, disk, b.cid, limits).Ok? {
      if |content| > CHUNK_BYTES && b == FileNode(sha, pieces) {
        HeldFileNode(sha, disk, content, limits);
      } else {
        HeldPiece(sha, disk, b.bytes, limits, 0);
      }
    }
  }

  lemma {:induction false} TreeReads(sha: Hash, disk: Disk, leaves: seq<Leaf>, limits: WalkLimits, b: Block)
    requires TreeHeld(sha, disk, leaves) && AllWithin(leaves, limits) && b in Build(sha, leaves).value.blocks
    ensures ReadNode(sha, disk, b.cid, limits).Ok?
    decreases Weight(leaves)
  {
    hide Build, EntryNode, ReadNode, FileBlocks, Entries, Holds, AllWithin;
    BuiltFrom(sha, leaves);
    if b == EntryNode(sha, Entries(sha, leaves)) {
      HeldTree(sha, disk, leaves, limits);
      NodeWithin(leaves, limits);
    } else {
      var name := SubtreeBlockOrigin(sha, leaves, Subdirectories(leaves), b);
      TreeHeldBelow(sha, disk, leaves, name);
      WithinBelow(leaves, name, limits);
      DescendLighter(leaves, name);
      TreeReads(sha, disk, Descend(leaves, name), limits, b);
    }
  }

  lemma {:induction false} ReadIsWithin(sha: Hash, disk: Disk, limits: WalkLimits, root: Cid, leaves: seq<Leaf>)
    requires TreeHeld(sha, disk, leaves) && AllRead(sha, disk, limits, root)
    requires Reaches(sha, disk, limits, root, Build(sha, leaves).value.cid)
    ensures AllWithin(leaves, limits)
    decreases Weight(leaves)
  {
    hide Build, ReadNode, FileBlocks, Holds, Reaches, NamesHere, Entries;
    HeldTree(sha, disk, leaves, limits);
    hide AllRead;
    forall leaf | leaf in leaves ensures DirectoriesWithin(leaves, [leaf.name] + leaf.below, limits) {
      var steps := [leaf.name] + leaf.below;
      if !Here(leaf) {
        var below := LeafBelow(leaves, leaf);
        SubtreeReached(sha, disk, limits, root, leaves, leaf.name);
        DescendLighter(leaves, leaf.name);
        ReadIsWithin(sha, disk, limits, root, Descend(leaves, leaf.name));
        assert steps[1..] == leaf.below == [below.name] + below.below;
      }
    }
  }

  /** All that the root of an import reaches can be read exactly when no directory has too many names; then, and
      only then, the walk that collects its blocks succeeds. */
  lemma {:induction false} AllReadIff(sha: Hash, disk: Disk, files: seq<SiteFile>, limits: WalkLimits)
    requires Import(sha, files).Ok? && Held(sha, disk, Import(sha, files).value.blocks)
    ensures AllRead(sha, disk, limits, Import(sha, files).value.root) <==> AllWithin(Leaves(SiteOf(files)), limits)
  {
    hide Build, FileBlocksOf, FileBlocks, Reaches, Holds, ReadNode, SiteOf, LeafOf, AllWithin;
    var root, leaves := Import(sha, files).value.root, Leaves(SiteOf(files));
    ImportHeld(sha, disk, files);
    ReachesItself(sha, disk, limits, root);
    if AllRead(sha, disk, limits, root) {
      ReadIsWithin(sha, disk, limits, root, leaves);
    }
    if AllWithin(leaves, limits) {
      forall c | Reaches(sha, disk, limits, root, c) ensures ReadNode(sha, disk, c, limits).Ok? {
        ReachedIsHeld(sha, disk, files, limits, c);
        var b :| b in Import(sha, files).value.blocks && b.cid == c && Holds(sha, disk, b);
        if b in FileBlocksOf(sha, files) {
          var file := FileBlockOrigin(sha, files, b);
          FileBlocksAmong(sha, files, file);
          FileReads(sha, disk, file.content, limits);
        } else {
          TreeReads(sha, disk, leaves, limits, b);
        }
      }
    }
  }
}
