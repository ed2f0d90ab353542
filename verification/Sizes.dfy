/** Size conservation: the cumulative sizes in the links are the sizes of the blocks below them, and the
    blocks of an import add up to the root's own cumulative size. */
module Sizes {
  import opened Base
  import opened Cid
  import opened DagPb
  import opened Store
  import opened Ordering
  import opened Importer
  import opened ImporterRun
  import opened TreeShape
  import opened CompileRead

  function TotalBytes(blocks: seq<Block>): nat
  {
    if |blocks| == 0 then 0 else TotalBytes(blocks[..|blocks| - 1]) + |blocks[|blocks| - 1].bytes|
  }

  lemma {:induction false} TotalBytesJoin(a: seq<Block>, b: seq<Block>)
    ensures TotalBytes(a + b) == TotalBytes(a) + TotalBytes(b)
  {
    if |b| == 0 {
      assert a + b == a;
    } else {
      assert (a + b)[..|a + b| - 1] == a + b[..|b| - 1];
      TotalBytesJoin(a, b[..|b| - 1]);
    }
  }

  // ----- one file -----

  lemma {:induction false} RawTotal(sha: Hash, pieces: seq<Vec>)
    ensures TotalBytes(RawBlocks(sha, pieces)) == Sum(Sizes(pieces))
  {
    if |pieces| > 0 {
      var front := pieces[..|pieces| - 1];
      RawTotal(sha, front);
      assert RawBlocks(sha, pieces)[..|pieces| - 1] == RawBlocks(sha, front);
      assert Sizes(pieces)[..|pieces| - 1] == Sizes(front);
      assert Sizes(pieces)[..|pieces|] == Sizes(pieces);
      SumStep(Sizes(pieces), |pieces| - 1);
    }
  }

  /** A file's cumulative size is the size of its blocks, and no smaller than its content. */
  lemma {:induction false} FileSize(sha: Hash, content: Vec)
    ensures FileBlocks(sha, content).tsize == TotalBytes(FileBlocks(sha, content).blocks) >= |content|
  {
    hide NodeBytes, UnixfsFile, Chunks;
    var pieces := Chunks(content);
    var built := FileBlocks(sha, content);
    ChunksJoin(content);
    RawTotal(sha, pieces);
    if |pieces| == 1 {
      assert built.blocks[..0] == [];
      assert Sizes(pieces)[1..] == [];
    } else {
      assert built.blocks[..|built.blocks| - 1] == RawBlocks(sha, pieces);
    }
  }

  // ----- what lies below a directory -----

  function LeafBytes(sha: Hash, leaf: Leaf): nat {
    TotalBytes(FileBlocks(sha, leaf.content).blocks)
  }

  function LeavesBytes(sha: Hash, leaves: seq<Leaf>): nat
  {
    if |leaves| == 0 then 0
    else LeavesBytes(sha, leaves[..|leaves| - 1]) + LeafBytes(sha, leaves[|leaves| - 1])
  }

  /** All blocks of a tree, each as often as the tree refers to it: the files' and the nodes'. */
  function TreeBytes(sha: Hash, leaves: seq<Leaf>): nat
    requires Build(sha, leaves).Ok?
  {
    LeavesBytes(sha, leaves) + TotalBytes(Build(sha, leaves).value.blocks)
  }

  function BelowBytes(sha: Hash, leaves: seq<Leaf>, names: seq<Text>): nat
  {
    if |names| == 0 then 0
    else BelowBytes(sha, leaves, names[..|names| - 1]) + LeavesBytes(sha, Descend(leaves, names[|names| - 1]))
  }

  ghost predicate NoRepeats(names: seq<Text>) {
    forall i, j :: 0 <= i < j < |names| ==> names[i] != names[j]
  }

  lemma {:induction false} SubdirectoriesDistinct(leaves: seq<Leaf>)
    ensures NoRepeats(Subdirectories(leaves))
  {
    if |leaves| > 0 {
      SubdirectoriesDistinct(leaves[..|leaves| - 1]);
    }
  }

  /** One more leaf adds to the one directory it lies below. */
  lemma {:induction false} BelowStep(sha: Hash, leaves: seq<Leaf>, names: seq<Text>)
    requires |leaves| > 0 && NoRepeats(names)
    ensures var last := leaves[|leaves| - 1];
            BelowBytes(sha, leaves, names) == BelowBytes(sha, leaves[..|leaves| - 1], names)
              + if last.below != [] && last.name in names then LeafBytes(sha, last) else 0
    decreases |names|
  {
    hide LeafBytes;
    if |names| > 0 {
      var front, last := leaves[..|leaves| - 1], leaves[|leaves| - 1];
      var name := names[|names| - 1];
      BelowStep(sha, leaves, names[..|names| - 1]);
      assert last.name in names <==> last.name in names[..|names| - 1] || last.name == name;
      if last.below != [] && last.name == name {
        var leaf := Leaf(last.below[0], last.below[1..], last.content);
        assert Descend(leaves, name) == Descend(front, name) + [leaf];
        assert (Descend(front, name) + [leaf])[..|Descend(front, name)|] == Descend(front, name);
        SameBytes(sha, leaf, last);
      } else {
        assert Descend(leaves, name) == Descend(front, name);
      }
    }
  }

  lemma {:induction false} SameBytes(sha: Hash, leaf: Leaf, other: Leaf)
    requires leaf.content == other.content
    ensures LeafBytes(sha, leaf) == LeafBytes(sha, other)
  {
  }

  lemma {:induction false} NothingBelow(leaves: seq<Leaf>, name: Text)
    requires !Descends(leaves, name)
    ensures Descend(leaves, name) == []
  {
    if |leaves| > 0 {
      var front, last := leaves[..|leaves| - 1], leaves[|leaves| - 1];
      assert forall i :: 0 <= i < |front| ==> front[i] == leaves[i];
      NothingBelow(front, name);
    }
  }

  lemma {:induction false} FilesJoin(entries: seq<Link>, more: seq<Link>)
    ensures TotalSize(entries + more) == TotalSize(entries) + TotalSize(more)
  {
    if |more| == 0 {
      assert entries + more == entries;
    } else {
      assert (entries + more)[..|entries + more| - 1] == entries + more[..|more| - 1];
      FilesJoin(entries, more[..|more| - 1]);
    }
  }

  /** The leaves of a directory lie in it or below exactly one of its subdirectories. */
  lemma {:induction false} Partition(sha: Hash, leaves: seq<Leaf>)
    ensures LeavesBytes(sha, leaves)
         == TotalSize(Files(sha, leaves)) + BelowBytes(sha, leaves, Subdirectories(leaves))
  {
    hide LeafBytes, Descend, TotalSize, FileBlocks;
    if |leaves| == 0 {
      NoSize();
    } else {
      var front, last := leaves[..|leaves| - 1], leaves[|leaves| - 1];
      var names := Subdirectories(front);
      Partition(sha, front);
      SubdirectoriesDistinct(leaves);
      BelowStep(sha, leaves, Subdirectories(leaves));
      if last.below == [] {
        OneSize(sha, last);
        FilesJoin(Files(sha, front), [LeafLink(sha, last)]);
      } else {
        assert Files(sha, leaves) == Files(sha, front);
        if last.name !in names {
          SubdirectoriesAre(front, last.name);
          NothingBelow(front, last.name);
          assert (names + [last.name])[..|names|] == names;
        }
      }
    }
  }

  lemma {:induction false} NoSize()
    ensures TotalSize([]) == 0
  {
  }

  lemma {:induction false} OneSize(sha: Hash, leaf: Leaf)
    ensures TotalSize([LeafLink(sha, leaf)]) == LeafBytes(sha, leaf)
  {
    hide FileBlocks, TotalBytes;
    FileSize(sha, leaf.content);
    assert [LeafLink(sha, leaf)][..0] == [];
  }

  // ----- the tree -----

  /** A tree's cumulative size is the size of everything it is made of. */
  lemma {:induction false} TreeSize(sha: Hash, leaves: seq<Leaf>)
    requires Build(sha, leaves).Ok?
    ensures Build(sha, leaves).value.tsize == TreeBytes(sha, leaves)
    decreases Weight(leaves), 1, 0
  {
    hide Build, BuildSubtrees, LeavesBytes, BelowBytes, Files, EntryNode, TotalSize;
    BuiltFrom(sha, leaves);
    var names := Subdirectories(leaves);
    var done := BuildSubtrees(sha, leaves, names).value;
    SubtreeSizes(sha, leaves, names);
    FilesJoin(Files(sha, leaves), done.links);
    Partition(sha, leaves);
    var node := EntryNode(sha, Entries(sha, leaves));
    TotalBytesJoin(done.blocks, [node]);
    assert [node][..0] == [];
  }

  lemma {:induction false} SubtreeSizes(sha: Hash, leaves: seq<Leaf>, names: seq<Text>)
    requires forall n :: n in names ==> Descends(leaves, n)
    requires BuildSubtrees(sha, leaves, names).Ok?
    ensures var done := BuildSubtrees(sha, leaves, names).value;
            TotalSize(done.links) == TotalBytes(done.blocks) + BelowBytes(sha, leaves, names)
    decreases Weight(leaves), 0, |names|
  {
    if |names| > 0 {
      hide Build, BuildSubtrees;
      var front, name := names[..|names| - 1], names[|names| - 1];
      LastSubtree(sha, leaves, names);
      SubtreeSizes(sha, leaves, front);
      DescendLighter(leaves, name);
      TreeSize(sha, Descend(leaves, name));
      var done, sub := BuildSubtrees(sha, leaves, front).value, Build(sha, Descend(leaves, name)).value;
      TotalBytesJoin(done.blocks, sub.blocks);
      var link := Link(sub.cid, name, sub.tsize);
      assert (done.links + [link])[..|done.links|] == done.links;
    }
  }

  /** Every link of a directory carries the size of what it leads to: a file's blocks, or a subtree's
      files and nodes. */
  lemma {:induction false} LinkSizes(sha: Hash, leaves: seq<Leaf>, link: Link)
    requires Build(sha, leaves).Ok? && link in Entries(sha, leaves)
    ensures || (exists leaf :: leaf in leaves && Here(leaf) && leaf.name == link.name
                               && link.cid == FileBlocks(sha, leaf.content).cid && link.tsize == LeafBytes(sha, leaf))
            || (IsSubtree(sha, leaves, link) && link.tsize == TreeBytes(sha, Descend(leaves, link.name)))
  {
    hide Build, FileBlocks, TotalBytes, LeavesBytes;
    EntryOrigin(sha, leaves, link);
    if IsSubtree(sha, leaves, link) {
      TreeSize(sha, Descend(leaves, link.name));
    } else {
      var leaf :| leaf in leaves && Here(leaf) && link == LeafLink(sha, leaf);
      FileSize(sha, leaf.content);
    }
  }

  // ----- the whole import -----

  lemma {:induction false} LeavesBytesJoin(sha: Hash, a: seq<Leaf>, b: seq<Leaf>)
    ensures LeavesBytes(sha, a + b) == LeavesBytes(sha, a) + LeavesBytes(sha, b)
  {
    hide LeafBytes;
    if |b| == 0 {
      assert a + b == a;
    } else {
      assert (a + b)[..|a + b| - 1] == a + b[..|b| - 1];
      LeavesBytesJoin(sha, a, b[..|b| - 1]);
    }
  }

  /** A new key goes between two parts of the map. */
  lemma {:induction false} PlaceSplits(site: seq<SiteFile>, file: SiteFile) returns (k: nat)
    requires forall i :: 0 <= i < |site| ==> site[i].path != file.path
    ensures k <= |site| && Place(PathOf, site, file) == site[..k] + [file] + site[k..]
  {
    if |site| == 0 || Less(file.path, site[0].path) {
      k := 0;
    } else {
      k := PlaceSplits(site[1..], file);
      assert site[..k + 1] == [site[0]] + site[1..][..k];
      assert site[k + 1..] == site[1..][k..];
      k := k + 1;
    }
  }

  lemma {:induction false} OneLeaf(sha: Hash, leaf: Leaf)
    ensures LeavesBytes(sha, [leaf]) == TotalBytes(FileBlocks(sha, leaf.content).blocks)
  {
    hide FileBlocks, TotalBytes;
    assert [leaf][..0] == [];
  }

  lemma {:induction false} PlaceBytes(sha: Hash, site: seq<SiteFile>, file: SiteFile)
    requires forall i :: 0 <= i < |site| ==> site[i].path != file.path
    ensures LeavesBytes(sha, Leaves(Place(PathOf, site, file)))
         == LeavesBytes(sha, Leaves(site)) + TotalBytes(FileBlocks(sha, file.content).blocks)
  {
    hide FileBlocks, LeafOf, Leaves, LeavesBytes, Place, TotalBytes;
    var k := PlaceSplits(site, file);
    var leaf := LeafOf(file.path, file.content);
    assert site == site[..k] + site[k..];
    LeavesJoin(site[..k], site[k..]);
    LeavesJoin(site[..k] + [file], site[k..]);
    LeavesJoin(site[..k], [file]);
    LeavesOne(file);
    LeavesBytesJoin(sha, Leaves(site[..k]), Leaves(site[k..]));
    LeavesBytesJoin(sha, Leaves(site[..k]) + [leaf], Leaves(site[k..]));
    LeavesBytesJoin(sha, Leaves(site[..k]), [leaf]);
    OneLeaf(sha, leaf);
  }

  lemma {:induction false} LeavesJoin(a: seq<SiteFile>, b: seq<SiteFile>)
    ensures Leaves(a + b) == Leaves(a) + Leaves(b)
  {
    hide LeafOf, Leaves;
    var joined := Leaves(a) + Leaves(b);
    forall i | 0 <= i < |a + b| ensures Leaves(a + b)[i] == joined[i] {
      assert (a + b)[i] == if i < |a| then a[i] else b[i - |a|];
    }
    assert |Leaves(a + b)| == |a + b| == |joined|;
    assert Leaves(a + b) == joined;
  }

  lemma {:induction false} LeavesOne(file: SiteFile)
    ensures Leaves([file]) == [LeafOf(file.path, file.content)]
            && LeafOf(file.path, file.content).content == file.content
  {
    hide Leaves;
    assert Leaves([file])[0] == LeafOf(file.path, file.content);
  }

  lemma {:induction false} FilesBytes(sha: Hash, files: seq<SiteFile>)
    requires DistinctPaths(files)
    ensures TotalBytes(FileBlocksOf(sha, files)) == LeavesBytes(sha, Leaves(SiteOf(files)))
  {
    hide FileBlocks, Split, Place;
    if |files| > 0 {
      var front, last := files[..|files| - 1], files[|files| - 1];
      FilesBytes(sha, front);
      TotalBytesJoin(FileBlocksOf(sha, front), FileBlocks(sha, last.content).blocks);
      SiteHolds(front);
      MapFromFiles(front);
      forall i | 0 <= i < |SiteOf(front)| ensures SiteOf(front)[i].path != last.path {
        var f := SiteOf(front)[i];
        assert f in SiteOf(front) && SiteFile(f.path, f.content) == f;
        var j :| 0 <= j < |front| && front[j] == f;
        assert PathOf(files[j]) != PathOf(files[|files| - 1]);
      }
      PlaceBytes(sha, SiteOf(front), last);
    }
  }

  /** For distinct paths the emitted blocks add up to the root's cumulative size. */
  lemma {:induction false} ImportSize(sha: Hash, files: seq<SiteFile>)
    requires DistinctPaths(files) && Import(sha, files).Ok?
    ensures Build(sha, Leaves(SiteOf(files))).Ok?
    ensures TotalBytes(Import(sha, files).value.blocks) == Build(sha, Leaves(SiteOf(files))).value.tsize
  {
    hide Build, FileBlocksOf, SiteOf, LeavesBytes, TotalBytes;
    var leaves := Leaves(SiteOf(files));
    TreeSize(sha, leaves);
    FilesBytes(sha, files);
    TotalBytesJoin(FileBlocksOf(sha, files), Build(sha, leaves).value.blocks);
  }

  /** The publisher's own octets. */
  function SourceBytes(files: seq<SiteFile>): nat
  {
    if |files| == 0 then 0 else SourceBytes(files[..|files| - 1]) + |files[|files| - 1].content|
  }

  lemma {:induction false} FilesCover(sha: Hash, files: seq<SiteFile>)
    ensures TotalBytes(FileBlocksOf(sha, files)) >= SourceBytes(files)
  {
    hide FileBlocks;
    if |files| > 0 {
      var front, last := files[..|files| - 1], files[|files| - 1];
      FilesCover(sha, front);
      FileSize(sha, last.content);
      TotalBytesJoin(FileBlocksOf(sha, front), FileBlocks(sha, last.content).blocks);
    }
  }

  lemma {:induction false} NodeNotEmpty(sha: Hash, leaves: seq<Leaf>)
    requires Build(sha, leaves).Ok?
    ensures TotalBytes(Build(sha, leaves).value.blocks) > 0
  {
    hide Build, LinkFields, Sort, BytesField;
    BuiltFrom(sha, leaves);
    DirectoryReadsBack();
    FieldNotEmpty(1, UnixfsDirectory());
    assert |EntryNode(sha, Entries(sha, leaves)).bytes| > 0;
  }

  lemma {:induction false} FieldNotEmpty(field: nat, payload: Octets)
    ensures |BytesField(field, payload)| > 0
  {
  }

  /** A tree always takes more than its contents. */
  lemma {:induction false} StoredExceedsSource(sha: Hash, files: seq<SiteFile>)
    requires Import(sha, files).Ok?
    ensures TotalBytes(Import(sha, files).value.blocks) > SourceBytes(files)
  {
    hide Build, FileBlocksOf, TotalBytes, SourceBytes;
    var leaves := Leaves(SiteOf(files));
    FilesCover(sha, files);
    NodeNotEmpty(sha, leaves);
    TotalBytesJoin(FileBlocksOf(sha, files), Build(sha, leaves).value.blocks);
  }
}
