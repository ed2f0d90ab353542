/** Sites that the importer takes, the store files and the walker's default limits refuse to read: a file
    of 32 pieces, and a directory of 175 names. */
module ReadWitnesses {
  import opened Base
  import opened Utf8
  import opened Cid
  import opened DagPb
  import opened Store
  import opened Ordering
  import opened Importer
  import opened ImporterRun
  import opened TreeShape
  import opened Walker
  import opened SiteRead
  import opened CompileRead
  import opened Importable
  import opened Cbor
  import Varint

  // ----- how long nodes are -----

  lemma {:induction false} LinkLength(link: Link)
    requires Admitted(link.cid) && |link.name| < 128
    ensures 36 <= |BytesField(2, LinkBytes(link))| <= |link.name| + 60
  {
    AdmittedBytes(link.cid);
    SmallKeys();
    Varint.WriteShort(link.tsize % U64_LIMIT);
    Varint.WriteShort(|LinkBytes(link)|);
    ShortLengths(|ToBytes(link.cid)|);
    ShortLengths(|link.name|);
    assert |LinkBytes(link)| <= 51 + |link.name|;
    TwoOctets(|LinkBytes(link)|);
  }

  lemma {:induction false} SmallKeys()
    ensures |Varint.Write(1 * 8 + 2)| == 1 && |Varint.Write(2 * 8 + 2)| == 1 && |Varint.Write(3 * 8)| == 1
    ensures |Varint.Write(1 * 8)| == 1 && |Varint.Write(4 * 8)| == 1
  {
  }

  lemma {:induction false} ShortLengths(n: nat)
    requires n < 128
    ensures |Varint.Write(n)| == 1
  {
  }

  lemma {:induction false} TwoOctets(n: nat)
    requires n < 16_384
    ensures |Varint.Write(n)| <= 2
  {
  }

  lemma {:induction false} LinksLength(links: seq<Link>)
    requires forall i :: 0 <= i < |links| ==> Admitted(links[i].cid) && |links[i].name| < 40
    ensures 36 * |links| <= |LinkFields(links)| <= 100 * |links|
  {
    hide LinkBytes, BytesField, Admitted;
    if |links| > 0 {
      LinkLength(links[0]);
      LinksLength(links[1..]);
    }
  }

  /** How long a node under short names is. */
  lemma {:induction false} NodeLength(links: seq<Link>, data: Octets)
    requires forall i :: 0 <= i < |links| ==> Admitted(links[i].cid) && |links[i].name| < 40
    requires |data| < U64_LIMIT
    ensures 36 * |links| <= |NodeBytes(links, data)| <= 100 * |links| + |data| + 11
  {
    hide Admitted, LinkFields;
    LinksLength(links);
    SmallKeys();
    Varint.WriteShort(|data|);
  }

  ghost predicate AllShort(blocks: seq<Block>) {
    forall b :: b in blocks ==> |b.bytes| <= MAX_BLOCK_BYTES
  }

  /** Every block of a file of at most five thousand pieces is short enough to be filed. */
  lemma {:induction false} FileShort(sha: Hash, content: Vec)
    requires |content| <= 5_000 * CHUNK_BYTES
    ensures AllShort(FileBlocks(sha, content).blocks)
  {
    hide NodeBytes, Chunks;
    var pieces := Chunks(content);
    ChunksJoin(content);
    PiecesCounted(content);
    assert |pieces| <= 5_000;
    forall b | b in RawBlocks(sha, pieces) ensures |b.bytes| <= MAX_BLOCK_BYTES {
      var i :| 0 <= i < |pieces| && RawBlocks(sha, pieces)[i] == b;
    }
    FileNodeLength(sha, pieces);
  }

  lemma {:induction false} FileNodeLength(sha: Hash, pieces: seq<Vec>)
    requires |pieces| <= 5_000 && Sum(Importer.Sizes(pieces)) < U64_LIMIT
    ensures 36 * |pieces| <= |FileNode(sha, pieces).bytes| <= 120 * |pieces| + 51
  {
    hide NodeBytes, UnixfsFile;
    var links, sizes := ChunkLinks(sha, pieces), Importer.Sizes(pieces);
    FileDataShort(sizes);
    NodeLength(links, UnixfsFile(sizes));
  }

  lemma {:induction false} FileDataShort(sizes: seq<u64>)
    requires Sum(sizes) < U64_LIMIT
    ensures |UnixfsFile(sizes)| <= 20 * |sizes| + 40
  {
    BlockSizesLength(sizes);
    Varint.WriteShort(1 * 8);
    Varint.WriteShort(UNIXFS_FILE);
    Varint.WriteShort(3 * 8);
    Varint.WriteShort(Sum(sizes));
  }

  // ----- sites without subdirectories -----

  /** A path of one good step. */
  predicate OneStep(path: Text) {
    0 < |path| < 40 && SlashAt(path) == |path| && !BadPart(path)
  }

  ghost predicate FlatSite(files: seq<SiteFile>) {
    && |files| <= 5_000 && DistinctPaths(files)
    && forall f :: f in files ==> OneStep(f.path) && |f.content| <= 5_000 * CHUNK_BYTES
  }

  lemma {:induction false} FlatPaths(files: seq<SiteFile>)
    requires FlatSite(files)
    ensures forall p :: p in PathMap(files) ==> OneStep(p) && Split(p) == [p]
  {
    hide OneStep, PathMap, Split;
    MapFromFiles(files);
    forall p | p in PathMap(files) ensures OneStep(p) && Split(p) == [p] {
      var f := SiteFile(p, PathMap(files)[p]);
      assert f in files;
      StepAlone(p);
    }
  }

  lemma {:induction false} StepAlone(p: Text)
    requires OneStep(p)
    ensures Split(p) == [p] && GoodPath(p)
  {
  }

  /** Such a site is imported. */
  lemma {:induction false} FlatImports(sha: Hash, files: seq<SiteFile>)
    requires FlatSite(files)
    ensures Import(sha, files).Ok?
  {
    hide Import, PathMap, Split, OneStep, GoodPath;
    FlatPaths(files);
    forall p | p in PathMap(files) ensures GoodPath(p) {
      StepAlone(p);
    }
    forall p, q ensures !Overlap(PathMap(files), p, q) {
      if p in PathMap(files) && q in PathMap(files) && Split(p) <= Split(q) {
        assert [p][0] == [q][0];
      }
    }
    ImportSucceedsIff(sha, files);
  }

  /** Its leaves are its files. */
  lemma {:induction false} FlatLeaves(files: seq<SiteFile>)
    requires FlatSite(files)
    ensures forall leaf :: leaf in Leaves(SiteOf(files)) <==> Here(leaf) && SiteFile(leaf.name, leaf.content) in files
  {
    hide SiteOf, PathMap, Split, OneStep;
    var site := SiteOf(files);
    SiteHolds(files);
    DistinctMap(files);
    FlatPaths(files);
    forall leaf ensures leaf in Leaves(site) <==> Here(leaf) && SiteFile(leaf.name, leaf.content) in files {
      if leaf in Leaves(site) {
        var p := LeafPath(files, leaf);
        FlatLeaf(p, PathMap(files)[p]);
      }
      if Here(leaf) && SiteFile(leaf.name, leaf.content) in files {
        PathLeaf(files, leaf.name);
        FlatLeaf(leaf.name, leaf.content);
      }
    }
  }

  lemma {:induction false} FlatLeaf(path: Text, content: Vec)
    requires Split(path) == [path]
    ensures LeafOf(path, content) == Leaf(path, [], content)
  {
    assert [path][1..] == [];
  }

  lemma {:induction false} NoSubdirectories(leaves: seq<Leaf>)
    requires forall leaf :: leaf in leaves ==> Here(leaf)
    ensures Subdirectories(leaves) == []
  {
    if |leaves| > 0 {
      NoSubdirectories(leaves[..|leaves| - 1]);
      assert leaves[|leaves| - 1] in leaves;
    }
  }

  lemma {:induction false} FilesShort(sha: Hash, files: seq<SiteFile>)
    requires forall f :: f in files ==> |f.content| <= 5_000 * CHUNK_BYTES
    ensures AllShort(FileBlocksOf(sha, files))
  {
    hide FileBlocks;
    if |files| > 0 {
      FilesShort(sha, files[..|files| - 1]);
      FileShort(sha, files[|files| - 1].content);
    }
  }

  /** A tree without subdirectories is one node, of one link for every name. */
  lemma {:induction false} FlatRoot(sha: Hash, leaves: seq<Leaf>)
    requires Build(sha, leaves).Ok?
    requires forall leaf :: leaf in leaves ==> Here(leaf) && |leaf.name| < 40
    ensures var blocks := Build(sha, leaves).value.blocks;
            && |blocks| == 1
            && 36 * |NamesHere(leaves)| <= |blocks[0].bytes| <= 100 * |NamesHere(leaves)| + 13
  {
    hide Build, NodeBytes, Files, FileBlocks;
    BuiltFrom(sha, leaves);
    NoSubdirectories(leaves);
    var entries := Entries(sha, leaves);
    EntryCount(sha, leaves);
    EntriesSmall(sha, leaves);
    var sorted := Sort(NameOf, entries);
    forall i | 0 <= i < |sorted| ensures Admitted(sorted[i].cid) && |sorted[i].name| < 40 {
      SortMembers(NameOf, entries, sorted[i]);
      EntryOrigin(sha, leaves, sorted[i]);
    }
    SmallKeys();
    NodeLength(sorted, UnixfsDirectory());
  }

  ghost function PathsIn(files: seq<SiteFile>): set<Octets> {
    set i | 0 <= i < |files| :: files[i].path
  }

  lemma {:induction false} PathsCounted(files: seq<SiteFile>)
    requires DistinctPaths(files)
    ensures |PathsIn(files)| == |files|
  {
    if |files| > 0 {
      var front, last := files[..|files| - 1], files[|files| - 1];
      PathsCounted(front);
      assert forall i :: 0 <= i < |front| ==> PathOf(files[i]) != PathOf(files[|files| - 1]);
      assert PathsIn(files) == PathsIn(front) + {last.path};
    }
  }

  /** One different name for every file. */
  lemma {:induction false} FlatNames(files: seq<SiteFile>)
    requires FlatSite(files)
    ensures |NamesHere(Leaves(SiteOf(files)))| == |files|
  {
    hide SiteOf, LeafOf, OneStep, Leaves;
    var leaves := Leaves(SiteOf(files));
    FlatLeaves(files);
    PathsCounted(files);
    forall n | n in NamesHere(leaves) ensures n in PathsIn(files) {
      var i :| 0 <= i < |leaves| && leaves[i].name == n;
      assert leaves[i] in leaves;
    }
    forall n | n in PathsIn(files) ensures n in NamesHere(leaves) {
      var i :| 0 <= i < |files| && files[i].path == n;
      assert files[i] in files && SiteFile(files[i].path, files[i].content) == files[i];
      var leaf := Leaf(files[i].path, [], files[i].content);
      assert leaf in leaves;
      var j :| 0 <= j < |leaves| && leaves[j] == leaf;
    }
    assert NamesHere(leaves) == PathsIn(files);
  }

  lemma {:induction false} StepShort(path: Text)
    ensures OneStep(path) ==> |path| < 40
  {
  }

  lemma {:induction false} RootOfFlat(sha: Hash, files: seq<SiteFile>)
    requires FlatSite(files) && Build(sha, Leaves(SiteOf(files))).Ok?
    ensures var blocks := Build(sha, Leaves(SiteOf(files))).value.blocks;
            && |blocks| == 1
            && 36 * |files| <= |blocks[0].bytes| <= 100 * |files| + 13
  {
    hide Build, SiteOf, OneStep, Leaves;
    FlatLeaves(files);
    FlatNames(files);
    var leaves := Leaves(SiteOf(files));
    forall leaf | leaf in leaves ensures Here(leaf) && |leaf.name| < 40 {
      StepShort(leaf.name);
    }
    FlatRoot(sha, leaves);
  }

  lemma {:induction false} FlatShort(sha: Hash, files: seq<SiteFile>)
    requires FlatSite(files)
    ensures Import(sha, files).Ok? && AllShort(Import(sha, files).value.blocks)
  {
    FlatImports(sha, files);
    hide Build, FileBlocksOf, SiteOf, FirstBad, OneStep, Leaves;
    FilesShort(sha, files);
    RootOfFlat(sha, files);
  }

  /** Filed in an empty store, unless blocks collide. */
  lemma {:induction false} FlatFiled(sha: Hash, files: seq<SiteFile>)
    requires FlatSite(files)
    ensures Import(sha, files).Ok?
    ensures var im := Import(sha, files).value;
            NoneCollide(sha, map[], im.blocks) ==> PutAllOn(sha, map[], im.blocks).result.Ok?
  {
    hide Import, FlatSite;
    FlatShort(sha, files);
    ImportGenuine(sha, files);
    var blocks := Import(sha, files).value.blocks;
    if NoneCollide(sha, map[], blocks) {
      forall a, b | a in blocks && b in blocks && a.cid == b.cid ensures a.bytes == b.bytes {
        assert sha(a.bytes) == sha(b.bytes);
      }
      FilingSucceedsIff(sha, map[], blocks);
    }
  }

  /** What reading one of its files gives. */
  lemma {:induction false} FlatRead(sha: Hash, files: seq<SiteFile>, file: SiteFile, limits: WalkLimits)
    requires FlatSite(files) && file in files
    requires Import(sha, files).Ok? && NoneCollide(sha, map[], Import(sha, files).value.blocks)
    ensures var im := Import(sha, files).value;
            var filed := PutAllOn(sha, map[], im.blocks);
            && filed.result.Ok?
            && (var r := ReadPath(sha, filed.disk, im.root, [file.path], limits);
                if |files| <= limits.maxLinksPerNode && FileWithin(|file.content|, limits, limits.maxDepth)
                then r == Ok(file.content) else r.Err?)
  {
    hide Import, ReadPath, PutAllOn, FileWithin, NoneCollide, SiteOf, PathMap, OneStep, NamesHere, Leaves;
    FlatFiled(sha, files);
    FlatNames(files);
    FlatPaths(files);
    DistinctMap(files);
    assert SiteMaps(files, [file.path], file.content);
    var leaves := Leaves(SiteOf(files));
    assert DirectoriesWithin(leaves, [file.path], limits) <==> |files| <= limits.maxLinksPerNode;
    if |files| <= limits.maxLinksPerNode && FileWithin(|file.content|, limits, limits.maxDepth) {
      CompileThenRead(sha, files, map[], [file.path], file.content, limits);
    } else {
      BeyondLimits(sha, files, map[], [file.path], file.content, limits);
    }
  }

  // ----- two sites -----

  /** Two letters for every number below 256. */
  function NameAt(i: nat): (r: Text)
    requires i < 256
    ensures OneStep(r) && |r| == 2 && r[0] == 'a' as int + i / 16 && r[1] == 'a' as int + i % 16
  {
    var r: Octets := ['a' as int + i / 16, 'a' as int + i % 16];
    AsciiValid(r);
    assert forall k :: 0 <= k < |r| ==> r[k] != SLASH;
    r
  }

  function Zeros(n: nat): (r: Octets)
    ensures |r| == n
  {
    seq(n, _ => 0)
  }

  /** A file of 32 pieces, alone. */
  function LongFile(): SiteFile {
    SiteFile(NameAt(0), Zeros(31 * CHUNK_BYTES + 1))
  }

  /** It is imported and filed, does not read back under the default limits, and does with one more node. */
  lemma {:induction false} ThirtyTwoPieces(sha: Hash)
    ensures var files := [LongFile()];
            && Import(sha, files).Ok?
            && (NoneCollide(sha, map[], Import(sha, files).value.blocks) ==>
                  var im := Import(sha, files).value;
                  var disk := PutAllOn(sha, map[], im.blocks).disk;
                  && PutAllOn(sha, map[], im.blocks).result.Ok?
                  && ReadPath(sha, disk, im.root, [LongFile().path], DEFAULT_LIMITS).Err?
                  && ReadPath(sha, disk, im.root, [LongFile().path], DEFAULT_LIMITS.(maxDepth := 33))
                     == Ok(LongFile().content))
  {
    hide Import, ReadPath, PutAllOn, NoneCollide, OneStep;
    var file := LongFile();
    var files := [file];
    assert FlatSite(files);
    FlatImports(sha, files);
    if NoneCollide(sha, map[], Import(sha, files).value.blocks) {
      FlatRead(sha, files, file, DEFAULT_LIMITS);
      FlatRead(sha, files, file, DEFAULT_LIMITS.(maxDepth := 33));
    }
  }

  /** Empty pages under different names. */
  function Pages(n: nat): (r: seq<SiteFile>)
    requires n <= 256
    ensures |r| == n && forall i :: 0 <= i < n ==> r[i] == SiteFile(NameAt(i), [])
  {
    seq(n, i requires 0 <= i < n => SiteFile(NameAt(i), []))
  }

  lemma {:induction false} PagesFlat(n: nat)
    requires n <= 256
    ensures FlatSite(Pages(n))
  {
    hide OneStep;
    var files := Pages(n);
    forall i, j | 0 <= i < j < n ensures PathOf(files[i]) != PathOf(files[j]) {
      assert NameAt(i)[0] != NameAt(j)[0] || NameAt(i)[1] != NameAt(j)[1];
    }
  }

  /** A directory of 175 names is imported and filed, none of its pages reads back under the default limits,
      and all do with one more link. */
  lemma {:induction false} WideDirectory(sha: Hash, i: nat)
    requires i < 175
    ensures var files := Pages(175);
            && Import(sha, files).Ok?
            && (NoneCollide(sha, map[], Import(sha, files).value.blocks) ==>
                  var im := Import(sha, files).value;
                  var disk := PutAllOn(sha, map[], im.blocks).disk;
                  && PutAllOn(sha, map[], im.blocks).result.Ok?
                  && ReadPath(sha, disk, im.root, [NameAt(i)], DEFAULT_LIMITS).Err?
                  && ReadPath(sha, disk, im.root, [NameAt(i)], DEFAULT_LIMITS.(maxLinksPerNode := 175)) == Ok([]))
  {
    hide Import, ReadPath, PutAllOn, NoneCollide, OneStep, FlatSite;
    var files := Pages(175);
    PagesFlat(175);
    FlatImports(sha, files);
    if NoneCollide(sha, map[], Import(sha, files).value.blocks) {
      assert files[i] in files;
      FlatRead(sha, files, files[i], DEFAULT_LIMITS);
      FlatRead(sha, files, files[i], DEFAULT_LIMITS.(maxLinksPerNode := 175));
    }
  }

  // ----- a digest without collisions among their blocks -----

  /** A digest that carries the length of what it was made of. */
  function ByLength(x: Octets): Digest {
    BigEndian(|x| % U32_LIMIT, 4) + seq(DIGEST_BYTES - 4, _ => 0)
  }

  lemma {:induction false} LengthTold(x: Octets, y: Octets)
    requires |x| < U32_LIMIT && |y| < U32_LIMIT && ByLength(x) == ByLength(y)
    ensures |x| == |y|
  {
    hide BigEndian, FromBigEndian;
    Pow256Values(4);
    assert ByLength(x)[..4] == BigEndian(|x|, 4) && ByLength(y)[..4] == BigEndian(|y|, 4);
    BigEndianInverse(|x|, 4);
    BigEndianInverse(|y|, 4);
  }

  /** Blocks of one length are one content. */
  ghost predicate LengthsDecide(blocks: seq<Block>) {
    && (forall b :: b in blocks ==> |b.bytes| < U32_LIMIT)
    && (forall a, b :: a in blocks && b in blocks && |a.bytes| == |b.bytes| ==> a.bytes == b.bytes)
  }

  lemma {:induction false} NoneByLength(blocks: seq<Block>)
    requires LengthsDecide(blocks)
    ensures NoneCollide(ByLength, map[], blocks)
  {
    hide ByLength;
    var none: Disk := map[];
    var strings := (set c | c in none :: none[c]) + (set b | b in blocks :: b.bytes);
    forall x, y | x in strings && y in strings && ByLength(x) == ByLength(y) ensures x == y {
      LengthTold(x, y);
    }
  }

  ghost predicate ZeroPieces(pieces: seq<Vec>) {
    forall p :: p in pieces ==> p == Zeros(CHUNK_BYTES) || p == Zeros(1)
  }

  lemma {:induction false} ZerosCut(k: nat)
    requires k <= 31
    ensures ZeroPieces(Chunks(Zeros(k * CHUNK_BYTES + 1)))
  {
    var all := Zeros(k * CHUNK_BYTES + 1);
    if k > 0 {
      ZerosCut(k - 1);
      assert all[..CHUNK_BYTES] == Zeros(CHUNK_BYTES);
      assert all[CHUNK_BYTES..] == Zeros((k - 1) * CHUNK_BYTES + 1);
    }
  }

  lemma {:induction false} LongFileLengths(sha: Hash)
    ensures var pieces := Chunks(LongFile().content);
            && |pieces| == 32 && ZeroPieces(pieces)
            && FileBlocks(sha, LongFile().content).blocks == RawBlocks(sha, pieces) + [FileNode(sha, pieces)]
            && 1_152 <= |FileNode(sha, pieces).bytes| <= 3_891
  {
    hide FileNode, Chunks, OneStep;
    var content := LongFile().content;
    ZerosCut(31);
    PiecesCounted(content);
    ChunksJoin(content);
    FileNodeLength(sha, Chunks(content));
  }

  /** The blocks of the long file are of four lengths, and of one content for each. */
  lemma {:induction false} LongFileDecided(sha: Hash)
    requires Import(sha, [LongFile()]).Ok?
    ensures LengthsDecide(Import(sha, [LongFile()]).value.blocks)
  {
    hide Build, FileNode, FileBlocks, Chunks, Zeros, FirstBad, SiteOf, Leaves, OneStep;
    var files, pieces := [LongFile()], Chunks(LongFile().content);
    LongFileLengths(sha);
    assert FlatSite(files);
    RootOfFlat(sha, files);
    var node, root := FileNode(sha, pieces), Build(sha, Leaves(SiteOf(files))).value.blocks[0];
    assert files[..0] == [];
    assert FileBlocksOf(sha, files) == RawBlocks(sha, pieces) + [node];
    forall b | b in Import(sha, files).value.blocks
      ensures b.bytes == Zeros(CHUNK_BYTES) || b.bytes == Zeros(1) || b == node || b == root
    {
      if b in RawBlocks(sha, pieces) {
        var i :| 0 <= i < |pieces| && RawBlocks(sha, pieces)[i] == b;
        assert pieces[i] in pieces;
      }
    }
  }

  lemma {:induction false} EmptyPages(sha: Hash, files: seq<SiteFile>)
    requires forall f :: f in files ==> f.content == []
    ensures forall b :: b in FileBlocksOf(sha, files) ==> b.bytes == []
  {
    if |files| > 0 {
      EmptyPages(sha, files[..|files| - 1]);
      assert files[|files| - 1] in files;
    }
  }

  /** The blocks of the wide directory are its node and empty ones. */
  lemma {:induction false} PagesDecided(sha: Hash)
    requires Import(sha, Pages(175)).Ok?
    ensures LengthsDecide(Import(sha, Pages(175)).value.blocks)
  {
    hide Build, FileBlocksOf, FirstBad, SiteOf, Leaves, FlatSite;
    var files := Pages(175);
    PagesFlat(175);
    EmptyPages(sha, files);
    RootOfFlat(sha, files);
    var root := Build(sha, Leaves(SiteOf(files))).value.blocks[0];
    forall b | b in Import(sha, files).value.blocks ensures b.bytes == [] || b == root {
    }
  }

  /** What ThirtyTwoPieces says, with nothing left to suppose. */
  lemma {:induction false} ThirtyTwoPiecesByLength()
    ensures var files := [LongFile()];
            && Import(ByLength, files).Ok?
            && (var im := Import(ByLength, files).value;
                var filed := PutAllOn(ByLength, map[], im.blocks);
                && filed.result.Ok?
                && ReadPath(ByLength, filed.disk, im.root, [LongFile().path], DEFAULT_LIMITS).Err?
                && ReadPath(ByLength, filed.disk, im.root, [LongFile().path], DEFAULT_LIMITS.(maxDepth := 33))
                   == Ok(LongFile().content))
  {
    hide Import, ReadPath, PutAllOn, NoneCollide, LongFile, LengthsDecide, ByLength;
    ThirtyTwoPieces(ByLength);
    LongFileDecided(ByLength);
    NoneByLength(Import(ByLength, [LongFile()]).value.blocks);
  }

  /** What WideDirectory says, with nothing left to suppose. */
  lemma {:induction false} WideDirectoryByLength(i: nat)
    requires i < 175
    ensures var files := Pages(175);
            && Import(ByLength, files).Ok?
            && (var im := Import(ByLength, files).value;
                var filed := PutAllOn(ByLength, map[], im.blocks);
                && filed.result.Ok?
                && ReadPath(ByLength, filed.disk, im.root, [NameAt(i)], DEFAULT_LIMITS).Err?
                && ReadPath(ByLength, filed.disk, im.root, [NameAt(i)], DEFAULT_LIMITS.(maxLinksPerNode := 175))
                   == Ok([]))
  {
    hide Import, ReadPath, PutAllOn, NoneCollide, Pages, LengthsDecide, ByLength;
    WideDirectory(ByLength, i);
    PagesDecided(ByLength);
    NoneByLength(Import(ByLength, Pages(175)).value.blocks);
  }
}
