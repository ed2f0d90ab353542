/** The root identifier names the map from paths to contents and nothing else: it does not depend on
    the order of the files, and without collisions it determines the map. */
module Binding {
  import opened Base
  import opened Cid
  import opened DagPb
  import opened Store
  import opened Ordering
  import opened Importer
  import opened ImporterRun
  import opened TreeShape
  import opened CompileRead

  // ----- the map decides the root -----

  lemma {:induction false} PathsMapped(files: seq<SiteFile>)
    ensures forall f :: f in files ==> f.path in PathMap(files)
  {
    if |files| > 0 {
      var front, last := files[..|files| - 1], files[|files| - 1];
      PathsMapped(front);
      assert forall f :: f in files <==> f in front || f == last;
    }
  }

  lemma {:induction false} NoneBadIff(files: seq<SiteFile>)
    ensures FirstBad(files).None? <==> forall f :: f in files ==> GoodPath(f.path)
  {
    hide GoodPath;
    if |files| > 0 {
      var front, last := files[..|files| - 1], files[|files| - 1];
      NoneBadIff(front);
      assert forall f :: f in files <==> f in front || f == last;
    }
  }

  /** An import is refused for a path exactly when the map holds a bad one. */
  lemma {:induction false} BadPathIff(files: seq<SiteFile>)
    ensures FirstBad(files).None? <==> forall p :: p in PathMap(files) ==> GoodPath(p)
  {
    hide GoodPath;
    NoneBadIff(files);
    PathsMapped(files);
    MapFromFiles(files);
  }

  lemma {:induction false} SameMapSameSite(files: seq<SiteFile>, others: seq<SiteFile>)
    requires PathMap(files) == PathMap(others)
    ensures SiteOf(files) == SiteOf(others)
  {
    SiteHolds(files);
    SiteHolds(others);
    IncreasingUnique(PathOf, SiteOf(files), SiteOf(others));
  }

  /** Two lists of files with the same map are imported or refused alike, with the same root. */
  lemma {:induction false} SameMapSameRoot(sha: Hash, files: seq<SiteFile>, others: seq<SiteFile>)
    requires PathMap(files) == PathMap(others)
    ensures Import(sha, files).Ok? <==> Import(sha, others).Ok?
    ensures Import(sha, files).Ok? ==> Import(sha, files).value.root == Import(sha, others).value.root
  {
    hide Build, GoodPath, FirstBad, FileBlocksOf;
    BadPathIff(files);
    BadPathIff(others);
    SameMapSameSite(files, others);
  }

  /** In particular the order in which distinct paths arrive does not matter. */
  lemma {:induction false} OrderIndependent(sha: Hash, files: seq<SiteFile>, others: seq<SiteFile>)
    requires DistinctPaths(files) && multiset(files) == multiset(others)
    ensures PathMap(files) == PathMap(others)
    ensures Import(sha, files).Ok? ==> Import(sha, others).Ok?
                                       && Import(sha, files).value.root == Import(sha, others).value.root
  {
    hide Import;
    DistinctPermuted(PathOf, files, others);
    DistinctMap(files);
    DistinctMap(others);
    forall p, c ensures Says(PathMap(files), p, c) <==> Says(PathMap(others), p, c) {
      var f := SiteFile(p, c);
      assert f in files <==> f in multiset(files);
      assert f in others <==> f in multiset(others);
    }
    SameEntries(PathMap(files), PathMap(others));
    SameMapSameRoot(sha, files, others);
  }

  predicate Says(m: map<Text, Vec>, path: Text, content: Vec) {
    path in m && m[path] == content
  }

  lemma {:induction false} SameEntries(m: map<Text, Vec>, n: map<Text, Vec>)
    requires forall p, c :: Says(m, p, c) <==> Says(n, p, c)
    ensures m == n
  {
    forall p | p in m || p in n ensures p in m && p in n && m[p] == n[p] {
      assert p in m ==> Says(m, p, m[p]) && Says(n, p, m[p]);
      assert p in n ==> Says(n, p, n[p]) && Says(m, p, n[p]);
    }
    assert m.Keys == n.Keys;
  }

  // ----- the root decides the map -----

  /** The octets of every block belong to the collection. */
  ghost predicate Kept(blocks: seq<Block>, strings: set<Octets>) {
    forall b :: b in blocks ==> b.bytes in strings
  }

  ghost predicate TreeKept(sha: Hash, leaves: seq<Leaf>, strings: set<Octets>) {
    && Build(sha, leaves).Ok?
    && Kept(Build(sha, leaves).value.blocks, strings)
    && forall leaf :: leaf in leaves ==> Kept(FileBlocks(sha, leaf.content).blocks, strings)
  }

  /** Equal node octets mean equal links and equal data. */
  lemma {:induction false} NodeInjective(a: seq<Link>, x: Octets, b: seq<Link>, y: Octets)
    requires NodeBytes(a, x) == NodeBytes(b, y)
    requires |x| < U64_LIMIT && |y| < U64_LIMIT
    requires forall i :: 0 <= i < |a| ==> Small(a[i])
    requires forall i :: 0 <= i < |b| ==> Small(b[i])
    ensures x == y && |a| == |b|
    ensures forall i :: 0 <= i < |a| ==> a[i].cid == b[i].cid && a[i].name == b[i].name
  {
    hide NodeBytes, ParseNode, LinkBytes, ToBytes, Admitted;
    forall i | 0 <= i < |a| ensures Fits(a[i]) {
      SmallFits(a[i]);
    }
    forall i | 0 <= i < |b| ensures Fits(b[i]) {
      SmallFits(b[i]);
    }
    NodeReadsBack(a, x);
    NodeReadsBack(b, y);
    assert SeenAll(a) == SeenAll(b) && |SeenAll(a)| == |a|;
    forall i | 0 <= i < |a| ensures a[i].cid == b[i].cid && a[i].name == b[i].name {
      assert SeenAll(a)[i] == Seen(a[i]) && SeenAll(b)[i] == Seen(b[i]);
      ToBytesInjective(a[i].cid, b[i].cid);
    }
  }

  lemma {:induction false} PiecesBound(sha: Hash, a: seq<Vec>, b: seq<Vec>, strings: set<Octets>)
    requires |a| == |b| && NoCollision(sha, strings)
    requires Kept(RawBlocks(sha, a), strings) && Kept(RawBlocks(sha, b), strings)
    requires forall i :: 0 <= i < |a| ==> RawFromBytes(sha, a[i]) == RawFromBytes(sha, b[i])
    ensures a == b
  {
    forall i | 0 <= i < |a| ensures a[i] == b[i] {
      assert RawBlocks(sha, a)[i] in RawBlocks(sha, a) && RawBlocks(sha, b)[i] in RawBlocks(sha, b);
    }
  }

  lemma {:induction false} FileParts(sha: Hash, content: Vec, strings: set<Octets>)
    requires Kept(FileBlocks(sha, content).blocks, strings)
    ensures if |content| <= CHUNK_BYTES then
              content in strings && FileBlocks(sha, content).cid == RawFromBytes(sha, content)
            else
              var pieces := Chunks(content);
              && Kept(RawBlocks(sha, pieces), strings)
              && FileNode(sha, pieces).bytes in strings
              && FileBlocks(sha, content).cid == FileNode(sha, pieces).cid
  {
    hide NodeBytes, UnixfsFile;
    if |content| <= CHUNK_BYTES {
      assert RawBlock(sha, content) in FileBlocks(sha, content).blocks;
    } else {
      var pieces := Chunks(content);
      var blocks := FileBlocks(sha, content).blocks;
      assert FileNode(sha, pieces) in blocks;
      forall b | b in RawBlocks(sha, pieces) ensures b.bytes in strings {
        assert b in blocks;
      }
    }
  }

  /** Without collisions a file's identifier determines its content. */
  lemma {:induction false} FileBound(sha: Hash, a: Vec, b: Vec, strings: set<Octets>)
    requires NoCollision(sha, strings) && FileBlocks(sha, a).cid == FileBlocks(sha, b).cid
    requires Kept(FileBlocks(sha, a).blocks, strings) && Kept(FileBlocks(sha, b).blocks, strings)
    ensures a == b
  {
    hide FileBlocks, NodeBytes, UnixfsFile, Chunks;
    FileParts(sha, a, strings);
    FileParts(sha, b, strings);
    if |a| > CHUNK_BYTES && |b| > CHUNK_BYTES {
      var p, q := Chunks(a), Chunks(b);
      FileDataFits(a, Sizes(p));
      FileDataFits(b, Sizes(q));
      var x, y := ChunkLinks(sha, p), ChunkLinks(sha, q);
      NodeInjective(x, UnixfsFile(Sizes(p)), y, UnixfsFile(Sizes(q)));
      forall i | 0 <= i < |p| ensures RawFromBytes(sha, p[i]) == RawFromBytes(sha, q[i]) {
        assert x[i].cid == y[i].cid;
      }
      PiecesBound(sha, p, q, strings);
      ChunksJoin(a);
      ChunksJoin(b);
    }
  }

  lemma {:induction false} NodeKept(sha: Hash, leaves: seq<Leaf>, strings: set<Octets>)
    requires TreeKept(sha, leaves, strings)
    ensures Build(sha, leaves).Ok?
    ensures DirectoryBytes(Entries(sha, leaves)) in strings && WellNamed(Entries(sha, leaves))
    ensures Build(sha, leaves).value.cid == DagPbBlock(sha, DirectoryBytes(Entries(sha, leaves))).cid
    ensures forall l :: l in Sort(NameOf, Entries(sha, leaves)) ==> l in Entries(sha, leaves) && Small(l)
  {
    hide Build, DirectoryBytes;
    var entries := Entries(sha, leaves);
    BuiltFrom(sha, leaves);
    EntriesSmall(sha, leaves);
    assert EntryNode(sha, entries) in Build(sha, leaves).value.blocks;
    forall l | l in Sort(NameOf, entries) ensures l in entries && Small(l) {
      SortMembers(NameOf, entries, l);
    }
  }

  /** Without collisions a file and a directory never share an identifier. */
  lemma {:induction false} KindBound(sha: Hash, content: Vec, leaves: seq<Leaf>, strings: set<Octets>)
    requires NoCollision(sha, strings)
    requires Kept(FileBlocks(sha, content).blocks, strings) && TreeKept(sha, leaves, strings)
    ensures FileBlocks(sha, content).cid != Build(sha, leaves).value.cid
  {
    hide Build, FileBlocks, NodeBytes, UnixfsFile, Chunks, Sort, TreeKept;
    FileParts(sha, content, strings);
    NodeKept(sha, leaves, strings);
    if |content| > CHUNK_BYTES && FileBlocks(sha, content).cid == Build(sha, leaves).value.cid {
      var pieces, sorted := Chunks(content), Sort(NameOf, Entries(sha, leaves));
      FileDataFits(content, Sizes(pieces));
      DirectoryReadsBack();
      FileReadsBack(Sizes(pieces));
      NodeInjective(ChunkLinks(sha, pieces), UnixfsFile(Sizes(pieces)), sorted, UnixfsDirectory());
    }
  }

  /** Without collisions two directories of the same identifier have the same names leading to the same
      identifiers. */
  lemma {:induction false} EntryBound(sha: Hash, leaves: seq<Leaf>, others: seq<Leaf>, strings: set<Octets>, link: Link)
    returns (other: Link)
    requires NoCollision(sha, strings) && TreeKept(sha, leaves, strings) && TreeKept(sha, others, strings)
    requires Build(sha, leaves).value.cid == Build(sha, others).value.cid
    requires link in Entries(sha, leaves)
    ensures other in Entries(sha, others) && other.name == link.name && other.cid == link.cid
  {
    hide Build, NodeBytes, Sort, TreeKept, UnixfsDirectory, Entries;
    NodeKept(sha, leaves, strings);
    NodeKept(sha, others, strings);
    var a, b := Sort(NameOf, Entries(sha, leaves)), Sort(NameOf, Entries(sha, others));
    DirectoryReadsBack();
    NodeInjective(a, UnixfsDirectory(), b, UnixfsDirectory());
    SortMembers(NameOf, Entries(sha, leaves), link);
    var i :| 0 <= i < |a| && a[i] == link;
    other := b[i];
  }

  lemma {:induction false} TreeKeptBelow(sha: Hash, leaves: seq<Leaf>, name: Text, strings: set<Octets>)
    requires TreeKept(sha, leaves, strings) && Descends(leaves, name)
    ensures TreeKept(sha, Descend(leaves, name), strings)
  {
    hide Build, FileBlocks;
    SubtreeEntry(sha, leaves, name);
    forall leaf | leaf in Descend(leaves, name) ensures Kept(FileBlocks(sha, leaf.content).blocks, strings) {
      DescendHas(leaves, name, leaf);
    }
  }

  /** Equal identifiers, equal contents at every path. */
  lemma {:induction false} TreeBound(sha: Hash, leaves: seq<Leaf>, others: seq<Leaf>, strings: set<Octets>,
                                     steps: seq<Octets>, content: Octets)
    requires NoCollision(sha, strings) && TreeKept(sha, leaves, strings) && TreeKept(sha, others, strings)
    requires Build(sha, leaves).value.cid == Build(sha, others).value.cid
    requires Maps(leaves, steps, content)
    ensures Maps(others, steps, content)
    decreases |steps|
  {
    hide Build, FileBlocks, Maps, Entries, NoCollision;
    var name, rest := MappedStep(leaves, steps, content);
    assert steps == [name] + rest;
    if |rest| == 0 {
      assert steps == [name];
      MapsHere(leaves, name, content);
      var leaf :| leaf in leaves && Here(leaf) && leaf.name == name && leaf.content == content;
      FileEntry(sha, leaves, leaf);
      var other := EntryBound(sha, leaves, others, strings, LeafLink(sha, leaf));
      EntryOrigin(sha, others, other);
      if IsSubtree(sha, others, other) {
        TreeKeptBelow(sha, others, other.name, strings);
        KindBound(sha, leaf.content, Descend(others, other.name), strings);
        assert false;
      }
      var file :| file in others && Here(file) && other == LeafLink(sha, file);
      FileBound(sha, leaf.content, file.content, strings);
      MapsHere(others, name, content);
    } else {
      MapsBelow(leaves, name, rest, content);
      SubtreeEntry(sha, leaves, name);
      TreeKeptBelow(sha, leaves, name, strings);
      var sub := Build(sha, Descend(leaves, name)).value;
      var other := EntryBound(sha, leaves, others, strings, Link(sub.cid, name, sub.tsize));
      EntryOrigin(sha, others, other);
      if !IsSubtree(sha, others, other) {
        var file :| file in others && Here(file) && other == LeafLink(sha, file);
        KindBound(sha, file.content, Descend(leaves, name), strings);
        assert false;
      }
      TreeKeptBelow(sha, others, name, strings);
      TreeBound(sha, Descend(leaves, name), Descend(others, name), strings, rest, content);
      MapsBelow(others, name, rest, content);
    }
  }

  lemma {:induction false} MappedStep(leaves: seq<Leaf>, steps: seq<Octets>, content: Octets)
    returns (name: Text, rest: seq<Octets>)
    requires Maps(leaves, steps, content)
    ensures steps == [name] + rest
  {
    var leaf :| leaf in leaves && Named(leaf, steps, content);
    name, rest := leaf.name, leaf.below;
  }

  /** All octets of an import. */
  ghost function Strings(sha: Hash, files: seq<SiteFile>): set<Octets>
    requires Import(sha, files).Ok?
  {
    set b | b in Import(sha, files).value.blocks :: b.bytes
  }

  lemma {:induction false} ImportKept(sha: Hash, files: seq<SiteFile>, strings: set<Octets>)
    requires Import(sha, files).Ok? && Strings(sha, files) <= strings
    ensures TreeKept(sha, Leaves(SiteOf(files)), strings)
    ensures Build(sha, Leaves(SiteOf(files))).value.cid == Import(sha, files).value.root
  {
    hide Build, FileBlocksOf, FileBlocks;
    var site := SiteOf(files);
    var leaves := Leaves(site);
    assert Kept(Import(sha, files).value.blocks, strings) by {
      forall b | b in Import(sha, files).value.blocks ensures b.bytes in strings {
        assert b.bytes in Strings(sha, files);
      }
    }
    SiteHolds(files);
    MapFromFiles(files);
    forall leaf | leaf in leaves ensures Kept(FileBlocks(sha, leaf.content).blocks, strings) {
      var i :| 0 <= i < |leaves| && leaves[i] == leaf;
      assert site[i] in site && SiteFile(site[i].path, site[i].content) == site[i];
      FileBlocksAmong(sha, files, site[i]);
    }
  }

  lemma {:induction false} SameRootSubmap(sha: Hash, files: seq<SiteFile>, others: seq<SiteFile>, path: Text)
    requires Import(sha, files).Ok? && Import(sha, others).Ok?
    requires NoCollision(sha, Strings(sha, files) + Strings(sha, others))
    requires Import(sha, files).value.root == Import(sha, others).value.root
    requires path in PathMap(files)
    ensures path in PathMap(others) && PathMap(others)[path] == PathMap(files)[path]
  {
    hide Import, Build, NoCollision, TreeKept, Maps, Split, PathMap, Strings;
    var strings := Strings(sha, files) + Strings(sha, others);
    var steps, content := Split(path), PathMap(files)[path];
    ImportKept(sha, files, strings);
    ImportKept(sha, others, strings);
    assert SiteMaps(files, steps, content);
    LeavesMap(files, steps, content);
    TreeBound(sha, Leaves(SiteOf(files)), Leaves(SiteOf(others)), strings, steps, content);
    LeavesMap(others, steps, content);
    var found :| found in PathMap(others) && Split(found) == steps && PathMap(others)[found] == content;
    SplitInjective(found, path);
  }

  /** Merkle binding: without collisions among the blocks of two imports, the roots are equal exactly
      when the maps are. */
  lemma {:induction false} SameRootIffSameMap(sha: Hash, files: seq<SiteFile>, others: seq<SiteFile>)
    requires Import(sha, files).Ok? && Import(sha, others).Ok?
    requires NoCollision(sha, Strings(sha, files) + Strings(sha, others))
    ensures Import(sha, files).value.root == Import(sha, others).value.root <==> PathMap(files) == PathMap(others)
  {
    hide Import, NoCollision, PathMap, Strings;
    if PathMap(files) == PathMap(others) {
      SameMapSameRoot(sha, files, others);
    }
    if Import(sha, files).value.root == Import(sha, others).value.root {
      assert Strings(sha, files) + Strings(sha, others) == Strings(sha, others) + Strings(sha, files);
      forall p: Text | p in PathMap(files) || p in PathMap(others)
        ensures p in PathMap(files) && p in PathMap(others) && PathMap(files)[p] == PathMap(others)[p]
      {
        if p in PathMap(files) {
          SameRootSubmap(sha, files, others, p);
        } else {
          SameRootSubmap(sha, others, files, p);
        }
      }
      assert PathMap(files).Keys == PathMap(others).Keys;
    }
  }
}
