/** Compile, file, read back: what the walker returns from the blocks the importer made, for every
    path and every choice of limits. */
module SiteRead {
  import opened Base
  import opened Utf8
  import opened Cid
  import opened DagPb
  import opened Store
  import opened Ordering
  import opened Importer
  import opened ImporterRun
  import opened TreeShape
  import opened Walker

  ghost predicate Held(sha: Hash, disk: Disk, blocks: seq<Block>) {
    forall b :: b in blocks ==> Holds(sha, disk, b)
  }

  // ----- a node read back -----

  function DirEntry(link: Link): DirLink {
    DirLink(link.cid, link.name, link.tsize % U64_LIMIT)
  }

  function DirEntries(links: seq<Link>): (r: seq<DirLink>)
    ensures |r| == |links| && forall i :: 0 <= i < |links| ==> r[i] == DirEntry(links[i])
  {
    seq(|links|, i requires 0 <= i < |links| => DirEntry(links[i]))
  }

  lemma {:induction false} LinksReadBack(links: seq<Link>)
    requires forall i :: 0 <= i < |links| ==> Admitted(links[i].cid)
    ensures DirLinks(SeenAll(links)) == Ok(DirEntries(links))
  {
    hide ToBytes, FromBytes;
    if |links| > 0 {
      LinksReadBack(links[1..]);
      assert SeenAll(links)[1..] == SeenAll(links[1..]);
      BytesRoundTrip(links[0].cid);
      assert DirEntries(links) == [DirEntry(links[0])] + DirEntries(links[1..]);
    }
  }

  /** A held node reads as its kind and its links say. */
  lemma {:induction false} HeldNode(sha: Hash, disk: Disk, links: seq<Link>, data: Octets, kind: u64,
                                    limits: WalkLimits)
    requires Holds(sha, disk, DagPbBlock(sha, NodeBytes(links, data)))
    requires |data| < U64_LIMIT && ParseUnixfs(data) == Some(Unixfs(kind, []))
    requires forall i :: 0 <= i < |links| ==> Small(links[i])
    ensures ReadNode(sha, disk, DagPbBlock(sha, NodeBytes(links, data)).cid, limits)
         == Classify(kind, [], SeenAll(links), limits)
  {
    hide NodeBytes, ParseNode, ParseUnixfs, Classify, LinkBytes;
    forall i | 0 <= i < |links| ensures Fits(links[i]) {
      SmallFits(links[i]);
    }
    NodeReadsBack(links, data);
  }

  lemma {:induction false} HeldDirectory(sha: Hash, disk: Disk, entries: seq<Link>, limits: WalkLimits)
    requires Holds(sha, disk, EntryNode(sha, entries))
    requires forall l :: l in entries ==> Small(l)
    ensures ReadNode(sha, disk, EntryNode(sha, entries).cid, limits)
         == if |entries| > limits.maxLinksPerNode then Err(BoundExceeded)
            else Ok(Directory(DirEntries(Sort(NameOf, entries))))
  {
    hide NodeBytes, UnixfsDirectory, ParseUnixfs, DirLinks, ReadNode, Holds, Sort, DirEntries, SeenAll;
    var sorted := Sort(NameOf, entries);
    forall i | 0 <= i < |sorted| ensures Small(sorted[i]) {
      SortMembers(NameOf, entries, sorted[i]);
    }
    DirectoryReadsBack();
    HeldNode(sha, disk, sorted, UnixfsDirectory(), UNIXFS_DIRECTORY, limits);
    LinksReadBack(sorted);
  }

  // ----- finding an entry -----

  lemma {:induction false} FindsFirst(entries: seq<DirLink>, name: Octets, i: nat)
    requires i < |entries| && entries[i].name == name
    requires forall j :: 0 <= j < i ==> entries[j].name != name
    ensures FindEntry(entries, name) == Some(entries[i].cid)
  {
    if i > 0 {
      FindsFirst(entries[1..], name, i - 1);
    }
  }

  lemma {:induction false} FindsOnlyNamed(entries: seq<DirLink>, name: Octets)
    requires FindEntry(entries, name).Some?
    ensures exists i :: 0 <= i < |entries| && entries[i].name == name
                        && Some(entries[i].cid) == FindEntry(entries, name)
  {
    if entries[0].name != name {
      FindsOnlyNamed(entries[1..], name);
      var i :| 0 <= i < |entries[1..]| && entries[1..][i].name == name
               && Some(entries[1..][i].cid) == FindEntry(entries[1..], name);
      assert entries[i + 1] == entries[1..][i];
    }
  }

  /** Looking a name up in a sorted directory finds its link whatever the order of the links was. */
  lemma {:induction false} FindsLink(entries: seq<Link>, link: Link)
    requires WellNamed(entries) && link in entries
    ensures FindEntry(DirEntries(Sort(NameOf, entries)), link.name) == Some(link.cid)
  {
    var sorted := Sort(NameOf, entries);
    WellNamedDistinct(entries);
    SortPermutes(NameOf, entries);
    DistinctPermuted(NameOf, entries, sorted);
    SortMembers(NameOf, entries, link);
    var i :| 0 <= i < |sorted| && sorted[i] == link;
    forall j | 0 <= j < i ensures DirEntries(sorted)[j].name != link.name {
      assert NameOf(sorted[j]) != NameOf(sorted[i]);
    }
    FindsFirst(DirEntries(sorted), link.name, i);
  }

  lemma {:induction false} FoundLink(entries: seq<Link>, name: Octets) returns (link: Link)
    requires FindEntry(DirEntries(Sort(NameOf, entries)), name).Some?
    ensures link in entries && link.name == name
    ensures FindEntry(DirEntries(Sort(NameOf, entries)), name) == Some(link.cid)
  {
    var sorted := Sort(NameOf, entries);
    FindsOnlyNamed(DirEntries(sorted), name);
    var i :| 0 <= i < |sorted| && DirEntries(sorted)[i].name == name
             && Some(DirEntries(sorted)[i].cid) == FindEntry(DirEntries(sorted), name);
    link := sorted[i];
    SortMembers(NameOf, entries, link);
  }

  // ----- one file -----

  /** How many pieces content of this length is cut into. */
  function PieceCount(length: nat): nat {
    if length == 0 then 1 else (length + CHUNK_BYTES - 1) / CHUNK_BYTES
  }

  lemma {:induction false} PiecesCounted(content: Vec)
    ensures |Chunks(content)| == PieceCount(|content|)
    decreases |content|
  {
    if |content| > CHUNK_BYTES {
      PiecesCounted(content[CHUNK_BYTES..]);
      assert (|content| + CHUNK_BYTES - 1) / CHUNK_BYTES == 1 + (|content| - 1) / CHUNK_BYTES;
    }
  }

  /** What a file may be to read back: one piece needs one node of the budget; more need one each, one
      for the node above them, and the resource bound. */
  predicate FileWithin(length: nat, limits: WalkLimits, budget: nat) {
    if length <= CHUNK_BYTES then budget >= 1
    else budget >= 1 + PieceCount(length) && length <= limits.maxResourceBytes
  }

  function PieceCids(sha: Hash, pieces: seq<Vec>): (r: seq<Cid>)
    ensures |r| == |pieces| && forall i :: 0 <= i < |pieces| ==> r[i] == RawFromBytes(sha, pieces[i])
  {
    seq(|pieces|, i requires 0 <= i < |pieces| => RawFromBytes(sha, pieces[i]))
  }

  /** One raw piece costs one node. */
  lemma {:induction false} HeldPiece(sha: Hash, disk: Disk, piece: Octets, limits: WalkLimits, budget: nat)
    requires Holds(sha, disk, RawBlock(sha, piece))
    ensures ReadNode(sha, disk, RawFromBytes(sha, piece), limits) == Ok(Raw(piece))
    ensures AssembleFile(sha, disk, RawFromBytes(sha, piece), limits, budget)
         == if budget == 0 then Assembled(Err(TooDeep), 0) else Assembled(Ok(piece), budget - 1)
  {
  }

  lemma {:induction false} PiecesAssemble(sha: Hash, disk: Disk, pieces: seq<Vec>, out: Octets, limits: WalkLimits,
                                          budget: nat)
    requires forall i :: 0 <= i < |pieces| ==> Holds(sha, disk, RawBlock(sha, pieces[i]))
    ensures var r := AssembleChildren(sha, disk, PieceCids(sha, pieces), out, limits, budget).result;
            if budget >= |pieces| && (pieces == [] || |out + Joined(pieces)| <= limits.maxResourceBytes)
            then r == Ok(out + Joined(pieces)) else r.Err?
    decreases |pieces|
  {
    if |pieces| == 0 {
      assert out + Joined(pieces) == out;
    } else {
      var cids := PieceCids(sha, pieces);
      HeldPiece(sha, disk, pieces[0], limits, budget);
      assert cids[1..] == PieceCids(sha, pieces[1..]);
      assert out + Joined(pieces) == (out + pieces[0]) + Joined(pieces[1..]);
      if budget > 0 && |out + pieces[0]| <= limits.maxResourceBytes {
        PiecesAssemble(sha, disk, pieces[1..], out + pieces[0], limits, budget - 1);
        if |pieces| == 1 {
          assert Joined(pieces[1..]) == [];
        }
      }
    }
  }

  lemma {:induction false} HeldFileNode(sha: Hash, disk: Disk, content: Vec, limits: WalkLimits)
    requires Held(sha, disk, FileBlocks(sha, content).blocks) && |content| > CHUNK_BYTES
    ensures ReadNode(sha, disk, FileBlocks(sha, content).cid, limits)
         == Ok(File([], PieceCids(sha, Chunks(content))))
  {
    hide NodeBytes, ParseUnixfs, UnixfsFile, DirLinks, ReadNode, Holds, Chunks, ChunkLinks, Sizes, RawBlocks,
         PieceCids, DirEntries, SeenAll, Targets;
    var pieces := Chunks(content);
    var links, data := ChunkLinks(sha, pieces), UnixfsFile(Sizes(pieces));
    var node := FileNode(sha, pieces);
    assert node in FileBlocks(sha, content).blocks;
    FileDataFits(content, Sizes(pieces));
    FileReadsBack(Sizes(pieces));
    HeldNode(sha, disk, links, data, UNIXFS_FILE, limits);
    LinksReadBack(links);
    assert Targets(DirEntries(links)) == PieceCids(sha, pieces);
  }

  /** A file whose blocks are held reads back exactly when it is within the limits. */
  lemma {:induction false} HeldFile(sha: Hash, disk: Disk, content: Vec, limits: WalkLimits, budget: nat)
    requires Held(sha, disk, FileBlocks(sha, content).blocks)
    ensures var r := AssembleFile(sha, disk, FileBlocks(sha, content).cid, limits, budget).result;
            if FileWithin(|content|, limits, budget) then r == Ok(content) else r.Err?
  {
    hide NodeBytes, UnixfsFile;
    var pieces := Chunks(content);
    PiecesCounted(content);
    ChunksJoin(content);
    if |content| <= CHUNK_BYTES {
      assert RawBlock(sha, content) in FileBlocks(sha, content).blocks;
      HeldPiece(sha, disk, content, limits, budget);
    } else {
      HeldFileNode(sha, disk, content, limits);
      forall i | 0 <= i < |pieces| ensures Holds(sha, disk, RawBlock(sha, pieces[i])) {
        assert RawBlocks(sha, pieces)[i] in FileBlocks(sha, content).blocks;
      }
      if budget > 0 {
        PiecesAssemble(sha, disk, pieces, [], limits, budget - 1);
        assert [] + Joined(pieces) == content;
      }
    }
  }

  /** A file is not a directory: no path continues below it. */
  lemma {:induction false} HeldFileIsLeaf(sha: Hash, disk: Disk, content: Vec, limits: WalkLimits)
    requires Held(sha, disk, FileBlocks(sha, content).blocks)
    ensures var r := ReadNode(sha, disk, FileBlocks(sha, content).cid, limits);
            r.Ok? && !r.value.Directory?
  {
    hide NodeBytes, UnixfsFile;
    if |content| <= CHUNK_BYTES {
      assert RawBlock(sha, content) in FileBlocks(sha, content).blocks;
      HeldPiece(sha, disk, content, limits, 1);
    } else {
      HeldFileNode(sha, disk, content, limits);
    }
  }

  // ----- one directory and below -----

  /** Every file block a tree refers to and every node built for it is held. */
  ghost predicate TreeHeld(sha: Hash, disk: Disk, leaves: seq<Leaf>) {
    && Build(sha, leaves).Ok?
    && Held(sha, disk, Build(sha, leaves).value.blocks)
    && forall leaf :: leaf in leaves ==> Held(sha, disk, FileBlocks(sha, leaf.content).blocks)
  }

  lemma {:induction false} TreeHeldBelow(sha: Hash, disk: Disk, leaves: seq<Leaf>, name: Text)
    requires TreeHeld(sha, disk, leaves) && Descends(leaves, name)
    ensures TreeHeld(sha, disk, Descend(leaves, name))
  {
    hide Build, FileBlocks;
    SubtreeEntry(sha, leaves, name);
    forall leaf | leaf in Descend(leaves, name) ensures Held(sha, disk, FileBlocks(sha, leaf.content).blocks) {
      DescendHas(leaves, name, leaf);
    }
  }

  lemma {:induction false} HeldTree(sha: Hash, disk: Disk, leaves: seq<Leaf>, limits: WalkLimits)
    requires TreeHeld(sha, disk, leaves)
    ensures ReadNode(sha, disk, Build(sha, leaves).value.cid, limits)
         == if |NamesHere(leaves)| > limits.maxLinksPerNode then Err(BoundExceeded)
            else Ok(Directory(DirEntries(Sort(NameOf, Entries(sha, leaves)))))
  {
    hide Build, EntryNode;
    BuiltFrom(sha, leaves);
    EntriesSmall(sha, leaves);
    EntryCount(sha, leaves);
    assert EntryNode(sha, Entries(sha, leaves)) in Build(sha, leaves).value.blocks;
    HeldDirectory(sha, disk, Entries(sha, leaves), limits);
  }

  /** Every directory on the way to a path has no more different names than a node may have links. */
  predicate DirectoriesWithin(leaves: seq<Leaf>, steps: seq<Octets>, limits: WalkLimits)
    decreases |steps|
  {
    && |NamesHere(leaves)| <= limits.maxLinksPerNode
    && (|steps| > 1 ==> IsText(steps[0]) && DirectoriesWithin(Descend(leaves, steps[0]), steps[1..], limits))
  }

  predicate IsText(s: Octets) {
    ValidUtf8(s) && |s| < VEC_LIMIT
  }

  /** What a path must be to read back as this content. */
  ghost predicate Readable(leaves: seq<Leaf>, steps: seq<Octets>, content: Octets, limits: WalkLimits) {
    && Maps(leaves, steps, content)
    && DirectoriesWithin(leaves, steps, limits)
    && FileWithin(|content|, limits, limits.maxDepth)
  }

  /** What reading makes of the last step of a path. */
  lemma {:induction false} LastStep(sha: Hash, disk: Disk, leaves: seq<Leaf>, name: Octets, content: Octets,
                                    limits: WalkLimits)
    requires TreeHeld(sha, disk, leaves)
    ensures ReadFrom(sha, disk, Build(sha, leaves).value.cid, [name], limits) == Ok(content)
       <==> Readable(leaves, [name], content, limits)
  {
    hide Build, FileBlocks, AssembleFile, Sort, GetFrom, Interpret, Entries, DirEntries;
    var entries := Entries(sha, leaves);
    BuiltFrom(sha, leaves);
    HeldTree(sha, disk, leaves, limits);
    MapsHere(leaves, name, content);
    if Readable(leaves, [name], content, limits) {
      var leaf :| leaf in leaves && Here(leaf) && leaf.name == name && leaf.content == content;
      FileEntry(sha, leaves, leaf);
      FindsLink(entries, LeafLink(sha, leaf));
      HeldFile(sha, disk, leaf.content, limits, limits.maxDepth);
    }
    if ReadFrom(sha, disk, Build(sha, leaves).value.cid, [name], limits) == Ok(content) {
      var link := FoundLink(entries, name);
      EntryOrigin(sha, leaves, link);
      if IsSubtree(sha, leaves, link) {
        TreeHeldBelow(sha, disk, leaves, link.name);
        NotAFile(sha, disk, Descend(leaves, link.name), limits);
        assert false;
      }
      var leaf :| leaf in leaves && Here(leaf) && link == LeafLink(sha, leaf);
      HeldFile(sha, disk, leaf.content, limits, limits.maxDepth);
    }
  }

  /** A directory does not assemble. */
  lemma {:induction false} NotAFile(sha: Hash, disk: Disk, leaves: seq<Leaf>, limits: WalkLimits)
    requires TreeHeld(sha, disk, leaves)
    ensures AssembleFile(sha, disk, Build(sha, leaves).value.cid, limits, limits.maxDepth).result.Err?
  {
    hide Build, Sort, GetFrom, Interpret, Entries, DirEntries;
    HeldTree(sha, disk, leaves, limits);
  }

  /** What reading makes of a step that is not the last. */
  lemma {:induction false} FirstOfMany(sha: Hash, disk: Disk, leaves: seq<Leaf>, name: Octets, steps: seq<Octets>,
                                       content: Octets, limits: WalkLimits)
    requires TreeHeld(sha, disk, leaves) && |steps| > 0
    ensures if IsText(name) && Descends(leaves, name) && |NamesHere(leaves)| <= limits.maxLinksPerNode then
              && TreeHeld(sha, disk, Descend(leaves, name))
              && ReadFrom(sha, disk, Build(sha, leaves).value.cid, [name] + steps, limits)
              == ReadFrom(sha, disk, Build(sha, Descend(leaves, name)).value.cid, steps, limits)
            else
              ReadFrom(sha, disk, Build(sha, leaves).value.cid, [name] + steps, limits).Err?
  {
    hide Build, FileBlocks, AssembleFile, Sort, GetFrom, Interpret, Entries, DirEntries;
    var entries := Entries(sha, leaves);
    BuiltFrom(sha, leaves);
    HeldTree(sha, disk, leaves, limits);
    assert ([name] + steps)[0] == name && ([name] + steps)[1..] == steps;
    if IsText(name) && Descends(leaves, name) {
      TreeHeldBelow(sha, disk, leaves, name);
      SubtreeEntry(sha, leaves, name);
      var sub := Build(sha, Descend(leaves, name)).value;
      FindsLink(entries, Link(sub.cid, name, sub.tsize));
    } else if FindEntry(DirEntries(Sort(NameOf, entries)), name).Some? {
      var link := FoundLink(entries, name);
      EntryOrigin(sha, leaves, link);
      var leaf :| leaf in leaves && Here(leaf) && link == LeafLink(sha, leaf);
      HeldFileIsLeaf(sha, disk, leaf.content, limits);
    }
  }

  /** A tree whose blocks are held returns, for a list of steps, exactly the content it maps them to,
      and that exactly within the limits. */
  lemma {:induction false} TreeReadsBack(sha: Hash, disk: Disk, leaves: seq<Leaf>, steps: seq<Octets>, content: Octets,
                                         limits: WalkLimits)
    requires TreeHeld(sha, disk, leaves) && |steps| > 0
    ensures ReadFrom(sha, disk, Build(sha, leaves).value.cid, steps, limits) == Ok(content)
       <==> Readable(leaves, steps, content, limits)
    decreases |steps|
  {
    hide Build, ReadFrom, Maps, TreeHeld, FileWithin, NamesHere, Descends;
    var name, rest := steps[0], steps[1..];
    assert steps == [name] + rest;
    if |steps| == 1 {
      assert steps == [name];
      LastStep(sha, disk, leaves, name, content, limits);
    } else {
      FirstOfMany(sha, disk, leaves, name, rest, content, limits);
      if IsText(name) {
        MapsBelow(leaves, name, rest, content);
        if Descends(leaves, name) && |NamesHere(leaves)| <= limits.maxLinksPerNode {
          TreeReadsBack(sha, disk, Descend(leaves, name), rest, content, limits);
        }
      }
    }
  }
}
