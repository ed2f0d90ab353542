/** Compiling a set of files into dag-pb and UnixFS blocks (client/src/publish.rs). The functions
    say what the importer builds from a list of leaves, each a path below the current directory;
    the methods run it as the source does, over textual prefixes and a shared vector of blocks. */
module Importer {
  import opened Base
  import opened Utf8
  import opened Cid
  import opened DagPb
  import opened Store
  import opened Ordering

  /** A Rust vector or string holds at most `isize::MAX` octets. */
  const VEC_LIMIT: int := 0x8000_0000_0000_0000

  type Vec = b: Octets | |b| < VEC_LIMIT

  type Text = s: Str | |s| < VEC_LIMIT

  datatype PublishError = BadPath(path: Text) | BadDirectory

  datatype SiteFile = SiteFile(path: Text, content: Vec)

  // ----- one file -----

  /** Pieces of CHUNK_BYTES octets and a last, shorter one; empty content has one empty piece. */
  function Chunks(bytes: Vec): (r: seq<Vec>)
    ensures |r| > 0
    ensures |r| == 1 <==> |bytes| <= CHUNK_BYTES
    decreases |bytes|
  {
    if |bytes| <= CHUNK_BYTES then [bytes] else [bytes[..CHUNK_BYTES]] + Chunks(bytes[CHUNK_BYTES..])
  }

  /** A subtree as its parent sees it, with the blocks it added. */
  datatype Built = Built(blocks: seq<Block>, cid: Cid, tsize: nat)

  function RawBlock(sha: Hash, bytes: Octets): Block {
    Block(RawFromBytes(sha, bytes), bytes)
  }

  function DagPbBlock(sha: Hash, bytes: Octets): Block {
    Block(Cid(CID_VERSION, CODEC_DAG_PB, sha(bytes)), bytes)
  }

  function RawBlocks(sha: Hash, pieces: seq<Vec>): (r: seq<Block>)
    ensures |r| == |pieces| && forall i :: 0 <= i < |pieces| ==> r[i] == RawBlock(sha, pieces[i])
  {
    seq(|pieces|, i requires 0 <= i < |pieces| => RawBlock(sha, pieces[i]))
  }

  function ChunkLinks(sha: Hash, pieces: seq<Vec>): (r: seq<Link>)
    ensures |r| == |pieces|
    ensures forall i :: 0 <= i < |pieces| ==> r[i] == Link(RawFromBytes(sha, pieces[i]), [], |pieces[i]|)
  {
    seq(|pieces|, i requires 0 <= i < |pieces| => Link(RawFromBytes(sha, pieces[i]), [], |pieces[i]|))
  }

  function Sizes(pieces: seq<Vec>): (r: seq<nat>)
    ensures |r| == |pieces| && forall i :: 0 <= i < |pieces| ==> r[i] == |pieces[i]|
  {
    seq(|pieces|, i requires 0 <= i < |pieces| => |pieces[i]|)
  }

  function FileNode(sha: Hash, pieces: seq<Vec>): Block {
    DagPbBlock(sha, NodeBytes(ChunkLinks(sha, pieces), UnixfsFile(Sizes(pieces))))
  }

  function FileBlocks(sha: Hash, content: Vec): Built {
    var pieces := Chunks(content);
    if |pieces| == 1 then
      Built([RawBlock(sha, pieces[0])], RawFromBytes(sha, pieces[0]), |pieces[0]|)
    else
      var node := FileNode(sha, pieces);
      Built(RawBlocks(sha, pieces) + [node], node.cid, |node.bytes| + Sum(Sizes(pieces)))
  }

  // ----- one directory node -----

  function NameOf(link: Link): Octets {
    link.name
  }

  function DirectoryBytes(entries: seq<Link>): Octets {
    NodeBytes(Sort(NameOf, entries), UnixfsDirectory())
  }

  predicate SameName(entries: seq<Link>, i: nat, j: nat)
    requires i < |entries| && j < |entries|
  {
    entries[i].name == entries[j].name
  }

  predicate Unnamed(entries: seq<Link>, i: nat)
    requires i < |entries|
  {
    entries[i].name == []
  }

  predicate WellNamed(entries: seq<Link>) {
    && (forall i, j {:trigger SameName(entries, i, j)} :: 0 <= i < j < |entries| ==> !SameName(entries, i, j))
    && (forall i {:trigger Unnamed(entries, i)} :: 0 <= i < |entries| ==> !Unnamed(entries, i))
  }

  lemma {:induction false} WellNamedDistinct(entries: seq<Link>)
    requires WellNamed(entries)
    ensures Distinct(NameOf, entries)
  {
    forall i, j | 0 <= i < j < |entries| ensures NameOf(entries[i]) != NameOf(entries[j]) {
      assert !SameName(entries, i, j);
    }
  }

  function DirectoryNode(sha: Hash, entries: seq<Link>): Result<Block, PublishError> {
    if WellNamed(entries) then Ok(DagPbBlock(sha, DirectoryBytes(entries))) else Err(BadDirectory)
  }

  // ----- a whole tree -----

  /** A file below the current directory: the first step of its path, the steps below that. */
  datatype Leaf = Leaf(name: Text, below: seq<Text>, content: Vec)

  function LeafLink(sha: Hash, leaf: Leaf): Link {
    var built := FileBlocks(sha, leaf.content);
    Link(built.cid, leaf.name, built.tsize)
  }

  /** The files that lie in this directory itself. */
  function Files(sha: Hash, leaves: seq<Leaf>): seq<Link>
  {
    if |leaves| == 0 then []
    else
      var last := leaves[|leaves| - 1];
      Files(sha, leaves[..|leaves| - 1]) + if last.below == [] then [LeafLink(sha, last)] else []
  }

  /** The names of the directories below this one, in order of first appearance. */
  function Subdirectories(leaves: seq<Leaf>): (r: seq<Text>)
    ensures forall n :: n in r ==> Descends(leaves, n)
  {
    if |leaves| == 0 then []
    else
      var front := Subdirectories(leaves[..|leaves| - 1]);
      var last := leaves[|leaves| - 1];
      if last.below == [] || last.name in front then front else front + [last.name]
  }

  predicate Descends(leaves: seq<Leaf>, name: Text) {
    exists i :: 0 <= i < |leaves| && leaves[i].below != [] && leaves[i].name == name
  }

  /** What lies below the named directory, seen from there. */
  function Descend(leaves: seq<Leaf>, name: Text): seq<Leaf>
  {
    if |leaves| == 0 then []
    else
      var last := leaves[|leaves| - 1];
      Descend(leaves[..|leaves| - 1], name)
      + if last.below != [] && last.name == name then [Leaf(last.below[0], last.below[1..], last.content)] else []
  }

  /** The steps of all paths together: what a descent reduces. */
  function Weight(leaves: seq<Leaf>): nat
  {
    if |leaves| == 0 then 0 else Weight(leaves[..|leaves| - 1]) + 1 + |leaves[|leaves| - 1].below|
  }

  lemma {:induction false} DescendLighter(leaves: seq<Leaf>, name: Text)
    ensures Weight(Descend(leaves, name)) + (if Descends(leaves, name) then 1 else 0) <= Weight(leaves)
  {
    if |leaves| > 0 {
      var front, last := leaves[..|leaves| - 1], leaves[|leaves| - 1];
      DescendLighter(front, name);
      if last.below != [] && last.name == name {
        var leaf := Leaf(last.below[0], last.below[1..], last.content);
        assert (Descend(front, name) + [leaf])[..|Descend(front, name)|] == Descend(front, name);
      } else {
        assert Descend(leaves, name) == Descend(front, name);
        if Descends(leaves, name) {
          var i :| 0 <= i < |leaves| && leaves[i].below != [] && leaves[i].name == name;
          assert front[i] == leaves[i];
        }
      }
    }
  }

  /** The subdirectories built so far: their blocks in order and the links to them. */
  datatype Subtrees = Subtrees(blocks: seq<Block>, links: seq<Link>)

  function TotalSize(entries: seq<Link>): nat
  {
    if |entries| == 0 then 0 else TotalSize(entries[..|entries| - 1]) + entries[|entries| - 1].tsize
  }

  function Finish(sha: Hash, blocks: seq<Block>, entries: seq<Link>): Result<Built, PublishError> {
    var node :- DirectoryNode(sha, entries);
    Ok(Built(blocks + [node], node.cid, |node.bytes| + TotalSize(entries)))
  }

  function Build(sha: Hash, leaves: seq<Leaf>): Result<Built, PublishError>
    decreases Weight(leaves), 1, 0
  {
    var Subtrees(blocks, links) :- BuildSubtrees(sha, leaves, Subdirectories(leaves));
    Finish(sha, blocks, Files(sha, leaves) + links)
  }

  function BuildSubtrees(sha: Hash, leaves: seq<Leaf>, names: seq<Text>): Result<Subtrees, PublishError>
    requires forall n :: n in names ==> Descends(leaves, n)
    decreases Weight(leaves), 0, |names|
  {
    if |names| == 0 then Ok(Subtrees([], []))
    else
      var name := names[|names| - 1];
      var Subtrees(blocks, links) :- BuildSubtrees(sha, leaves, names[..|names| - 1]);
      DescendLighter(leaves, name);
      var Built(more, cid, tsize) :- Build(sha, Descend(leaves, name));
      Ok(Subtrees(blocks + more, links + [Link(cid, name, tsize)]))
  }

  // ----- paths -----

  const SLASH: byte := '/' as int

  predicate IsSlash(s: Octets, j: nat)
    requires j < |s|
  {
    s[j] == SLASH
  }

  /** No separator before position `k`. */
  predicate SlashFree(s: Octets, k: nat)
    requires k <= |s|
  {
    forall j {:trigger IsSlash(s, j)} :: 0 <= j < k ==> !IsSlash(s, j)
  }

  /** The position of the first separator, or the length when there is none. */
  function SlashAt(s: Octets): (k: nat)
    ensures k <= |s| && SlashFree(s, k) && (k < |s| ==> IsSlash(s, k))
  {
    SlashFrom(s, 0)
  }

  function SlashFrom(s: Octets, i: nat): (k: nat)
    requires i <= |s| && SlashFree(s, i)
    ensures i <= k <= |s| && SlashFree(s, k) && (k < |s| ==> IsSlash(s, k))
    decreases |s| - i
  {
    if i == |s| || IsSlash(s, i) then i else SlashFrom(s, i + 1)
  }

  lemma {:induction false} CutText(s: Text, k: nat)
    requires k < |s| && IsSlash(s, k)
    ensures ValidUtf8(s[..k]) && ValidUtf8(s[k + 1..])
  {
    assert s == s[..k] + [SLASH] + s[k + 1..];
    CutAtAscii(s[..k], SLASH, s[k + 1..]);
  }

  /** Rust's `split('/')`: one part more than there are separators. */
  function Split(s: Text): (r: seq<Text>)
    ensures |r| > 0
    decreases |s|
  {
    var k := SlashAt(s);
    if k == |s| then [s]
    else
      CutText(s, k);
      [s[..k]] + Split(s[k + 1..])
  }

  predicate BadPart(part: Octets) {
    part == [] || part == ['.' as int] || part == ['.' as int, '.' as int]
  }

  predicate GoodPath(path: Text) {
    forall i :: 0 <= i < |Split(path)| ==> !BadPart(Split(path)[i])
  }

  function FirstBad(files: seq<SiteFile>): Option<Text>
  {
    if |files| == 0 then None
    else
      match FirstBad(files[..|files| - 1])
      case Some(p) => Some(p)
      case None =>
        var last := files[|files| - 1];
        if GoodPath(last.path) then None else Some(last.path)
  }

  // ----- the ordered path map -----

  function PathOf(file: SiteFile): Octets {
    file.path
  }

  /** The path map the files leave behind, in path order: a later file replaces an earlier one of the
      same path. */
  function SiteOf(files: seq<SiteFile>): seq<SiteFile>
  {
    if |files| == 0 then [] else Place(PathOf, SiteOf(files[..|files| - 1]), files[|files| - 1])
  }

  function LeafOf(path: Text, content: Vec): Leaf {
    var parts := Split(path);
    Leaf(parts[0], parts[1..], content)
  }

  function Leaves(site: seq<SiteFile>): (r: seq<Leaf>)
    ensures |r| == |site| && forall i :: 0 <= i < |site| ==> r[i] == LeafOf(site[i].path, site[i].content)
  {
    seq(|site|, i requires 0 <= i < |site| => LeafOf(site[i].path, site[i].content))
  }

  function FileBlocksOf(sha: Hash, files: seq<SiteFile>): seq<Block>
  {
    if |files| == 0 then []
    else FileBlocksOf(sha, files[..|files| - 1]) + FileBlocks(sha, files[|files| - 1].content).blocks
  }

  datatype Imported = Imported(blocks: seq<Block>, root: Cid)

  function Import(sha: Hash, files: seq<SiteFile>): Result<Imported, PublishError> {
    match FirstBad(files)
    case Some(path) => Err(BadPath(path))
    case None =>
      var built :- Build(sha, Leaves(SiteOf(files)));
      Ok(Imported(FileBlocksOf(sha, files) + built.blocks, built.cid))
  }
}
