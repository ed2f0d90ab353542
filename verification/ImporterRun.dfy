/** The importer as the source runs it: writers that append, a file's chunk loop, the path map filled
    file by file, and the recursion over textual prefixes that pushes into one shared vector. Each
    method is proved against the functions of modules DagPb and Importer. */
module ImporterRun {
  import opened Base
  import Varint
  import opened Cid
  import opened DagPb
  import opened Store
  import opened Ordering
  import opened Importer

  // ----- writers -----

  method Tag(field: nat, wire: nat, out: Octets) returns (r: Octets)
    requires field < 16 && wire < 8
    ensures r == out + Varint.Write(field * 8 + wire)
  {
    r := Varint.WriteInto(field * 8 + wire, out);
  }

  method LengthDelimited(field: nat, payload: Octets, out: Octets) returns (r: Octets)
    requires field < 16 && |payload| < U64_LIMIT
    ensures r == out + BytesField(field, payload)
  {
    r := Tag(field, 2, out);
    r := Varint.WriteInto(|payload|, r);
    r := r + payload;
  }

  method VarintField(field: nat, value: u64, out: Octets) returns (r: Octets)
    requires field < 16
    ensures r == out + NumberField(field, value)
  {
    r := Tag(field, 0, out);
    r := Varint.WriteInto(value, r);
  }

  method DirectoryData() returns (out: Octets)
    ensures out == UnixfsDirectory()
  {
    out := VarintField(1, UNIXFS_DIRECTORY, []);
  }

  lemma {:induction false} SumStep(sizes: seq<nat>, i: nat)
    requires i < |sizes|
    ensures Sum(sizes[..i + 1]) == Sum(sizes[..i]) + sizes[i]
  {
    if i == 0 {
      assert sizes[..1][1..] == [] && sizes[..0] == [];
    } else {
      SumStep(sizes[1..], i - 1);
      assert sizes[..i + 1][1..] == sizes[1..][..i];
      assert sizes[..i][1..] == sizes[1..][..i - 1];
    }
  }

  lemma {:induction false} BlockSizesStep(sizes: seq<nat>, i: nat)
    requires i < |sizes|
    ensures BlockSizes(sizes[..i + 1]) == BlockSizes(sizes[..i]) + NumberField(4, sizes[i])
  {
    if i == 0 {
      assert sizes[..1][1..] == [] && sizes[..0] == [];
    } else {
      BlockSizesStep(sizes[1..], i - 1);
      assert sizes[..i + 1][1..] == sizes[1..][..i];
      assert sizes[..i][1..] == sizes[1..][..i - 1];
    }
  }

  lemma {:induction false} LinkFieldsStep(links: seq<Link>, i: nat)
    requires i < |links|
    ensures LinkFields(links[..i + 1]) == LinkFields(links[..i]) + BytesField(2, LinkBytes(links[i]))
  {
    if i == 0 {
      assert links[..1][1..] == [] && links[..0] == [];
    } else {
      LinkFieldsStep(links[1..], i - 1);
      assert links[..i + 1][1..] == links[1..][..i];
      assert links[..i][1..] == links[1..][..i - 1];
    }
  }

  method FileData(sizes: seq<u64>) returns (out: Octets)
    requires Sum(sizes) < U64_LIMIT
    ensures out == UnixfsFile(sizes)
  {
    var total: nat := 0;
    for i := 0 to |sizes|
      invariant total == Sum(sizes[..i])
    {
      SumStep(sizes, i);
      total := total + sizes[i];
    }
    assert sizes[..|sizes|] == sizes;
    out := VarintField(1, UNIXFS_FILE, []);
    out := VarintField(3, total, out);
    ghost var head := out;
    for i := 0 to |sizes|
      invariant out == head + BlockSizes(sizes[..i])
    {
      BlockSizesStep(sizes, i);
      out := VarintField(4, sizes[i], out);
    }
    assert sizes[..|sizes|] == sizes;
  }

  method PbLinkData(link: Link) returns (out: Octets)
    requires Fits(link)
    ensures out == LinkBytes(link)
  {
    var bytes := WriteBytes(link.cid);
    out := LengthDelimited(1, bytes, []);
    out := LengthDelimited(2, link.name, out);
    out := VarintField(3, link.tsize % U64_LIMIT, out);
  }

  method EncodePbNode(links: seq<Link>, data: Octets) returns (out: Octets)
    requires |data| < U64_LIMIT && forall i :: 0 <= i < |links| ==> Fits(links[i])
    ensures out == NodeBytes(links, data)
  {
    out := [];
    for i := 0 to |links|
      invariant out == LinkFields(links[..i])
    {
      LinkFieldsStep(links, i);
      var encoded := PbLinkData(links[i]);
      out := LengthDelimited(2, encoded, out);
    }
    assert links[..|links|] == links;
    if |data| > 0 {
      out := LengthDelimited(1, data, out);
    }
  }

  // ----- nodes and files -----

  /** Links the importer makes: an admitted identifier and a name that fits in memory. */
  predicate Small(link: Link) {
    Admitted(link.cid) && |link.name| < VEC_LIMIT
  }

  lemma {:induction false} SmallFits(link: Link)
    requires Small(link)
    ensures Fits(link)
  {
    AdmittedBytes(link.cid);
    Varint.WriteShort(1 * 8 + 2);
    Varint.WriteShort(2 * 8 + 2);
    Varint.WriteShort(3 * 8);
    Varint.WriteShort(|ToBytes(link.cid)|);
    Varint.WriteShort(|link.name|);
    Varint.WriteShort(link.tsize % U64_LIMIT);
  }

  lemma {:induction false} NameRefused(entries: seq<Link>, i: nat)
    requires i < |entries| && (entries[i].name == [] || exists j :: 0 <= j < i && entries[j].name == entries[i].name)
    ensures !WellNamed(entries)
  {
    if entries[i].name == [] {
      assert Unnamed(entries, i);
    } else {
      var j :| 0 <= j < i && entries[j].name == entries[i].name;
      assert SameName(entries, j, i);
    }
  }

  lemma {:induction false} NameAccepted(entries: seq<Link>, i: nat)
    requires i < |entries| && WellNamed(entries[..i]) && entries[i].name != []
    requires forall j :: 0 <= j < i ==> entries[j].name != entries[i].name
    ensures WellNamed(entries[..i + 1])
  {
    var before, after := entries[..i], entries[..i + 1];
    forall j, k | 0 <= j < k < i + 1 ensures !SameName(after, j, k) {
      assert k < i ==> !SameName(before, j, k);
    }
    forall j | 0 <= j < i + 1 ensures !Unnamed(after, j) {
      assert j < i ==> !Unnamed(before, j);
    }
  }

  method MakeDirectory(sha: Hash, entries: seq<Link>) returns (r: Result<Block, PublishError>)
    requires forall i :: 0 <= i < |entries| ==> Small(entries[i])
    ensures r == DirectoryNode(sha, entries)
  {
    var seen: set<Octets> := {};
    for i := 0 to |entries|
      invariant WellNamed(entries[..i])
      invariant seen == set j | 0 <= j < i :: entries[j].name
    {
      if entries[i].name == [] || entries[i].name in seen {
        NameRefused(entries, i);
        return Err(BadDirectory);
      }
      seen := seen + {entries[i].name};
      NameAccepted(entries, i);
    }
    assert entries[..|entries|] == entries;
    var sorted := Sort(NameOf, entries);
    forall i | 0 <= i < |sorted| ensures Fits(sorted[i]) {
      SortMembers(NameOf, entries, sorted[i]);
      SmallFits(sorted[i]);
    }
    var data := DirectoryData();
    DirectoryReadsBack();
    var bytes := EncodePbNode(sorted, data);
    r := Ok(DagPbBlock(sha, bytes));
  }

  function Joined(pieces: seq<Vec>): Octets
  {
    if |pieces| == 0 then [] else pieces[0] + Joined(pieces[1..])
  }

  /** Nothing is lost or moved by cutting content into chunks. */
  lemma {:induction false} ChunksJoin(content: Vec)
    ensures Joined(Chunks(content)) == content
    ensures Sum(Sizes(Chunks(content))) == |content|
    ensures forall i :: 0 <= i < |Chunks(content)| ==> |Chunks(content)[i]| <= CHUNK_BYTES
    decreases |content|
  {
    var pieces := Chunks(content);
    if |content| <= CHUNK_BYTES {
      assert pieces[1..] == [] && content + [] == content;
      assert Sizes(pieces)[1..] == [];
    } else {
      var rest := content[CHUNK_BYTES..];
      ChunksJoin(rest);
      assert pieces[1..] == Chunks(rest);
      assert Sizes(pieces)[1..] == Sizes(Chunks(rest));
      assert content == content[..CHUNK_BYTES] + rest;
    }
  }

  method BuildPieces(sha: Hash, pieces: seq<Vec>)
    returns (blocks: seq<Block>, links: seq<Link>, sizes: seq<u64>, total: nat)
    ensures blocks == RawBlocks(sha, pieces) && links == ChunkLinks(sha, pieces)
    ensures sizes == Sizes(pieces) && total == Sum(sizes)
  {
    blocks, links, sizes, total := [], [], [], 0;
    for i := 0 to |pieces|
      invariant blocks == RawBlocks(sha, pieces)[..i]
      invariant links == ChunkLinks(sha, pieces)[..i]
      invariant sizes == Sizes(pieces)[..i]
      invariant total == Sum(Sizes(pieces)[..i])
    {
      SumStep(Sizes(pieces), i);
      var cid := RawFromBytes(sha, pieces[i]);
      blocks := blocks + [Block(cid, pieces[i])];
      links := links + [Link(cid, [], |pieces[i]|)];
      sizes := sizes + [|pieces[i]|];
      total := total + |pieces[i]|;
    }
  }

  method BuildFile(sha: Hash, content: Vec) returns (r: Built)
    ensures r == FileBlocks(sha, content)
  {
    var pieces := Chunks(content);
    if |pieces| == 1 {
      var cid := RawFromBytes(sha, pieces[0]);
      return Built([Block(cid, pieces[0])], cid, |pieces[0]|);
    }
    var blocks, links, sizes, total := BuildPieces(sha, pieces);
    LinksFit(sha, pieces);
    FileDataFits(content, sizes);
    var data := FileData(sizes);
    var bytes := EncodePbNode(links, data);
    var node := DagPbBlock(sha, bytes);
    r := Built(blocks + [node], node.cid, |node.bytes| + total);
  }

  lemma {:induction false} LinksFit(sha: Hash, pieces: seq<Vec>)
    ensures forall i :: 0 <= i < |pieces| ==> Fits(ChunkLinks(sha, pieces)[i])
  {
    forall i | 0 <= i < |pieces| ensures Fits(ChunkLinks(sha, pieces)[i]) {
      SmallFits(ChunkLinks(sha, pieces)[i]);
    }
  }

  lemma {:induction false} BlockSizesLength(sizes: seq<u64>)
    ensures |BlockSizes(sizes)| <= 20 * |sizes|
  {
    if |sizes| > 0 {
      BlockSizesLength(sizes[1..]);
      Varint.WriteShort(4 * 8);
      Varint.WriteShort(sizes[0]);
    }
  }

  lemma {:induction false} ChunkCount(content: Vec)
    ensures (|Chunks(content)| - 1) * CHUNK_BYTES <= |content|
    decreases |content|
  {
    if |content| > CHUNK_BYTES {
      ChunkCount(content[CHUNK_BYTES..]);
    }
  }

  /** The list of chunk sizes of content in memory fits a length field. */
  lemma {:induction false} FileDataFits(content: Vec, sizes: seq<u64>)
    requires sizes == Sizes(Chunks(content))
    ensures Sum(sizes) < U64_LIMIT && |UnixfsFile(sizes)| < U64_LIMIT
  {
    ChunkCount(content);
    ChunksJoin(content);
    BlockSizesLength(sizes);
    Varint.WriteShort(1 * 8);
    Varint.WriteShort(UNIXFS_FILE);
    Varint.WriteShort(3 * 8);
    Varint.WriteShort(Sum(sizes));
  }
}
