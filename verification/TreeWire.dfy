/** The content tree octet for octet (client/src/cid.rs, client/src/publish.rs): varints, identifiers and their
    text, links, nodes and UnixFS messages, and how a file is cut, said with the numbers of the formats. */
module TreeWire {
  import opened Arith
  import opened Base
  import opened Ordering
  import opened Cid
  import opened DagPb
  import opened Store
  import opened Importer
  import opened ImporterRun

  // ----- varints -----

  function Pow128(i: nat): (r: nat)
    ensures r > 0
  {
    if i == 0 then 1 else 128 * Pow128(i - 1)
  }

  /** Seven bits an octet, least significant first; all but the last have their high bit set, and there are no
      more octets than the number needs. */
  lemma {:induction false} VarintOctets(n: nat, i: nat)
    ensures n < Pow128(|Varint.Write(n)|) && (|Varint.Write(n)| > 1 ==> n >= Pow128(|Varint.Write(n)| - 1))
    ensures i < |Varint.Write(n)| ==>
              Varint.Write(n)[i] == n / Pow128(i) % 128 + (if i + 1 < |Varint.Write(n)| then 128 else 0)
    decreases n
  {
    if n >= 128 {
      VarintOctets(n / 128, if i > 0 then i - 1 else 0);
      if i > 0 {
        DivideTwice(n, 128, Pow128(i - 1));
      }
    }
  }

  // ----- identifiers -----

  /** The binary form of every identifier of the admitted shape: version 1, raw or dag-pb, sha2-256, 32 octets. */
  lemma {:induction false} IdentifierOctets(c: Cid)
    ensures Admitted(c) <==> c.version == 1 && (c.codec == 0x55 || c.codec == 0x70)
    ensures Admitted(c) ==> ToBytes(c) == [0x01, c.codec, 0x12, 0x20] + c.digest
  {
    if Admitted(c) {
      AdmittedBytes(c);
    }
  }

  // ----- text -----

  /** Bit `k` of the octets, the most significant of the first one first; zero beyond their end. */
  function BitAt(bytes: Octets, k: nat): nat {
    if k / 8 < |bytes| then bytes[k / 8] / Pow2(7 - k % 8) % 2 else 0
  }

  lemma {:induction false} BitOf(x: nat, n: nat, k: nat)
    requires k < n
    ensures Base32.BitsOf(x, n)[k] == x / Pow2(n - 1 - k) % 2
  {
    if k < n - 1 {
      BitOf(x / 2, n - 1, k);
      DivideTwice(x, 2, Pow2(n - 2 - k));
    } else {
      assert Pow2(0) == 1;
    }
  }

  lemma {:induction false} AllBitsAt(bytes: Octets, k: nat)
    requires k < 8 * |bytes|
    ensures Base32.AllBits(bytes)[k] == BitAt(bytes, k)
  {
    hide Base32.BitsOf, Pow2;
    if k < 8 {
      BitOf(bytes[0], 8, k);
    } else {
      AllBitsAt(bytes[1..], k - 8);
      assert bytes[k / 8] == bytes[1..][(k - 8) / 8];
    }
  }

  /** Bit `k`, or zero beyond the end. */
  function Padded(bits: seq<Base32.bit>, k: nat): nat {
    if k < |bits| then bits[k] else 0
  }

  lemma {:induction false} ValueOfFive(bits: seq<Base32.bit>)
    requires |bits| == 5
    ensures Base32.ValueOf(bits)
         == 16 * Padded(bits, 0) + 8 * Padded(bits, 1) + 4 * Padded(bits, 2) + 2 * Padded(bits, 3) + Padded(bits, 4)
  {
    assert bits[..4][..3] == bits[..3] && bits[..3][..2] == bits[..2] && bits[..2][..1] == bits[..1];
    assert bits[..1][..0] == [];
    assert Base32.ValueOf(bits[..1]) == bits[0];
    assert Base32.ValueOf(bits[..2]) == 2 * Padded(bits, 0) + Padded(bits, 1);
    assert Base32.ValueOf(bits[..3]) == 2 * Base32.ValueOf(bits[..2]) + bits[2];
    assert Base32.ValueOf(bits[..4]) == 2 * Base32.ValueOf(bits[..3]) + bits[3];
  }

  lemma {:induction false} QuintetAt(bits: seq<Base32.bit>, k: nat)
    requires k < |Base32.Quintets(bits)|
    ensures Base32.Quintets(bits)[k]
         == 16 * Padded(bits, 5 * k) + 8 * Padded(bits, 5 * k + 1) + 4 * Padded(bits, 5 * k + 2)
            + 2 * Padded(bits, 5 * k + 3) + Padded(bits, 5 * k + 4)
    decreases |bits|
  {
    hide Base32.ValueOf;
    if |bits| < 5 {
      ValueOfFive(bits + Base32.Zeros(5 - |bits|));
    } else if k == 0 {
      ValueOfFive(bits[..5]);
    } else {
      QuintetAt(bits[5..], k - 1);
    }
  }

  /** The text of an identifier is `b` and one character for every five bits: a letter of the lower-case alphabet
      for the values below 26, a digit from 2 on for the rest. */
  lemma {:induction false} TextOctets(c: Cid, k: nat)
    ensures |ToText(c)| > 0 && ToText(c)[0] == 'b' as int
    ensures k + 1 < |ToText(c)| ==>
              var b := ToBytes(c);
              var value := 16 * BitAt(b, 5 * k) + 8 * BitAt(b, 5 * k + 1) + 4 * BitAt(b, 5 * k + 2)
                           + 2 * BitAt(b, 5 * k + 3) + BitAt(b, 5 * k + 4);
              ToText(c)[k + 1] == if value < 26 then 'a' as int + value else '2' as int + value - 26
  {
    hide ToBytes, BitAt, Base32.Quintets;
    var b := ToBytes(c);
    var bits := Base32.AllBits(b);
    if k + 1 < |ToText(c)| {
      CharAt(Base32.Quintets(bits), k);
      QuintetAt(bits, k);
      PaddedBit(b, 5 * k);
      PaddedBit(b, 5 * k + 1);
      PaddedBit(b, 5 * k + 2);
      PaddedBit(b, 5 * k + 3);
      PaddedBit(b, 5 * k + 4);
    }
  }

  lemma {:induction false} PaddedBit(bytes: Octets, k: nat)
    ensures Padded(Base32.AllBits(bytes), k) == BitAt(bytes, k)
  {
    if k < 8 * |bytes| {
      AllBitsAt(bytes, k);
    }
  }

  lemma {:induction false} CharAt(groups: seq<Base32.quintet>, k: nat)
    requires k < |groups|
    ensures Base32.Chars(groups)[k] == Base32.CharOf(groups[k])
  {
    if k > 0 {
      CharAt(groups[1..], k - 1);
    }
  }

  // ----- links, nodes and UnixFS messages -----

  /** A link of a dag-pb node: hash, name, cumulative size, in 64 bits. */
  ghost function LinkOctets(l: Link): Octets {
    [0x0a, 0x24, 0x01, if l.cid.codec == 0x55 then 0x55 else 0x70, 0x12, 0x20] + l.cid.digest
    + [0x12] + Varint.Write(|l.name|) + l.name
    + [0x18] + Varint.Write(l.tsize % U64_LIMIT)
  }

  /** The links of a node, in order. */
  ghost function LinksOctets(links: seq<Link>): Octets {
    if |links| == 0 then []
    else
      var last := LinkOctets(links[|links| - 1]);
      LinksOctets(links[..|links| - 1]) + ([0x12] + Varint.Write(|last|) + last)
  }

  /** A node: its links, then its data. */
  ghost function NodeOctets(links: seq<Link>, data: Octets): Octets {
    LinksOctets(links) + ([0x0a] + Varint.Write(|data|) + data)
  }

  /** The message of a file: its type, its size, the size of every block. */
  ghost function FileMessage(sizes: seq<nat>): Octets {
    [0x08, 0x02, 0x18] + Varint.Write(Sum(sizes)) + SizeFields(sizes)
  }

  ghost function SizeFields(sizes: seq<nat>): Octets {
    if |sizes| == 0 then []
    else SizeFields(sizes[..|sizes| - 1]) + ([0x20] + Varint.Write(sizes[|sizes| - 1]))
  }

  lemma {:induction false} Tags()
    ensures Varint.Write(1 * 8 + 2) == [0x0a] && Varint.Write(2 * 8 + 2) == [0x12] && Varint.Write(3 * 8) == [0x18]
    ensures Varint.Write(1 * 8) == [0x08] && Varint.Write(4 * 8) == [0x20] && Varint.Write(36) == [0x24]
    ensures Varint.Write(1) == [0x01] && Varint.Write(2) == [0x02]
  {
  }

  lemma {:induction false} LinkIs(l: Link)
    requires Admitted(l.cid)
    ensures LinkBytes(l) == LinkOctets(l)
  {
    Tags();
    IdentifierOctets(l.cid);
    hide ToBytes, Varint.Write;
    assert |ToBytes(l.cid)| == 36;
    assert LinkBytes(l)
        == [0x0a] + [0x24] + ToBytes(l.cid) + ([0x12] + Varint.Write(|l.name|) + l.name)
           + ([0x18] + Varint.Write(l.tsize % U64_LIMIT));
  }

  lemma {:induction false} LinkFieldsLast(links: seq<Link>)
    requires |links| > 0
    ensures LinkFields(links) == LinkFields(links[..|links| - 1]) + BytesField(2, LinkBytes(links[|links| - 1]))
  {
    hide BytesField, LinkBytes;
    if |links| > 1 {
      LinkFieldsLast(links[1..]);
      assert links[1..][..|links| - 2] == links[..|links| - 1][1..];
    } else {
      assert links[1..] == [] && links[..0] == [];
    }
  }

  lemma {:induction false} LinksAre(links: seq<Link>)
    requires forall i :: 0 <= i < |links| ==> Admitted(links[i].cid)
    ensures LinkFields(links) == LinksOctets(links)
  {
    hide LinkBytes, LinkOctets, Admitted;
    if |links| > 0 {
      LinksAre(links[..|links| - 1]);
      LinkFieldsLast(links);
      LinkIs(links[|links| - 1]);
      Tags();
    }
  }

  /** What the node writer writes. */
  lemma {:induction false} NodeIs(links: seq<Link>, data: Octets)
    requires |data| > 0 && forall i :: 0 <= i < |links| ==> Admitted(links[i].cid)
    ensures NodeBytes(links, data) == NodeOctets(links, data)
  {
    hide Admitted, LinkFields, LinksOctets;
    LinksAre(links);
    Tags();
  }

  lemma {:induction false} BlockSizesLast(sizes: seq<nat>)
    requires |sizes| > 0
    ensures BlockSizes(sizes) == BlockSizes(sizes[..|sizes| - 1]) + NumberField(4, sizes[|sizes| - 1])
  {
    hide NumberField;
    if |sizes| > 1 {
      BlockSizesLast(sizes[1..]);
      assert sizes[1..][..|sizes| - 2] == sizes[..|sizes| - 1][1..];
    } else {
      assert sizes[1..] == [] && sizes[..0] == [];
    }
  }

  lemma {:induction false} SizesAre(sizes: seq<nat>)
    ensures BlockSizes(sizes) == SizeFields(sizes)
  {
    if |sizes| > 0 {
      SizesAre(sizes[..|sizes| - 1]);
      BlockSizesLast(sizes);
      Tags();
    }
  }

  /** What the message writers write. */
  lemma {:induction false} MessagesAre(sizes: seq<nat>)
    ensures UnixfsDirectory() == [0x08, 0x01] && UnixfsFile(sizes) == FileMessage(sizes)
  {
    Tags();
    SizesAre(sizes);
    hide Varint.Write, BlockSizes, SizeFields;
  }

  // ----- files and directories -----

  /** How many pieces a content has. */
  function PiecesOf(length: nat): nat {
    if length <= 262_144 then 1 else (length + 262_143) / 262_144
  }

  /** Piece `i` of a content: 262,144 octets, or what is left. */
  function Piece(content: Octets, i: nat): Octets
    requires i < PiecesOf(|content|)
  {
    PieceWithin(|content|, i);
    content[262_144 * i..Min(262_144 * (i + 1), |content|)]
  }

  lemma {:induction false} PieceWithin(length: nat, i: nat)
    requires i < PiecesOf(length)
    ensures 262_144 * i <= Min(262_144 * (i + 1), length) && (i > 0 ==> 262_144 * i < length)
    ensures length > 262_144 ==> PiecesOf(length) == 1 + PiecesOf(length - 262_144)
  {
  }

  lemma {:induction false} PieceAt(content: Vec, i: nat)
    requires i < PiecesOf(|content|)
    ensures |Chunks(content)| == PiecesOf(|content|) && Chunks(content)[i] == Piece(content, i)
    decreases |content|
  {
    PieceWithin(|content|, i);
    if |content| > CHUNK_BYTES {
      var rest := content[CHUNK_BYTES..];
      PieceWithin(|rest|, 0);
      if i > 0 {
        PieceAt(rest, i - 1);
        NextPiece(content, i);
      } else {
        PieceAt(rest, 0);
      }
    }
  }

  lemma {:induction false} NextPiece(content: Octets, i: nat)
    requires |content| > 262_144 && 0 < i < PiecesOf(|content|)
    ensures i - 1 < PiecesOf(|content| - 262_144) && Piece(content[262_144..], i - 1) == Piece(content, i)
  {
    hide PiecesOf;
    PieceWithin(|content|, i);
    PieceWithin(|content| - 262_144, i - 1);
    var from, to := 262_144 * i, Min(262_144 * (i + 1), |content|);
    assert 262_144 * (i - 1) == from - 262_144 && Min(262_144 * i, |content| - 262_144) == to - 262_144;
    SliceOfRest(content, 262_144, from, to);
  }

  lemma {:induction false} SliceOfRest(s: Octets, k: nat, from: nat, to: nat)
    requires k <= from <= to <= |s|
    ensures s[k..][from - k..to - k] == s[from..to]
  {
  }

  lemma {:induction false} OnePiece(content: Octets)
    requires |content| <= 262_144
    ensures PiecesOf(|content|) == 1 && Piece(content, 0) == content
  {
    PieceWithin(|content|, 0);
  }

  /** The links of a file's node: raw leaves without a name, each with its own length. */
  ghost function PieceLinks(sha: Hash, content: Octets): (r: seq<Link>)
    ensures |r| == PiecesOf(|content|)
    ensures forall i :: 0 <= i < |r| ==> r[i] == Link(Cid(1, 0x55, sha(Piece(content, i))), [], |Piece(content, i)|)
  {
    seq(PiecesOf(|content|), i requires 0 <= i < PiecesOf(|content|) =>
          Link(Cid(1, 0x55, sha(Piece(content, i))), [], |Piece(content, i)|))
  }

  ghost function PieceSizes(content: Octets): (r: seq<nat>)
    ensures |r| == PiecesOf(|content|) && forall i :: 0 <= i < |r| ==> r[i] == |Piece(content, i)|
  {
    seq(PiecesOf(|content|), i requires 0 <= i < PiecesOf(|content|) => |Piece(content, i)|)
  }

  ghost function NodeOfFile(sha: Hash, content: Octets): Octets {
    NodeOctets(PieceLinks(sha, content), FileMessage(PieceSizes(content)))
  }

  lemma {:induction false} FileMessageIsSome(sizes: seq<nat>)
    ensures |FileMessage(sizes)| > 0
  {
  }

  lemma {:induction false} PiecesAreChunks(content: Vec)
    ensures |Chunks(content)| == PiecesOf(|content|)
    ensures forall i :: 0 <= i < |Chunks(content)| ==> Chunks(content)[i] == Piece(content, i)
  {
    hide Chunks, Piece;
    PieceAt(content, 0);
    forall i | 0 <= i < |Chunks(content)| ensures Chunks(content)[i] == Piece(content, i) {
      PieceAt(content, i);
    }
  }

  /** The node over the chunks is the one written octet by octet. */
  lemma {:induction false} FileNodeIs(sha: Hash, content: Vec)
    ensures var node := NodeOfFile(sha, content);
            FileNode(sha, Chunks(content)) == Block(Cid(1, 0x70, sha(node)), node)
  {
    hide LinkOctets, Chunks, Piece, NodeBytes, UnixfsFile, NodeOctets, FileMessage, Varint.Write;
    PiecesAreChunks(content);
    assert ChunkLinks(sha, Chunks(content)) == PieceLinks(sha, content);
    assert Importer.Sizes(Chunks(content)) == PieceSizes(content);
    MessagesAre(PieceSizes(content));
    FileMessageIsSome(PieceSizes(content));
    NodeIs(PieceLinks(sha, content), FileMessage(PieceSizes(content)));
  }

  /** A file as the importer makes it: up to 262,144 octets one raw block of its own octets; beyond that a raw
      block for every piece, in order, and one node that links to them and gives their sizes. */
  lemma {:induction false} FileIs(sha: Hash, content: Vec)
    ensures var built := FileBlocks(sha, content);
            if |content| <= 262_144 then
              && built.blocks == [Block(Cid(1, 0x55, sha(content)), content)]
              && built.cid == Cid(1, 0x55, sha(content)) && built.tsize == |content|
            else
              var n, node := PiecesOf(|content|), NodeOfFile(sha, content);
              && |built.blocks| == n + 1 && built.blocks[n] == Block(Cid(1, 0x70, sha(node)), node)
              && (forall i :: 0 <= i < n ==>
                    built.blocks[i] == Block(Cid(1, 0x55, sha(Piece(content, i))), Piece(content, i)))
              && built.cid == Cid(1, 0x70, sha(node)) && built.tsize == |node| + |content|
  {
    hide Chunks, Piece, FileNode, NodeOfFile;
    PiecesAreChunks(content);
    if |content| <= 262_144 {
      OnePiece(content);
    } else {
      FileNodeIs(sha, content);
      ChunksJoin(content);
    }
  }

  /** A directory as the importer makes it: one node, its links in bytewise order of their names. */
  lemma {:induction false} DirectoryIs(sha: Hash, entries: seq<Link>)
    requires DirectoryNode(sha, entries).Ok? && forall l :: l in entries ==> Admitted(l.cid)
    ensures exists links: seq<Link> ::
              && multiset(links) == multiset(entries)
              && (forall i, j :: 0 <= i < j < |links| ==> Before(links[i].name, links[j].name))
              && var node := NodeOctets(links, [0x08, 0x01]);
                 DirectoryNode(sha, entries) == Ok(Block(Cid(1, 0x70, sha(node)), node))
  {
    hide NodeBytes, NodeOctets, Before, Less, Varint.Write, UnixfsDirectory;
    var links := Sort(NameOf, entries);
    SortPermutes(NameOf, entries);
    WellNamedDistinct(entries);
    SortIncreasing(NameOf, entries);
    forall i, j | 0 <= i < j < |links| ensures Before(links[i].name, links[j].name) {
      LessIffBefore(NameOf(links[i]), NameOf(links[j]));
    }
    forall i | 0 <= i < |links| ensures Admitted(links[i].cid) {
      SortMembers(NameOf, entries, links[i]);
    }
    MessagesAre([]);
    NodeIs(links, [0x08, 0x01]);
  }
}
