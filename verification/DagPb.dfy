/** dag-pb nodes and UnixFS messages: the writers of client/src/publish.rs and the readers of
    client/src/dagnode.rs. */
module DagPb {
  import opened Base
  import opened Utf8
  import Varint
  import opened Cid

  const UNIXFS_DIRECTORY: u64 := 1
  const UNIXFS_FILE: u64 := 2

  /** One entry in a directory, or one chunk of a file. `tsize` is the exact cumulative size; the
      wire carries it in 64 bits. */
  datatype Link = Link(cid: Cid, name: Str, tsize: nat)

  // ----- writing -----

  function NumberField(field: nat, value: nat): Octets {
    Varint.Write(field * 8) + Varint.Write(value)
  }

  function BytesField(field: nat, payload: Octets): Octets {
    Varint.Write(field * 8 + 2) + Varint.Write(|payload|) + payload
  }

  function UnixfsDirectory(): Octets {
    NumberField(1, UNIXFS_DIRECTORY)
  }

  function Sum(sizes: seq<nat>): nat
  {
    if |sizes| == 0 then 0 else sizes[0] + Sum(sizes[1..])
  }

  function BlockSizes(sizes: seq<nat>): Octets
  {
    if |sizes| == 0 then [] else NumberField(4, sizes[0]) + BlockSizes(sizes[1..])
  }

  function UnixfsFile(sizes: seq<nat>): Octets {
    NumberField(1, UNIXFS_FILE) + NumberField(3, Sum(sizes)) + BlockSizes(sizes)
  }

  function LinkBytes(link: Link): Octets {
    BytesField(1, ToBytes(link.cid)) + BytesField(2, link.name) + NumberField(3, link.tsize % U64_LIMIT)
  }

  function LinkFields(links: seq<Link>): Octets
  {
    if |links| == 0 then [] else BytesField(2, LinkBytes(links[0])) + LinkFields(links[1..])
  }

  /** Links before data, against the order of the field numbers. */
  function NodeBytes(links: seq<Link>, data: Octets): Octets {
    LinkFields(links) + if |data| == 0 then [] else BytesField(1, data)
  }

  // ----- reading -----

  /** The payload of one protobuf field, by wire type. */
  datatype Payload = Num(value: u64) | Delimited(bytes: Octets) | Fixed

  datatype Token = Token(field: nat, payload: Payload)

  datatype Next = Next(token: Token, rest: Octets)

  /** The next field of a message, or `None` where every reader of the source gives up. */
  function NextField(b: Octets): (r: Option<Next>)
    ensures r.Some? ==> |r.value.rest| < |b|
  {
    match Varint.Read(b)
    case Err(_) => None
    case Ok(Number(key, rest)) => FieldBody(key / 8, key % 8, rest)
  }

  function FieldBody(field: nat, wire: nat, b: Octets): (r: Option<Next>)
    ensures r.Some? ==> |r.value.rest| <= |b|
  {
    if wire == 0 then
      match Varint.Read(b)
      case Err(_) => None
      case Ok(Number(value, rest)) => Some(Next(Token(field, Num(value)), rest))
    else if wire == 1 then
      if |b| < 8 then None else Some(Next(Token(field, Fixed), b[8..]))
    else if wire == 2 then
      match Varint.Read(b)
      case Err(_) => None
      case Ok(Number(length, rest)) =>
        if length > |rest| then None
        else Some(Next(Token(field, Delimited(rest[..length])), rest[length..]))
    else if wire == 5 then
      if |b| < 4 then None else Some(Next(Token(field, Fixed), b[4..]))
    else
      None
  }

  /** All fields of a message in wire order. */
  function Tokens(b: Octets): Option<seq<Token>>
    decreases |b|
  {
    if |b| == 0 then Some([])
    else
      match NextField(b)
      case None => None
      case Some(Next(token, rest)) =>
        match Tokens(rest)
        case None => None
        case Some(others) => Some([token] + others)
  }

  datatype PbLink = PbLink(hash: Octets, name: Str, tsize: u64)

  datatype PbNode = PbNode(data: Octets, links: seq<PbLink>)

  /** One field's effect on a link under construction; a name must be UTF-8. */
  function LinkField(link: PbLink, t: Token): Option<PbLink> {
    match t
    case Token(1, Delimited(bytes)) => Some(link.(hash := bytes))
    case Token(2, Delimited(bytes)) => if ValidUtf8(bytes) then Some(link.(name := bytes)) else None
    case Token(3, Num(value)) => Some(link.(tsize := value))
    case _ => Some(link)
  }

  function LinkFold(link: PbLink, ts: seq<Token>): Option<PbLink>
    decreases |ts|
  {
    if |ts| == 0 then Some(link)
    else
      match LinkField(link, ts[0])
      case None => None
      case Some(next) => LinkFold(next, ts[1..])
  }

  const EMPTY_LINK: PbLink := PbLink([], [], 0)

  function ParseLink(region: Octets): Option<PbLink> {
    match Tokens(region)
    case None => None
    case Some(ts) => LinkFold(EMPTY_LINK, ts)
  }

  function NodeField(node: PbNode, t: Token): Option<PbNode> {
    match t
    case Token(1, Delimited(bytes)) => Some(node.(data := bytes))
    case Token(2, Delimited(bytes)) =>
      (match ParseLink(bytes)
       case None => None
       case Some(link) => Some(node.(links := node.links + [link])))
    case _ => Some(node)
  }

  function NodeFold(node: PbNode, ts: seq<Token>): Option<PbNode>
    decreases |ts|
  {
    if |ts| == 0 then Some(node)
    else
      match NodeField(node, ts[0])
      case None => None
      case Some(next) => NodeFold(next, ts[1..])
  }

  function ParseNode(bytes: Octets): Option<PbNode> {
    match Tokens(bytes)
    case None => None
    case Some(ts) => NodeFold(PbNode([], []), ts)
  }

  datatype Unixfs = Unixfs(kind: u64, payload: Octets)

  function UnixfsField(u: Unixfs, t: Token): Unixfs {
    match t
    case Token(1, Num(value)) => u.(kind := value)
    case Token(2, Delimited(bytes)) => u.(payload := bytes)
    case _ => u
  }

  function UnixfsFold(u: Unixfs, ts: seq<Token>): Unixfs
    decreases |ts|
  {
    if |ts| == 0 then u else UnixfsFold(UnixfsField(u, ts[0]), ts[1..])
  }

  /** An empty message stands for a directory; otherwise the type defaults to a file. */
  function ParseUnixfs(data: Octets): Option<Unixfs> {
    if |data| == 0 then Some(Unixfs(UNIXFS_DIRECTORY, []))
    else
      match Tokens(data)
      case None => None
      case Some(ts) => Some(UnixfsFold(Unixfs(UNIXFS_FILE, []), ts))
  }

  // ----- what is written reads back -----

  lemma {:induction false} SmallTag(key: nat, rest: Octets)
    requires key < 128
    ensures Varint.Read(Varint.Write(key) + rest) == Ok(Varint.Number(key, rest))
  {
    Varint.WriteReadsBack(key, rest);
  }

  lemma {:induction false} NumberReadsBack(field: nat, value: u64, rest: Octets)
    requires field < 16
    ensures NextField(NumberField(field, value) + rest) == Some(Next(Token(field, Num(value)), rest))
  {
    var tail := Varint.Write(value) + rest;
    assert NumberField(field, value) + rest == Varint.Write(field * 8) + tail;
    SmallTag(field * 8, tail);
    Varint.WriteReadsBack(value, rest);
  }

  lemma {:induction false} BytesReadBack(field: nat, payload: Octets, rest: Octets)
    requires field < 15 && |payload| < U64_LIMIT
    ensures NextField(BytesField(field, payload) + rest) == Some(Next(Token(field, Delimited(payload)), rest))
  {
    var tail := Varint.Write(|payload|) + (payload + rest);
    assert BytesField(field, payload) + rest == Varint.Write(field * 8 + 2) + tail;
    SmallTag(field * 8 + 2, tail);
    assert (field * 8 + 2) / 8 == field && (field * 8 + 2) % 8 == 2;
    Varint.WriteReadsBack(|payload|, payload + rest);
    assert (payload + rest)[..|payload|] == payload;
    assert (payload + rest)[|payload|..] == rest;
  }

  lemma {:induction false} TokensAfter(b: Octets, token: Token, rest: Octets, ts: seq<Token>)
    requires NextField(b) == Some(Next(token, rest)) && Tokens(rest) == Some(ts)
    ensures Tokens(b) == Some([token] + ts)
  {
  }

  lemma {:induction false} NumberTokens(field: nat, value: u64, rest: Octets, ts: seq<Token>)
    requires field < 16 && Tokens(rest) == Some(ts)
    ensures Tokens(NumberField(field, value) + rest) == Some([Token(field, Num(value))] + ts)
  {
    NumberReadsBack(field, value, rest);
    TokensAfter(NumberField(field, value) + rest, Token(field, Num(value)), rest, ts);
  }

  lemma {:induction false} BytesTokens(field: nat, payload: Octets, rest: Octets, ts: seq<Token>)
    requires field < 15 && |payload| < U64_LIMIT && Tokens(rest) == Some(ts)
    ensures Tokens(BytesField(field, payload) + rest) == Some([Token(field, Delimited(payload))] + ts)
  {
    BytesReadBack(field, payload, rest);
    TokensAfter(BytesField(field, payload) + rest, Token(field, Delimited(payload)), rest, ts);
  }

  /** The link a reader sees. */
  function Seen(link: Link): PbLink {
    PbLink(ToBytes(link.cid), link.name, link.tsize % U64_LIMIT)
  }

  function SeenAll(links: seq<Link>): (r: seq<PbLink>)
    ensures |r| == |links| && forall i :: 0 <= i < |links| ==> r[i] == Seen(links[i])
  {
    seq(|links|, i requires 0 <= i < |links| => Seen(links[i]))
  }

  /** Fields that fit a 64-bit length, as everything in memory does. */
  predicate Fits(link: Link) {
    |ToBytes(link.cid)| < U64_LIMIT && |link.name| < U64_LIMIT && |LinkBytes(link)| < U64_LIMIT
  }

  lemma {:induction false} LinkReadsBack(link: Link)
    requires Fits(link)
    ensures ParseLink(LinkBytes(link)) == Some(Seen(link))
  {
    var hash, size := ToBytes(link.cid), link.tsize % U64_LIMIT;
    ThreeTokens(1, hash, 2, link.name, 3, size);
    LinkFoldThree(Token(1, Delimited(hash)), Token(2, Delimited(link.name)), Token(3, Num(size)));
  }

  lemma {:induction false} ThreeTokens(f1: nat, a: Octets, f2: nat, b: Octets, f3: nat, n: u64)
    requires f1 < 15 && f2 < 15 && f3 < 15 && |a| < U64_LIMIT && |b| < U64_LIMIT
    ensures Tokens(BytesField(f1, a) + BytesField(f2, b) + NumberField(f3, n))
         == Some([Token(f1, Delimited(a)), Token(f2, Delimited(b)), Token(f3, Num(n))])
  {
    var b3 := NumberField(f3, n);
    var b2 := BytesField(f2, b) + b3;
    assert BytesField(f1, a) + BytesField(f2, b) + b3 == BytesField(f1, a) + b2;
    assert b3 + [] == b3;
    var t3 := Token(f3, Num(n));
    var t2 := Token(f2, Delimited(b));
    NumberTokens(f3, n, [], []);
    assert [t3] + [] == [t3];
    BytesTokens(f2, b, b3, [t3]);
    assert [t2] + [t3] == [t2, t3];
    BytesTokens(f1, a, b2, [t2, t3]);
    assert [Token(f1, Delimited(a))] + [t2, t3] == [Token(f1, Delimited(a)), t2, t3];
  }

  lemma {:induction false} LinkFoldThree(t1: Token, t2: Token, t3: Token)
    requires t1.field == 1 && t1.payload.Delimited?
    requires t2.field == 2 && t2.payload.Delimited? && ValidUtf8(t2.payload.bytes)
    requires t3.field == 3 && t3.payload.Num?
    ensures LinkFold(EMPTY_LINK, [t1, t2, t3])
         == Some(PbLink(t1.payload.bytes, t2.payload.bytes, t3.payload.value))
  {
    var l1 := EMPTY_LINK.(hash := t1.payload.bytes);
    var l2 := l1.(name := t2.payload.bytes);
    assert [t1, t2, t3][1..] == [t2, t3] && [t2, t3][1..] == [t3] && [t3][1..] == [];
    assert LinkFold(EMPTY_LINK, [t1, t2, t3]) == LinkFold(l1, [t2, t3]);
    assert LinkFold(l1, [t2, t3]) == LinkFold(l2, [t3]);
    assert LinkFold(l2, [t3]) == LinkFold(l2.(tsize := t3.payload.value), []);
  }

  // ----- a whole node -----

  function LinkTokens(links: seq<Link>): (r: seq<Token>)
    ensures |r| == |links| && forall i :: 0 <= i < |links| ==> r[i] == Token(2, Delimited(LinkBytes(links[i])))
  {
    seq(|links|, i requires 0 <= i < |links| => Token(2, Delimited(LinkBytes(links[i]))))
  }

  function DataTokens(data: Octets): seq<Token> {
    if |data| == 0 then [] else [Token(1, Delimited(data))]
  }

  lemma {:induction false} LinkTokensSplit(links: seq<Link>, ts: seq<Token>)
    requires |links| > 0
    ensures LinkTokens(links) + ts == [Token(2, Delimited(LinkBytes(links[0])))] + (LinkTokens(links[1..]) + ts)
  {
  }

  lemma {:induction false} LinksTokens(links: seq<Link>, rest: Octets, ts: seq<Token>)
    requires Tokens(rest) == Some(ts) && forall i :: 0 <= i < |links| ==> Fits(links[i])
    ensures Tokens(LinkFields(links) + rest) == Some(LinkTokens(links) + ts)
  {
    if |links| == 0 {
      assert LinkFields(links) + rest == rest;
      assert LinkTokens(links) + ts == ts;
    } else {
      LinksTokens(links[1..], rest, ts);
      var region := LinkBytes(links[0]);
      var tail := LinkFields(links[1..]) + rest;
      assert LinkFields(links) + rest == BytesField(2, region) + tail;
      BytesTokens(2, region, tail, LinkTokens(links[1..]) + ts);
      LinkTokensSplit(links, ts);
    }
  }

  lemma {:induction false} NodeFoldLinks(node: PbNode, links: seq<Link>, ts: seq<Token>)
    requires forall i :: 0 <= i < |links| ==> Fits(links[i])
    ensures NodeFold(node, LinkTokens(links) + ts) == NodeFold(node.(links := node.links + SeenAll(links)), ts)
    decreases |links|
  {
    hide LinkBytes, ParseLink, ToBytes, LinkTokens, SeenAll;
    if |links| == 0 {
      assert LinkTokens(links) + ts == ts && node.links + SeenAll(links) == node.links;
    } else {
      var all := LinkTokens(links) + ts;
      LinkReadsBack(links[0]);
      var next := node.(links := node.links + [Seen(links[0])]);
      assert all[0] == Token(2, Delimited(LinkBytes(links[0])));
      assert all[1..] == LinkTokens(links[1..]) + ts;
      assert NodeFold(node, all) == NodeFold(next, all[1..]);
      NodeFoldLinks(next, links[1..], ts);
      assert next.links + SeenAll(links[1..]) == node.links + SeenAll(links);
    }
  }

  /** A written node parses to its data and its links, in order. */
  lemma {:induction false} NodeReadsBack(links: seq<Link>, data: Octets)
    requires |data| < U64_LIMIT && forall i :: 0 <= i < |links| ==> Fits(links[i])
    ensures ParseNode(NodeBytes(links, data)) == Some(PbNode(data, SeenAll(links)))
  {
    var tail: Octets := if |data| == 0 then [] else BytesField(1, data);
    if |data| > 0 {
      assert BytesField(1, data) + [] == BytesField(1, data);
      BytesTokens(1, data, [], []);
      assert [Token(1, Delimited(data))] + [] == [Token(1, Delimited(data))];
    }
    LinksTokens(links, tail, DataTokens(data));
    NodeFoldLinks(PbNode([], []), links, DataTokens(data));
    assert [] + SeenAll(links) == SeenAll(links);
    if |data| > 0 {
      assert DataTokens(data)[1..] == [];
    }
  }

  // ----- UnixFS messages -----

  lemma {:induction false} DirectoryReadsBack()
    ensures |UnixfsDirectory()| == 2 && ParseUnixfs(UnixfsDirectory()) == Some(Unixfs(UNIXFS_DIRECTORY, []))
  {
    var b := UnixfsDirectory();
    assert Varint.Write(8) == [8] && Varint.Write(1) == [1];
    assert b + [] == b;
    NumberTokens(1, UNIXFS_DIRECTORY, [], []);
    var t := Token(1, Num(UNIXFS_DIRECTORY));
    assert [t] + [] == [t] && [t][1..] == [];
  }

  function SizeTokens(sizes: seq<u64>): (r: seq<Token>)
    ensures |r| == |sizes| && forall i :: 0 <= i < |sizes| ==> r[i] == Token(4, Num(sizes[i]))
  {
    seq(|sizes|, i requires 0 <= i < |sizes| => Token(4, Num(sizes[i])))
  }

  lemma {:induction false} BlockSizesTokens(sizes: seq<u64>)
    ensures Tokens(BlockSizes(sizes)) == Some(SizeTokens(sizes))
  {
    if |sizes| > 0 {
      BlockSizesTokens(sizes[1..]);
      NumberTokens(4, sizes[0], BlockSizes(sizes[1..]), SizeTokens(sizes[1..]));
      assert SizeTokens(sizes) == [Token(4, Num(sizes[0]))] + SizeTokens(sizes[1..]);
    } else {
      assert SizeTokens(sizes) == [];
    }
  }

  lemma {:induction false} SizesIgnored(u: Unixfs, sizes: seq<u64>)
    ensures UnixfsFold(u, SizeTokens(sizes)) == u
    decreases |sizes|
  {
    if |sizes| > 0 {
      SizesIgnored(u, sizes[1..]);
      assert SizeTokens(sizes)[1..] == SizeTokens(sizes[1..]);
    }
  }

  /** A written file message parses to an empty inline payload of file type. */
  lemma {:induction false} FileReadsBack(sizes: seq<u64>)
    requires Sum(sizes) < U64_LIMIT
    ensures ParseUnixfs(UnixfsFile(sizes)) == Some(Unixfs(UNIXFS_FILE, []))
  {
    hide NumberField, BlockSizes, Tokens, Sum;
    var total := Sum(sizes);
    var b := BlockSizes(sizes);
    var ts := SizeTokens(sizes);
    BlockSizesTokens(sizes);
    NumberTokens(3, total, b, ts);
    NumberTokens(1, UNIXFS_FILE, NumberField(3, total) + b, [Token(3, Num(total))] + ts);
    assert UnixfsFile(sizes) == NumberField(1, UNIXFS_FILE) + (NumberField(3, total) + b);
    var rest := [Token(3, Num(total))] + ts;
    var all := [Token(1, Num(UNIXFS_FILE))] + rest;
    var u := Unixfs(UNIXFS_FILE, []);
    assert all[0] == Token(1, Num(UNIXFS_FILE)) && all[1..] == rest;
    assert rest[0] == Token(3, Num(total)) && rest[1..] == ts;
    assert UnixfsFold(u, all) == UnixfsFold(u, rest);
    assert UnixfsFold(u, rest) == UnixfsFold(u, ts);
    SizesIgnored(u, sizes);
    assert |UnixfsFile(sizes)| > 0;
  }
}
