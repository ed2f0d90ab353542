/** What assembling a file means (client/src/dagnode.rs), on any store: the graph below an identifier unfolded into
    a tree, its payloads read in order. Files that carry octets of their own beside their pieces included. */
module Assembly {
  import opened Base
  import opened Cid
  import opened DagPb
  import opened Store
  import opened ImporterRun
  import opened Walker
  import opened SiteRead
  import opened TreeWire

  // ----- nodes written by others -----

  /** A UnixFS message with its type, a payload, a size and the sizes of blocks. */
  ghost function Message(kind: u64, payload: Octets, size: u64, sizes: seq<u64>): Octets {
    [0x08] + Varint.Write(kind) + ([0x12] + Varint.Write(|payload|) + payload) + ([0x18] + Varint.Write(size))
    + SizeFields(sizes)
  }

  lemma {:induction false} MessageReadsBack(kind: u64, payload: Octets, size: u64, sizes: seq<u64>)
    requires |payload| < U64_LIMIT
    ensures ParseUnixfs(Message(kind, payload, size, sizes)) == Some(Unixfs(kind, payload))
  {
    Tags();
    SizesAre(sizes);
    hide Varint.Write, NumberField, BytesField, BlockSizes, SizeFields, Tokens;
    var tail := BlockSizes(sizes);
    var ts := SizeTokens(sizes);
    var sized := NumberField(3, size) + tail;
    var paid := BytesField(2, payload) + sized;
    BlockSizesTokens(sizes);
    NumberTokens(3, size, tail, ts);
    var t3 := [Token(3, Num(size))] + ts;
    BytesTokens(2, payload, sized, t3);
    var t2 := [Token(2, Delimited(payload))] + t3;
    NumberTokens(1, kind, paid, t2);
    MessageParts(kind, payload, size, sizes);
    MessageFold(kind, payload, size, sizes);
  }

  lemma {:induction false} MessageParts(kind: u64, payload: Octets, size: u64, sizes: seq<u64>)
    ensures Message(kind, payload, size, sizes)
         == NumberField(1, kind) + (BytesField(2, payload) + (NumberField(3, size) + BlockSizes(sizes)))
    ensures |Message(kind, payload, size, sizes)| > 0
  {
    Tags();
    SizesAre(sizes);
    hide Varint.Write, BlockSizes, SizeFields;
  }

  lemma {:induction false} MessageFold(kind: u64, payload: Octets, size: u64, sizes: seq<u64>)
    ensures UnixfsFold(Unixfs(UNIXFS_FILE, []),
                       [Token(1, Num(kind))]
                       + ([Token(2, Delimited(payload))] + ([Token(3, Num(size))] + SizeTokens(sizes))))
         == Unixfs(kind, payload)
  {
    var ts := SizeTokens(sizes);
    var t3 := [Token(3, Num(size))] + ts;
    var t2 := [Token(2, Delimited(payload))] + t3;
    var t1 := [Token(1, Num(kind))] + t2;
    assert t1[0] == Token(1, Num(kind)) && t1[1..] == t2;
    assert t2[0] == Token(2, Delimited(payload)) && t2[1..] == t3;
    assert t3[0] == Token(3, Num(size)) && t3[1..] == ts;
    var u0, u1, u := Unixfs(UNIXFS_FILE, []), Unixfs(kind, []), Unixfs(kind, payload);
    assert UnixfsFold(u0, t1) == UnixfsFold(u1, t2);
    assert UnixfsFold(u1, t2) == UnixfsFold(u, t3);
    assert UnixfsFold(u, t3) == UnixfsFold(u, ts);
    SizesIgnored(u, sizes);
  }

  /** What a held node means, whoever wrote it: type 1 is a directory of its links, within the bound on them;
      type 2 a file, its payload and then what its links lead to; nothing else is read. */
  lemma {:induction false} NodeMeans(sha: Hash, disk: Disk, links: seq<Link>, kind: u64, payload: Octets, size: u64,
                                     sizes: seq<u64>, limits: WalkLimits)
    requires |Message(kind, payload, size, sizes)| < U64_LIMIT && forall i :: 0 <= i < |links| ==> Small(links[i])
    requires var node := NodeOctets(links, Message(kind, payload, size, sizes));
             Holds(sha, disk, Block(Cid(1, 0x70, sha(node)), node))
    ensures ReadNode(sha, disk, Cid(1, 0x70, sha(NodeOctets(links, Message(kind, payload, size, sizes)))), limits)
         == if kind == 1 then
              if |links| > limits.maxLinksPerNode then Err(BoundExceeded) else Ok(Directory(DirEntries(links)))
            else if kind == 2 then Ok(File(payload, Targets(DirEntries(links))))
            else Err(BoundExceeded)
  {
    var message := Message(kind, payload, size, sizes);
    MessageParts(kind, payload, size, sizes);
    PayloadWithin(kind, payload, size, sizes);
    MessageReadsBack(kind, payload, size, sizes);
    hide Message, NodeBytes, NodeOctets, ParseNode, ParseUnixfs, LinkBytes, DirLinks, SeenAll, DirEntries, Targets;
    NodeIs(links, message);
    forall i | 0 <= i < |links| ensures Fits(links[i]) {
      SmallFits(links[i]);
    }
    NodeReadsBack(links, message);
    LinksReadBack(links);
    SeenCount(links);
  }

  lemma {:induction false} SeenCount(links: seq<Link>)
    ensures |SeenAll(links)| == |links|
  {
  }

  lemma {:induction false} PayloadWithin(kind: u64, payload: Octets, size: u64, sizes: seq<u64>)
    ensures |payload| <= |Message(kind, payload, size, sizes)|
  {
    hide Varint.Write, SizeFields;
  }

  /** What is not there, not as it should be, or of no codec that is read. */
  lemma {:induction false} NotRead(sha: Hash, disk: Disk, cid: Cid, limits: WalkLimits)
    ensures cid !in disk ==> ReadNode(sha, disk, cid, limits) == Err(NotFound)
    ensures cid in disk && (|disk[cid]| > 1_048_576 || sha(disk[cid]) != cid.digest) ==>
              ReadNode(sha, disk, cid, limits) == Err(StoreFault)
    ensures cid in disk && |disk[cid]| <= 1_048_576 && sha(disk[cid]) == cid.digest ==>
              && (cid.codec == 0x55 ==> ReadNode(sha, disk, cid, limits) == Ok(Raw(disk[cid])))
              && (cid.codec != 0x55 && cid.codec != 0x70 ==> ReadNode(sha, disk, cid, limits) == Err(BadLink))
  {
    hide ParseNode, ParseUnixfs, Classify;
  }

  // ----- the tree below an identifier -----

  /** A tree of identifiers: an identifier as often as links lead to it. */
  datatype Tree = Tree(cid: Cid, below: seq<Tree>)

  /** The tree follows the links of files; a raw leaf ends it, and a directory has no place in it. */
  ghost predicate Unfolds(sha: Hash, disk: Disk, limits: WalkLimits, t: Tree)
    decreases t
  {
    match ReadNode(sha, disk, t.cid, limits)
    case Ok(Raw(_)) => t.below == []
    case Ok(File(_, children)) =>
      && |t.below| == |children|
      && forall i :: 0 <= i < |children| ==> t.below[i].cid == children[i] && Unfolds(sha, disk, limits, t.below[i])
    case _ => false
  }

  /** How many nodes there are in the tree. */
  function Size(t: Tree): nat
    decreases t, 1
  {
    1 + SizeAll(t.below)
  }

  function SizeAll(ts: seq<Tree>): nat
    decreases ts, 0
  {
    if |ts| == 0 then 0 else Size(ts[0]) + SizeAll(ts[1..])
  }

  /** The payloads of the tree, each node before what is below it. */
  ghost function Reading(sha: Hash, disk: Disk, limits: WalkLimits, t: Tree): Octets
    decreases t, 1
  {
    match ReadNode(sha, disk, t.cid, limits)
    case Ok(Raw(bytes)) => bytes
    case Ok(File(data, _)) => data + ReadingAll(sha, disk, limits, t.below)
    case _ => []
  }

  ghost function ReadingAll(sha: Hash, disk: Disk, limits: WalkLimits, ts: seq<Tree>): Octets
    decreases ts, 0
  {
    if |ts| == 0 then [] else Reading(sha, disk, limits, ts[0]) + ReadingAll(sha, disk, limits, ts[1..])
  }

  /** No file of the tree that has something below it reads longer than the bound. */
  ghost predicate Bounded(sha: Hash, disk: Disk, limits: WalkLimits, t: Tree)
    decreases t
  {
    && (|t.below| > 0 ==> |Reading(sha, disk, limits, t)| <= limits.maxResourceBytes)
    && forall i :: 0 <= i < |t.below| ==> Bounded(sha, disk, limits, t.below[i])
  }

  ghost predicate UnfoldsEach(sha: Hash, disk: Disk, limits: WalkLimits, children: seq<Cid>, ts: seq<Tree>) {
    && |ts| == |children|
    && forall i :: 0 <= i < |children| ==>
         ts[i].cid == children[i] && Unfolds(sha, disk, limits, ts[i]) && Bounded(sha, disk, limits, ts[i])
  }

  lemma {:induction false} TreeOf(sha: Hash, disk: Disk, cid: Cid, limits: WalkLimits, budget: nat) returns (t: Tree)
    requires AssembleFile(sha, disk, cid, limits, budget).result.Ok?
    ensures t.cid == cid && Unfolds(sha, disk, limits, t) && Bounded(sha, disk, limits, t) && Size(t) <= budget
    ensures AssembleFile(sha, disk, cid, limits, budget)
         == Assembled(Ok(Reading(sha, disk, limits, t)), budget - Size(t))
    decreases budget, 0
  {
    hide ReadNode, AssembleChildren;
    match ReadNode(sha, disk, cid, limits)
    case Ok(File(data, children)) =>
      var below := TreesOf(sha, disk, children, data, limits, budget - 1);
      t := Tree(cid, below);
    case _ =>
      t := Tree(cid, []);
  }

  lemma {:induction false} TreesOf(sha: Hash, disk: Disk, children: seq<Cid>, out: Octets, limits: WalkLimits,
                                   budget: nat)
    returns (ts: seq<Tree>)
    requires AssembleChildren(sha, disk, children, out, limits, budget).result.Ok?
    ensures UnfoldsEach(sha, disk, limits, children, ts) && SizeAll(ts) <= budget
    ensures AssembleChildren(sha, disk, children, out, limits, budget)
         == Assembled(Ok(out + ReadingAll(sha, disk, limits, ts)), budget - SizeAll(ts))
    ensures |ts| > 0 ==> |out + ReadingAll(sha, disk, limits, ts)| <= limits.maxResourceBytes
    decreases budget, 1 + |children|
  {
    hide AssembleFile, Reading, Size, Unfolds, Bounded;
    if |children| == 0 {
      ts := [];
      assert out + [] == out;
    } else {
      var first := TreeOf(sha, disk, children[0], limits, budget);
      var left := AssembleFile(sha, disk, children[0], limits, budget).left;
      var bytes := Reading(sha, disk, limits, first);
      var rest := TreesOf(sha, disk, children[1..], out + bytes, limits, left);
      ts := [first] + rest;
      assert ts[1..] == rest;
      assert out + (bytes + ReadingAll(sha, disk, limits, rest)) == out + bytes + ReadingAll(sha, disk, limits, rest);
    }
  }

  lemma {:induction false} TreeAssembles(sha: Hash, disk: Disk, limits: WalkLimits, t: Tree, budget: nat)
    requires Unfolds(sha, disk, limits, t) && Bounded(sha, disk, limits, t) && Size(t) <= budget
    ensures AssembleFile(sha, disk, t.cid, limits, budget)
         == Assembled(Ok(Reading(sha, disk, limits, t)), budget - Size(t))
    decreases t, 1
  {
    hide ReadNode, AssembleChildren;
    match ReadNode(sha, disk, t.cid, limits)
    case Ok(File(data, children)) =>
      TreesAssemble(sha, disk, limits, children, t.below, data, budget - 1);
    case _ =>
  }

  lemma {:induction false} TreesAssemble(sha: Hash, disk: Disk, limits: WalkLimits, children: seq<Cid>,
                                         ts: seq<Tree>, out: Octets, budget: nat)
    requires UnfoldsEach(sha, disk, limits, children, ts) && SizeAll(ts) <= budget
    requires |ts| > 0 ==> |out + ReadingAll(sha, disk, limits, ts)| <= limits.maxResourceBytes
    ensures AssembleChildren(sha, disk, children, out, limits, budget)
         == Assembled(Ok(out + ReadingAll(sha, disk, limits, ts)), budget - SizeAll(ts))
    decreases ts, 0
  {
    hide AssembleFile, Reading, Size, Unfolds, Bounded;
    if |children| == 0 {
      assert out + [] == out;
    } else {
      TreeAssembles(sha, disk, limits, ts[0], budget);
      var bytes := Reading(sha, disk, limits, ts[0]);
      var rest := ReadingAll(sha, disk, limits, ts[1..]);
      assert out + (bytes + rest) == out + bytes + rest;
      TreesAssemble(sha, disk, limits, children[1..], ts[1..], out + bytes, budget - Size(ts[0]));
    }
  }

  /** An assembly succeeds with this content exactly when the graph unfolds into a tree of no more nodes than the
      budget and within the byte bound, whose payloads in order are the content. */
  lemma {:induction false} AssembledIff(sha: Hash, disk: Disk, cid: Cid, limits: WalkLimits, budget: nat,
                                        content: Octets)
    ensures AssembleFile(sha, disk, cid, limits, budget).result == Ok(content)
       <==> exists t: Tree :: && t.cid == cid && Unfolds(sha, disk, limits, t) && Bounded(sha, disk, limits, t)
                              && Size(t) <= budget && content == Reading(sha, disk, limits, t)
  {
    hide AssembleFile, Unfolds, Bounded, Reading, Size;
    if AssembleFile(sha, disk, cid, limits, budget).result == Ok(content) {
      var t := TreeOf(sha, disk, cid, limits, budget);
    }
    forall t: Tree
      | t.cid == cid && Unfolds(sha, disk, limits, t) && Bounded(sha, disk, limits, t) && Size(t) <= budget
      ensures AssembleFile(sha, disk, cid, limits, budget).result == Ok(Reading(sha, disk, limits, t))
    {
      TreeAssembles(sha, disk, limits, t, budget);
    }
  }

  // ----- a path -----

  /** The first entry of this name leads here. */
  ghost predicate FirstNamed(entries: seq<DirLink>, name: Octets, target: Cid) {
    exists k :: && 0 <= k < |entries| && entries[k].name == name && entries[k].cid == target
                && NoneBefore(entries, name, k)
  }

  ghost predicate NoneBefore(entries: seq<DirLink>, name: Octets, k: nat)
    requires k <= |entries|
  {
    forall j :: 0 <= j < k ==> entries[j].name != name
  }

  /** One step: a directory that reads, and its first entry of that name. */
  ghost predicate StepTo(sha: Hash, disk: Disk, limits: WalkLimits, from: Cid, name: Octets, target: Cid) {
    var node := ReadNode(sha, disk, from, limits);
    node.Ok? && node.value.Directory? && FirstNamed(node.value.entries, name, target)
  }

  /** The trail takes one step for every name. */
  ghost predicate Leads(sha: Hash, disk: Disk, limits: WalkLimits, trail: seq<Cid>, names: seq<Octets>) {
    && |trail| == |names| + 1
    && forall i :: 0 <= i < |names| ==> StepTo(sha, disk, limits, trail[i], names[i], trail[i + 1])
  }

  lemma {:induction false} FindsFirst(entries: seq<DirLink>, name: Octets, target: Cid)
    ensures FindEntry(entries, name) == Some(target) <==> FirstNamed(entries, name, target)
  {
    if |entries| > 0 {
      if entries[0].name == name {
        assert NoneBefore(entries, name, 0);
        if FirstNamed(entries, name, target) {
          var k :| && 0 <= k < |entries| && entries[k].name == name && entries[k].cid == target
                   && NoneBefore(entries, name, k);
          assert k == 0;
        }
      } else {
        var rest := entries[1..];
        FindsFirst(rest, name, target);
        if FirstNamed(rest, name, target) {
          var k :| 0 <= k < |rest| && rest[k].name == name && rest[k].cid == target && NoneBefore(rest, name, k);
          forall j | 0 <= j < k + 1 ensures entries[j].name != name {
            assert j > 0 ==> entries[j] == rest[j - 1];
          }
          assert entries[k + 1] == rest[k] && NoneBefore(entries, name, k + 1);
        }
        if FirstNamed(entries, name, target) {
          var k :| && 0 <= k < |entries| && entries[k].name == name && entries[k].cid == target
                   && NoneBefore(entries, name, k);
          assert rest[k - 1] == entries[k];
          forall j | 0 <= j < k - 1 ensures rest[j].name != name {
            assert rest[j] == entries[j + 1];
          }
          assert NoneBefore(rest, name, k - 1);
        }
      }
    }
  }

  /** Reading a path succeeds with this content exactly when its names lead, directory by directory, to an
      identifier that assembles to it. */
  lemma {:induction false} ReadsIff(sha: Hash, disk: Disk, root: Cid, names: seq<Octets>, limits: WalkLimits,
                                    content: Octets)
    ensures ReadPath(sha, disk, root, names, limits) == Ok(content)
       <==> exists trail :: && Leads(sha, disk, limits, trail, names) && trail[0] == root
                            && AssembleFile(sha, disk, trail[|names|], limits, limits.maxDepth).result == Ok(content)
    decreases |names|
  {
    hide ReadNode, AssembleFile, FindEntry, FirstNamed;
    if |names| == 0 {
      assert Leads(sha, disk, limits, [root], names);
    } else {
      PathTurn(sha, disk, root, names, limits);
      hide ReadPath, PathReads;
      if ReadPath(sha, disk, root, names, limits) == Ok(content) {
        var trail := TrailOf(sha, disk, root, names, limits, content);
      }
      if trail :| && Leads(sha, disk, limits, trail, names) && trail[0] == root
                  && AssembleFile(sha, disk, trail[|names|], limits, limits.maxDepth).result == Ok(content) {
        assert StepTo(sha, disk, limits, trail[0], names[0], trail[0 + 1]);
        FindsFirst(ReadNode(sha, disk, root, limits).value.entries, names[0], trail[1]);
        var rest := trail[1..];
        forall i | 0 <= i < |names| - 1 ensures StepTo(sha, disk, limits, rest[i], names[1..][i], rest[i + 1]) {
          assert StepTo(sha, disk, limits, trail[i + 1], names[i + 1], trail[i + 1 + 1]);
        }
        assert Leads(sha, disk, limits, rest, names[1..]) && rest[|names[1..]|] == trail[|names|];
        ReadsIff(sha, disk, trail[1], names[1..], limits, content);
      }
    }
  }

  lemma {:induction false} TrailOf(sha: Hash, disk: Disk, root: Cid, names: seq<Octets>, limits: WalkLimits,
                                   content: Octets)
    returns (trail: seq<Cid>)
    requires |names| > 0 && ReadPath(sha, disk, root, names, limits) == Ok(content)
    ensures Leads(sha, disk, limits, trail, names) && trail[0] == root
    ensures AssembleFile(sha, disk, trail[|names|], limits, limits.maxDepth).result == Ok(content)
    decreases |names|, 0
  {
    hide ReadNode, AssembleFile, FindEntry, FirstNamed;
    PathTurn(sha, disk, root, names, limits);
    hide PathReads;
    var entries := ReadNode(sha, disk, root, limits).value.entries;
    var child := FindEntry(entries, names[0]).value;
    FindsFirst(entries, names[0], child);
    var rest: seq<Cid>;
    if |names| == 1 {
      rest := [child];
    } else {
      rest := TrailOf(sha, disk, child, names[1..], limits, content);
    }
    trail := [root] + rest;
    forall i | 0 <= i < |names| ensures StepTo(sha, disk, limits, trail[i], names[i], trail[i + 1]) {
      if i > 0 {
        assert StepTo(sha, disk, limits, rest[i - 1], names[1..][i - 1], rest[i - 1 + 1]);
      }
    }
  }
}
