/** Reading trees back out of a store (client/src/dagnode.rs): nodes, files, paths and the set of
    blocks a tree reaches, on any directory whatever, cyclic or corrupt. */
module Walker {
  import opened Base
  import opened Arith
  import opened Utf8
  import opened Cid
  import opened DagPb
  import DagPbReader
  import opened Store

  datatype WalkError = StoreFault | BadLink | NotADirectory | TooDeep | BoundExceeded | NotFound

  datatype WalkLimits = WalkLimits(maxDepth: nat, maxLinksPerNode: nat, maxResourceBytes: nat)

  const DEFAULT_LIMITS: WalkLimits := WalkLimits(32, MAX_LINKS, 256 * 1024 * 1024)

  datatype DirLink = DirLink(cid: Cid, name: Str, tsize: u64)

  datatype Node = Raw(bytes: Octets) | File(data: Octets, children: seq<Cid>) | Directory(entries: seq<DirLink>)

  // ----- one node -----

  function DirLinks(links: seq<PbLink>): (r: Result<seq<DirLink>, WalkError>)
    ensures r.Ok? ==> |r.value| == |links|
  {
    if |links| == 0 then Ok([])
    else
      match FromBytes(links[0].hash)
      case Err(_) => Err(BadLink)
      case Ok(cid) =>
        var rest :- DirLinks(links[1..]);
        Ok([DirLink(cid, links[0].name, links[0].tsize)] + rest)
  }

  function Targets(entries: seq<DirLink>): (r: seq<Cid>)
    ensures |r| == |entries| && forall i :: 0 <= i < |entries| ==> r[i] == entries[i].cid
  {
    seq(|entries|, i requires 0 <= i < |entries| => entries[i].cid)
  }

  /** What a block's octets mean under the codec of the identifier that referred to it. */
  function Interpret(codec: u64, bytes: Octets, limits: WalkLimits): Result<Node, WalkError> {
    if codec == CODEC_RAW then Ok(Raw(bytes))
    else if codec == CODEC_DAG_PB then
      match ParseNode(bytes)
      case None => Err(BoundExceeded)
      case Some(pb) =>
        match ParseUnixfs(pb.data)
        case None => Err(BoundExceeded)
        case Some(Unixfs(kind, payload)) => Classify(kind, payload, pb.links, limits)
    else Err(BadLink)
  }

  function Classify(kind: u64, payload: Octets, links: seq<PbLink>, limits: WalkLimits): Result<Node, WalkError> {
    if kind == UNIXFS_DIRECTORY then
      if |links| > limits.maxLinksPerNode then Err(BoundExceeded)
      else
        var entries :- DirLinks(links);
        Ok(Directory(entries))
    else if kind == UNIXFS_FILE then
      var entries :- DirLinks(links);
      Ok(File(payload, Targets(entries)))
    else
      Err(BoundExceeded)
  }

  function ReadNode(sha: Hash, disk: Disk, cid: Cid, limits: WalkLimits): Result<Node, WalkError> {
    match GetFrom(sha, disk, cid)
    case Err(_) => Err(StoreFault)
    case Ok(None) => Err(NotFound)
    case Ok(Some(bytes)) => Interpret(cid.codec, bytes, limits)
  }

  method ReadLinks(links: seq<PbLink>) returns (r: Result<seq<DirLink>, WalkError>)
    ensures r == DirLinks(links)
  {
    var entries: seq<DirLink> := [];
    assert links[0..] == links;
    assert forall rest: seq<DirLink> :: [] + rest == rest;
    for i := 0 to |links|
      invariant match DirLinks(links[i..])
                case Ok(rest) => DirLinks(links) == Ok(entries + rest)
                case Err(e) => DirLinks(links) == Err(e)
    {
      assert links[i..][1..] == links[i + 1..];
      var cid := ParseBytes(links[i].hash);
      if cid.Err? {
        return Err(BadLink);
      }
      var entry := DirLink(cid.value, links[i].name, links[i].tsize);
      assert forall rest: seq<DirLink> :: entries + ([entry] + rest) == (entries + [entry]) + rest;
      entries := entries + [entry];
    }
    assert entries + [] == entries;
    r := Ok(entries);
  }

  method FetchNode(store: BlockStore, cid: Cid, limits: WalkLimits) returns (r: Result<Node, WalkError>)
    ensures r == ReadNode(store.sha, store.disk, cid, limits)
  {
    var bytes := store.Get(cid);
    if bytes.Err? {
      return Err(StoreFault);
    }
    if bytes.value.None? {
      return Err(NotFound);
    }
    if cid.codec == CODEC_RAW {
      return Ok(Raw(bytes.value.value));
    }
    if cid.codec != CODEC_DAG_PB {
      return Err(BadLink);
    }
    var pb := DagPbReader.ParseNodeBytes(bytes.value.value);
    if pb.None? {
      return Err(BoundExceeded);
    }
    var unixfs := DagPbReader.ParseUnixfsBytes(pb.value.data);
    if unixfs.None? {
      return Err(BoundExceeded);
    }
    if unixfs.value.kind == UNIXFS_DIRECTORY {
      if |pb.value.links| > limits.maxLinksPerNode {
        return Err(BoundExceeded);
      }
      var entries :- ReadLinks(pb.value.links);
      r := Ok(Directory(entries));
    } else if unixfs.value.kind == UNIXFS_FILE {
      var entries :- ReadLinks(pb.value.links);
      r := Ok(File(unixfs.value.payload, Targets(entries)));
    } else {
      r := Err(BoundExceeded);
    }
  }

  // ----- one file -----

  /** The outcome of an assembly and the node budget it leaves. */
  datatype Assembled = Assembled(result: Result<Octets, WalkError>, left: nat)

  /** `depth_left` is one shared budget of nodes: spent at every node, never given back. */
  function AssembleFile(sha: Hash, disk: Disk, cid: Cid, limits: WalkLimits, budget: nat): (r: Assembled)
    ensures r.left <= budget
    ensures budget > 0 ==> r.left < budget
    decreases budget, 0, disk
  {
    if budget == 0 then Assembled(Err(TooDeep), 0)
    else
      match ReadNode(sha, disk, cid, limits)
      case Err(e) => Assembled(Err(e), budget - 1)
      case Ok(Raw(bytes)) => Assembled(Ok(bytes), budget - 1)
      case Ok(Directory(_)) => Assembled(Err(NotADirectory), budget - 1)
      case Ok(File(data, children)) => AssembleChildren(sha, disk, children, data, limits, budget - 1)
  }

  function AssembleChildren(sha: Hash, disk: Disk, children: seq<Cid>, out: Octets, limits: WalkLimits, budget: nat)
    : (r: Assembled)
    ensures r.left <= budget
    decreases budget, 1 + |children|, disk
  {
    if |children| == 0 then Assembled(Ok(out), budget)
    else
      var first := AssembleFile(sha, disk, children[0], limits, budget);
      match first.result
      case Err(e) => Assembled(Err(e), first.left)
      case Ok(bytes) =>
        if |out + bytes| > limits.maxResourceBytes then Assembled(Err(BoundExceeded), first.left)
        else AssembleChildren(sha, disk, children[1..], out + bytes, limits, first.left)
  }

  /** The identifiers an assembly asks the store for, in order, repeats included. */
  ghost function Reads(sha: Hash, disk: Disk, cid: Cid, limits: WalkLimits, budget: nat): seq<Cid>
    decreases budget, 0, disk
  {
    if budget == 0 then []
    else
      match ReadNode(sha, disk, cid, limits)
      case Ok(File(data, children)) => [cid] + ChildReads(sha, disk, children, data, limits, budget - 1)
      case _ => [cid]
  }

  ghost function ChildReads(sha: Hash, disk: Disk, children: seq<Cid>, out: Octets, limits: WalkLimits,
                            budget: nat): seq<Cid>
    decreases budget, 1 + |children|, disk
  {
    if |children| == 0 then []
    else
      var first := AssembleFile(sha, disk, children[0], limits, budget);
      Reads(sha, disk, children[0], limits, budget)
      + match first.result
        case Err(_) => []
        case Ok(bytes) =>
          if |out + bytes| > limits.maxResourceBytes then []
          else ChildReads(sha, disk, children[1..], out + bytes, limits, first.left)
  }

  /** The budget of one assembly, with the nodes read so far as a ghost record. */
  class Budget {
    var left: nat
    ghost var visited: seq<Cid>

    constructor (left: nat)
      ensures this.left == left && visited == []
    {
      this.left := left;
      this.visited := [];
    }
  }

  /** One turn of the loop over a file's children. */
  lemma {:induction false} ChildTurn(sha: Hash, disk: Disk, children: seq<Cid>, i: nat, out: Octets,
                                     limits: WalkLimits, budget: nat)
    requires i < |children|
    ensures var first := AssembleFile(sha, disk, children[i], limits, budget);
            var rest := AssembleChildren(sha, disk, children[i..], out, limits, budget);
            var read := ChildReads(sha, disk, children[i..], out, limits, budget);
            match first.result
            case Err(e) =>
              rest == Assembled(Err(e), first.left) && read == Reads(sha, disk, children[i], limits, budget)
            case Ok(bytes) =>
              if |out + bytes| > limits.maxResourceBytes then
                rest == Assembled(Err(BoundExceeded), first.left)
                  && read == Reads(sha, disk, children[i], limits, budget)
              else
                && rest == AssembleChildren(sha, disk, children[i + 1..], out + bytes, limits, first.left)
                && read == Reads(sha, disk, children[i], limits, budget)
                           + ChildReads(sha, disk, children[i + 1..], out + bytes, limits, first.left)
  {
    hide Reads, AssembleFile;
    assert children[i..][1..] == children[i + 1..] && children[i..][0] == children[i];
  }

  lemma {:induction false} NoChildren(sha: Hash, disk: Disk, out: Octets, limits: WalkLimits, budget: nat)
    ensures AssembleChildren(sha, disk, [], out, limits, budget) == Assembled(Ok(out), budget)
    ensures ChildReads(sha, disk, [], out, limits, budget) == []
  {
  }

  /** A node that is read, in terms of what it is. */
  lemma {:induction false} NodeTurn(sha: Hash, disk: Disk, cid: Cid, limits: WalkLimits, budget: nat)
    requires budget > 0
    ensures match ReadNode(sha, disk, cid, limits)
            case Ok(File(data, children)) =>
              && AssembleFile(sha, disk, cid, limits, budget)
                 == AssembleChildren(sha, disk, children, data, limits, budget - 1)
              && Reads(sha, disk, cid, limits, budget) == [cid]
                + ChildReads(sha, disk, children, data, limits, budget - 1)
            case _ => Reads(sha, disk, cid, limits, budget) == [cid]
  {
    hide ReadNode, AssembleChildren, ChildReads;
  }

  method Assemble(store: BlockStore, cid: Cid, limits: WalkLimits, budget: Budget)
    returns (r: Result<Octets, WalkError>)
    modifies budget
    ensures Assembled(r, budget.left) == AssembleFile(store.sha, store.disk, cid, limits, old(budget.left))
    ensures budget.visited == old(budget.visited) + Reads(store.sha, store.disk, cid, limits, old(budget.left))
    decreases budget.left, 0
  {
    hide ReadNode, AssembleChildren, ChildReads;
    if budget.left == 0 {
      return Err(TooDeep);
    }
    NodeTurn(store.sha, store.disk, cid, limits, budget.left);
    budget.left := budget.left - 1;
    budget.visited := budget.visited + [cid];
    var node :- FetchNode(store, cid, limits);
    match node {
      case Raw(bytes) => r := Ok(bytes);
      case Directory(_) => r := Err(NotADirectory);
      case File(data, children) => r := AssembleEach(store, children, data, limits, budget);
    }
  }

  /** The loop over a file's children, which all spend from the same budget. */
  method AssembleEach(store: BlockStore, children: seq<Cid>, data: Octets, limits: WalkLimits, budget: Budget)
    returns (r: Result<Octets, WalkError>)
    modifies budget
    ensures Assembled(r, budget.left) == AssembleChildren(store.sha, store.disk, children, data, limits,
                                                          old(budget.left))
    ensures budget.visited == old(budget.visited) + ChildReads(store.sha, store.disk, children, data, limits,
                                                               old(budget.left))
    decreases budget.left, 1
  {
    hide AssembleFile, AssembleChildren, Reads, ChildReads;
    var out := data;
    ghost var sha, disk, start, before := store.sha, store.disk, budget.left, budget.visited;
    assert children[0..] == children;
    for i := 0 to |children|
      invariant budget.left <= start
      invariant AssembleChildren(sha, disk, children, data, limits, start)
             == AssembleChildren(sha, disk, children[i..], out, limits, budget.left)
      invariant before + ChildReads(sha, disk, children, data, limits, start)
             == budget.visited + ChildReads(sha, disk, children[i..], out, limits, budget.left)
    {
      ghost var seen, left := budget.visited, budget.left;
      ChildTurn(sha, disk, children, i, out, limits, left);
      var bytes :- Assemble(store, children[i], limits, budget);
      if |out + bytes| > limits.maxResourceBytes {
        return Err(BoundExceeded);
      }
      out := out + bytes;
      Reassociate(seen, Reads(sha, disk, children[i], limits, left),
                  ChildReads(sha, disk, children[i + 1..], out, limits, budget.left));
    }
    assert children[|children|..] == [] && budget.visited + [] == budget.visited;
    NoChildren(sha, disk, out, limits, budget.left);
    r := Ok(out);
  }

  // ----- one path -----

  /** The target of the first entry with this name. */
  function FindEntry(entries: seq<DirLink>, name: Octets): (r: Option<Cid>)
  {
    if |entries| == 0 then None
    else if entries[0].name == name then Some(entries[0].cid)
    else FindEntry(entries[1..], name)
  }

  /** Descend from a node by a non-empty list of names and assemble what the last one names. */
  function ReadFrom(sha: Hash, disk: Disk, cid: Cid, segments: seq<Octets>, limits: WalkLimits): Result<Octets,
    WalkError>
    requires |segments| > 0
    decreases |segments|
  {
    match ReadNode(sha, disk, cid, limits)
    case Err(e) => Err(e)
    case Ok(Raw(_)) => Err(NotFound)
    case Ok(File(_, _)) => Err(NotFound)
    case Ok(Directory(entries)) =>
      match FindEntry(entries, segments[0])
      case None => Err(NotFound)
      case Some(child) =>
        if |segments| == 1 then AssembleFile(sha, disk, child, limits, limits.maxDepth).result
        else ReadFrom(sha, disk, child, segments[1..], limits)
  }

  function ReadPath(sha: Hash, disk: Disk, root: Cid, segments: seq<Octets>, limits: WalkLimits): Result<Octets,
    WalkError> {
    if |segments| == 0 then AssembleFile(sha, disk, root, limits, limits.maxDepth).result
    else ReadFrom(sha, disk, root, segments, limits)
  }

  /** The identifiers the reading of a path asks the store for: the directories on the way, then the
      assembly. */
  ghost function PathReads(sha: Hash, disk: Disk, cid: Cid, segments: seq<Octets>, limits: WalkLimits): seq<Cid>
    decreases |segments|
  {
    if |segments| == 0 then Reads(sha, disk, cid, limits, limits.maxDepth)
    else
      match ReadNode(sha, disk, cid, limits)
      case Ok(Directory(entries)) =>
        (match FindEntry(entries, segments[0])
         case None => [cid]
         case Some(child) => [cid] + PathReads(sha, disk, child, segments[1..], limits))
      case _ => [cid]
  }

  /** One step down a path. */
  lemma {:induction false} PathTurn(sha: Hash, disk: Disk, cid: Cid, segments: seq<Octets>, limits: WalkLimits)
    requires |segments| > 0
    ensures var found := ReadPath(sha, disk, cid, segments, limits);
            var read := PathReads(sha, disk, cid, segments, limits);
            match ReadNode(sha, disk, cid, limits)
            case Err(e) => found == Err(e) && read == [cid]
            case Ok(Directory(entries)) =>
              (match FindEntry(entries, segments[0])
               case None => found == Err(NotFound) && read == [cid]
               case Some(child) =>
                 && found == ReadPath(sha, disk, child, segments[1..], limits)
                 && read == [cid] + PathReads(sha, disk, child, segments[1..], limits))
            case Ok(_) => found == Err(NotFound) && read == [cid]
  {
    hide ReadNode, FindEntry, AssembleFile, Reads;
  }

  method SearchEntry(entries: seq<DirLink>, name: Octets) returns (r: Option<Cid>)
    ensures r == FindEntry(entries, name)
  {
    assert entries[0..] == entries;
    for i := 0 to |entries|
      invariant FindEntry(entries, name) == FindEntry(entries[i..], name)
    {
      assert entries[i..][1..] == entries[i + 1..];
      if entries[i].name == name {
        return Some(entries[i].cid);
      }
    }
    r := None;
  }

  method FetchPath(store: BlockStore, root: Cid, segments: seq<Octets>, limits: WalkLimits)
    returns (r: Result<Octets, WalkError>, ghost asked: seq<Cid>)
    ensures r == ReadPath(store.sha, store.disk, root, segments, limits)
    ensures asked == PathReads(store.sha, store.disk, root, segments, limits)
  {
    hide ReadNode, ReadPath, PathReads, AssembleFile, Reads;
    ghost var sha, disk := store.sha, store.disk;
    var current := root;
    var budget := new Budget(limits.maxDepth);
    asked := [];
    assert segments[0..] == segments;
    for index := 0 to |segments|
      invariant budget.left == limits.maxDepth && fresh(budget) && budget.visited == []
      invariant |segments| > 0 ==> index < |segments|
      invariant |segments| == 0 ==> current == root
      invariant ReadPath(sha, disk, root, segments, limits) == ReadPath(sha, disk, current, segments[index..], limits)
      invariant PathReads(sha, disk, root, segments, limits)
             == asked + PathReads(sha, disk, current, segments[index..], limits)
    {
      assert segments[index..][1..] == segments[index + 1..] && segments[index..][0] == segments[index];
      PathTurn(sha, disk, current, segments[index..], limits);
      ghost var above := asked;
      asked := asked + [current];
      var node := FetchNode(store, current, limits);
      if node.Err? {
        return Err(node.error), asked;
      }
      match node.value {
        case Raw(_) => return Err(NotFound), asked;
        case File(_, _) => return Err(NotFound), asked;
        case Directory(entries) =>
          var child := SearchEntry(entries, segments[index]);
          if child.None? {
            return Err(NotFound), asked;
          }
          Reassociate(above, [current], PathReads(sha, disk, child.value, segments[index + 1..], limits));
          current := child.value;
          if index == |segments| - 1 {
            assert segments[index + 1..] == [];
            PathEnd(sha, disk, current, limits);
            r := Assemble(store, current, limits, budget);
            asked := asked + budget.visited;
            return;
          }
      }
    }
    PathEnd(sha, disk, root, limits);
    r := Assemble(store, root, limits, budget);
    asked := asked + budget.visited;
  }

  lemma {:induction false} PathEnd(sha: Hash, disk: Disk, cid: Cid, limits: WalkLimits)
    ensures ReadPath(sha, disk, cid, [], limits) == AssembleFile(sha, disk, cid, limits, limits.maxDepth).result
    ensures PathReads(sha, disk, cid, [], limits) == Reads(sha, disk, cid, limits, limits.maxDepth)
  {
  }

  // ----- bounds on any store -----

  /** What one node yields by itself is no longer than a block. */
  lemma {:induction false} NodeBounded(sha: Hash, disk: Disk, cid: Cid, limits: WalkLimits)
    requires ReadNode(sha, disk, cid, limits).Ok?
    ensures match ReadNode(sha, disk, cid, limits).value
            case Raw(bytes) => |bytes| <= MAX_BLOCK_BYTES
            case File(data, _) => |data| <= MAX_BLOCK_BYTES
            case Directory(_) => true
  {
    GetIsGenuine(sha, disk, cid);
    hide GetFrom, Interpret;
    var bytes := GetFrom(sha, disk, cid).value.value;
    if ReadNode(sha, disk, cid, limits).value.File? {
      PayloadBounded(cid.codec, bytes, limits);
    }
    RawIsBlock(cid.codec, bytes, limits);
  }

  lemma {:induction false} RawIsBlock(codec: u64, bytes: Octets, limits: WalkLimits)
    ensures Interpret(codec, bytes, limits).Ok? && Interpret(codec, bytes, limits).value.Raw? ==>
              Interpret(codec, bytes, limits).value.bytes == bytes
  {
    hide ParseNode, ParseUnixfs, DirLinks;
  }

  /** Whatever the store holds, a result is no longer than the larger of the two bounds. */
  lemma {:induction false} AssembleBounded(sha: Hash, disk: Disk, cid: Cid, limits: WalkLimits, budget: nat)
    ensures var r := AssembleFile(sha, disk, cid, limits, budget);
            r.result.Ok? ==> |r.result.value| <= Max(limits.maxResourceBytes, MAX_BLOCK_BYTES)
    decreases budget, 0
  {
    if budget > 0 && ReadNode(sha, disk, cid, limits).Ok? {
      NodeBounded(sha, disk, cid, limits);
      hide ReadNode;
      match ReadNode(sha, disk, cid, limits).value
      case Raw(bytes) =>
      case Directory(_) =>
      case File(data, children) =>
        ChildrenBounded(sha, disk, children, data, limits, budget - 1);
    }
  }

  lemma {:induction false} ChildrenBounded(sha: Hash, disk: Disk, children: seq<Cid>, out: Octets, limits: WalkLimits,
                                           budget: nat)
    requires |out| <= Max(limits.maxResourceBytes, MAX_BLOCK_BYTES)
    ensures var r := AssembleChildren(sha, disk, children, out, limits, budget);
            r.result.Ok? ==> |r.result.value| <= Max(limits.maxResourceBytes, MAX_BLOCK_BYTES)
    decreases budget, 1 + |children|
  {
    if |children| > 0 {
      var first := AssembleFile(sha, disk, children[0], limits, budget);
      if first.result.Ok? && |out + first.result.value| <= limits.maxResourceBytes {
        ChildrenBounded(sha, disk, children[1..], out + first.result.value, limits, first.left);
      }
    }
  }

  /** An inline payload is part of the block it was read from. */
  lemma {:induction false} PayloadBounded(codec: u64, bytes: Octets, limits: WalkLimits)
    requires Interpret(codec, bytes, limits).Ok? && Interpret(codec, bytes, limits).value.File?
    ensures |Interpret(codec, bytes, limits).value.data| <= |bytes|
  {
    var pb := ParseNode(bytes).value;
    TokensBounded(bytes);
    NodeDataBounded(PbNode([], []), Tokens(bytes).value, |bytes|);
    if |pb.data| > 0 {
      TokensBounded(pb.data);
      PayloadOfTokens(Unixfs(UNIXFS_FILE, []), Tokens(pb.data).value, |pb.data|);
    }
  }

  /** Every delimited field fits the message it came from. */
  ghost predicate AllWithin(ts: seq<Token>, bound: nat) {
    forall i :: 0 <= i < |ts| && ts[i].payload.Delimited? ==> |ts[i].payload.bytes| <= bound
  }

  lemma {:induction false} TokensBounded(b: Octets)
    ensures Tokens(b).Some? ==> AllWithin(Tokens(b).value, |b|)
    decreases |b|
  {
    if |b| > 0 && Tokens(b).Some? {
      var next := NextField(b).value;
      TokensBounded(next.rest);
      assert Tokens(b).value == [next.token] + Tokens(next.rest).value;
    }
  }

  lemma {:induction false} NodeDataBounded(node: PbNode, ts: seq<Token>, bound: nat)
    requires AllWithin(ts, bound) && |node.data| <= bound
    ensures NodeFold(node, ts).Some? ==> |NodeFold(node, ts).value.data| <= bound
    decreases |ts|
  {
    if |ts| > 0 && NodeField(node, ts[0]).Some? {
      NodeDataBounded(NodeField(node, ts[0]).value, ts[1..], bound);
    }
  }

  lemma {:induction false} PayloadOfTokens(u: Unixfs, ts: seq<Token>, bound: nat)
    requires AllWithin(ts, bound) && |u.payload| <= bound
    ensures |UnixfsFold(u, ts).payload| <= bound
    decreases |ts|
  {
    if |ts| > 0 {
      PayloadOfTokens(UnixfsField(u, ts[0]), ts[1..], bound);
    }
  }

  /** The same bound for a whole path. */
  lemma {:induction false} ReadPathBounded(sha: Hash, disk: Disk, root: Cid, segments: seq<Octets>, limits: WalkLimits)
    ensures var r := ReadPath(sha, disk, root, segments, limits);
            r.Ok? ==> |r.value| <= Max(limits.maxResourceBytes, MAX_BLOCK_BYTES)
    decreases |segments|
  {
    if |segments| == 0 {
      AssembleBounded(sha, disk, root, limits, limits.maxDepth);
    } else {
      match ReadNode(sha, disk, root, limits)
      case Ok(Directory(entries)) =>
        if FindEntry(entries, segments[0]).Some? {
          var child := FindEntry(entries, segments[0]).value;
          if |segments| == 1 {
            AssembleBounded(sha, disk, child, limits, limits.maxDepth);
          } else {
            ReadPathBounded(sha, disk, child, segments[1..], limits);
          }
        }
      case _ =>
    }
  }

  // ----- every block a tree is made of -----

  /** The identifiers a node links to, in order. */
  function Children(node: Node): seq<Cid> {
    match node
    case Raw(_) => []
    case File(_, children) => children
    case Directory(entries) => Targets(entries)
  }

  /** `child` is linked from a node that reads. */
  ghost predicate LinksTo(sha: Hash, disk: Disk, limits: WalkLimits, parent: Cid, child: Cid) {
    var node := ReadNode(sha, disk, parent, limits);
    node.Ok? && child in Children(node.value)
  }

  /** A directory links to exactly the identifiers of its entries, a file to exactly its pieces, a raw leaf and
      what does not read to nothing. */
  lemma {:induction false} LinksToIff(sha: Hash, disk: Disk, limits: WalkLimits, parent: Cid, child: Cid)
    ensures LinksTo(sha, disk, limits, parent, child)
       <==> match ReadNode(sha, disk, parent, limits)
            case Ok(Directory(entries)) => exists i :: 0 <= i < |entries| && entries[i].cid == child
            case Ok(File(_, children)) => exists i :: 0 <= i < |children| && children[i] == child
            case _ => false
  {
    hide ReadNode;
    match ReadNode(sha, disk, parent, limits)
    case Ok(Directory(entries)) =>
      forall i | 0 <= i < |entries|
        ensures entries[i].cid == Targets(entries)[i] && Targets(entries)[i] in Targets(entries)
      {
      }
    case _ =>
  }

  ghost predicate Trail(sha: Hash, disk: Disk, limits: WalkLimits, trail: seq<Cid>) {
    forall i :: 0 <= i < |trail| - 1 ==> LinksTo(sha, disk, limits, trail[i], trail[i + 1])
  }

  /** A chain of links leads from `root` to `c`. */
  ghost predicate Reaches(sha: Hash, disk: Disk, limits: WalkLimits, root: Cid, c: Cid) {
    exists trail :: |trail| > 0 && trail[0] == root && trail[|trail| - 1] == c && Trail(sha, disk, limits, trail)
  }

  lemma {:induction false} ReachesItself(sha: Hash, disk: Disk, limits: WalkLimits, root: Cid)
    ensures Reaches(sha, disk, limits, root, root)
  {
    var trail := [root];
    assert Trail(sha, disk, limits, trail) && trail[0] == root && trail[|trail| - 1] == root;
  }

  lemma {:induction false} ReachesOn(sha: Hash, disk: Disk, limits: WalkLimits, root: Cid, parent: Cid, child: Cid)
    requires Reaches(sha, disk, limits, root, parent) && LinksTo(sha, disk, limits, parent, child)
    ensures Reaches(sha, disk, limits, root, child)
  {
    var trail :| |trail| > 0 && trail[0] == root && trail[|trail| - 1] == parent && Trail(sha, disk, limits, trail);
    var longer := trail + [child];
    forall i | 0 <= i < |longer| - 1 ensures LinksTo(sha, disk, limits, longer[i], longer[i + 1]) {
      if i < |trail| - 1 {
        assert LinksTo(sha, disk, limits, trail[i], trail[i + 1]);
      }
    }
    assert longer[0] == root && longer[|longer| - 1] == child && Trail(sha, disk, limits, longer);
  }

  /** A collection that holds the root and the targets of its members holds all that is reached. */
  lemma {:induction false} ClosedHoldsTrail(sha: Hash, disk: Disk, limits: WalkLimits, blocks: seq<Cid>,
                                            trail: seq<Cid>)
    requires |trail| > 0 && trail[0] in blocks && Trail(sha, disk, limits, trail)
    requires forall b, c :: b in blocks && LinksTo(sha, disk, limits, b, c) ==> c in blocks
    ensures trail[|trail| - 1] in blocks
    decreases |trail|
  {
    if |trail| > 1 {
      assert LinksTo(sha, disk, limits, trail[0], trail[0 + 1]);
      var rest := trail[1..];
      forall i | 0 <= i < |rest| - 1 ensures LinksTo(sha, disk, limits, rest[i], rest[i + 1]) {
        assert LinksTo(sha, disk, limits, trail[i + 1], trail[i + 1 + 1]);
      }
      ClosedHoldsTrail(sha, disk, limits, blocks, rest);
    }
  }

  lemma {:induction false} ClosedHoldsReached(sha: Hash, disk: Disk, limits: WalkLimits, root: Cid, blocks: seq<Cid>)
    requires root in blocks
    requires forall b, c :: b in blocks && LinksTo(sha, disk, limits, b, c) ==> c in blocks
    ensures forall c :: Reaches(sha, disk, limits, root, c) ==> c in blocks
  {
    forall c | Reaches(sha, disk, limits, root, c) ensures c in blocks {
      var trail :| |trail| > 0 && trail[0] == root && trail[|trail| - 1] == c && Trail(sha, disk, limits, trail);
      ClosedHoldsTrail(sha, disk, limits, blocks, trail);
    }
  }

  /** What a collection is: the root first, no repeats, exactly what is reached, all of it readable. */
  ghost predicate Collection(sha: Hash, disk: Disk, limits: WalkLimits, root: Cid, blocks: seq<Cid>) {
    && |blocks| > 0 && blocks[0] == root
    && (forall i, j :: 0 <= i < j < |blocks| ==> blocks[i] != blocks[j])
    && (forall c :: c in blocks <==> Reaches(sha, disk, limits, root, c))
    && (forall c :: c in blocks ==> ReadNode(sha, disk, c, limits).Ok?)
  }

  /** The walk's state: what is listed has been read, and its targets are listed or waiting. */
  ghost predicate Walking(sha: Hash, disk: Disk, limits: WalkLimits, root: Cid, blocks: seq<Cid>, stack: seq<Cid>) {
    && (if blocks == [] then stack == [root] else blocks[0] == root)
    && (forall i, j :: 0 <= i < j < |blocks| ==> blocks[i] != blocks[j])
    && (forall c :: c in blocks ==> c in disk && ReadNode(sha, disk, c, limits).Ok?)
    && (forall c :: c in blocks || c in stack ==> Reaches(sha, disk, limits, root, c))
    && (forall b, c :: b in blocks && LinksTo(sha, disk, limits, b, c) ==> c in blocks || c in stack)
  }

  method CollectBlocks(store: BlockStore, root: Cid, limits: WalkLimits) returns (r: Result<seq<Cid>, WalkError>)
    ensures match r
            case Ok(blocks) => Collection(store.sha, store.disk, limits, root, blocks)
            case Err(e) =>
              exists c :: Reaches(store.sha, store.disk, limits, root, c)
                && ReadNode(store.sha, store.disk, c, limits) == Err(e)
  {
    var blocks: seq<Cid> := [];
    var seen: set<Octets> := {};
    var stack := [root];
    ReachesItself(store.sha, store.disk, limits, root);
    while |stack| > 0
      invariant Walking(store.sha, store.disk, limits, root, blocks, stack)
      invariant SeenTexts(seen, blocks)
      decreases store.disk.Keys - (set c | c in blocks), |stack|
    {
      var cid := stack[|stack| - 1];
      ghost var before := stack;
      stack := stack[..|stack| - 1];
      if ToText(cid) in seen {
        Passed(store.sha, store.disk, limits, root, blocks, before);
        continue;
      }
      seen := seen + {ToText(cid)};
      var node :- FetchNode(store, cid, limits);
      Visited(store.sha, store.disk, limits, root, blocks, before, cid, node);
      SeenText(seen - {ToText(cid)}, blocks, cid);
      assert cid in store.disk.Keys - (set c | c in blocks);
      blocks := blocks + [cid];
      stack := stack + Children(node);
    }
    Finished(store.sha, store.disk, limits, root, blocks, stack);
    r := Ok(blocks);
  }

  /** The set of texts stands for the set of identifiers because no two print alike. */
  ghost predicate SeenTexts(seen: set<Octets>, blocks: seq<Cid>) {
    forall c :: ToText(c) in seen <==> c in blocks
  }

  lemma {:induction false} SeenText(seen: set<Octets>, blocks: seq<Cid>, cid: Cid)
    requires SeenTexts(seen, blocks)
    ensures SeenTexts(seen + {ToText(cid)}, blocks + [cid])
  {
    forall c ensures ToText(c) in seen + {ToText(cid)} <==> c in blocks + [cid] {
      if ToText(c) == ToText(cid) {
        ToTextInjective(c, cid);
      }
    }
  }

  lemma {:induction false} Passed(sha: Hash, disk: Disk, limits: WalkLimits, root: Cid, blocks: seq<Cid>,
                                  stack: seq<Cid>)
    requires Walking(sha, disk, limits, root, blocks, stack) && |stack| > 0 && stack[|stack| - 1] in blocks
    ensures Walking(sha, disk, limits, root, blocks, stack[..|stack| - 1])
  {
    assert forall c :: c in stack <==> c in stack[..|stack| - 1] || c == stack[|stack| - 1];
  }

  lemma {:induction false} Finished(sha: Hash, disk: Disk, limits: WalkLimits, root: Cid, blocks: seq<Cid>,
                                    stack: seq<Cid>)
    requires Walking(sha, disk, limits, root, blocks, stack) && stack == []
    ensures Collection(sha, disk, limits, root, blocks)
  {
    ClosedHoldsReached(sha, disk, limits, root, blocks);
  }

  lemma {:induction false} StoredWhenRead(sha: Hash, disk: Disk, cid: Cid, limits: WalkLimits)
    ensures ReadNode(sha, disk, cid, limits).Ok? ==> cid in disk
  {
  }

  lemma {:induction false} Visited(sha: Hash, disk: Disk, limits: WalkLimits, root: Cid, blocks: seq<Cid>,
                                   stack: seq<Cid>, cid: Cid, node: Node)
    requires Walking(sha, disk, limits, root, blocks, stack)
    requires |stack| > 0 && stack[|stack| - 1] == cid && cid !in blocks
    requires ReadNode(sha, disk, cid, limits) == Ok(node)
    ensures cid in disk
    ensures Walking(sha, disk, limits, root, blocks + [cid], stack[..|stack| - 1] + Children(node))
  {
    hide ReadNode, Reaches, Children;
    StoredWhenRead(sha, disk, cid, limits);
    var blocks', stack' := blocks + [cid], stack[..|stack| - 1] + Children(node);
    assert forall c :: c in stack <==> c in stack[..|stack| - 1] || c == cid;
    assert forall c :: c in blocks' <==> c in blocks || c == cid;
    assert forall c :: c in stack' <==> c in stack[..|stack| - 1] || c in Children(node);
    forall c | c in blocks' || c in stack' ensures Reaches(sha, disk, limits, root, c) {
      if c in Children(node) {
        ReachesOn(sha, disk, limits, root, cid, c);
      }
    }
  }

  /** So a collection succeeds exactly when everything that is reached can be read. */
  lemma {:induction false} CollectionIffReadable(sha: Hash, disk: Disk, limits: WalkLimits, root: Cid, blocks: seq<Cid>)
    requires Collection(sha, disk, limits, root, blocks)
    ensures forall c :: Reaches(sha, disk, limits, root, c) ==> ReadNode(sha, disk, c, limits).Ok?
    ensures forall other :: Collection(sha, disk, limits, root, other) ==> |other| == |blocks|
  {
    forall other | Collection(sha, disk, limits, root, other) ensures |other| == |blocks| {
      NoRepeatCount(blocks);
      NoRepeatCount(other);
      assert (set c | c in blocks) == (set c | c in other);
    }
  }

  lemma {:induction false} NoRepeatCount(xs: seq<Cid>)
    requires forall i, j :: 0 <= i < j < |xs| ==> xs[i] != xs[j]
    ensures |set x | x in xs| == |xs|
  {
    if |xs| > 0 {
      var front, last := xs[..|xs| - 1], xs[|xs| - 1];
      NoRepeatCount(front);
      assert (set x | x in xs) == (set x | x in front) + {last};
    }
  }
}
