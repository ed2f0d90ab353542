/** What a reading of a store depends on and what it can cost: exactly the blocks it asks for, no more of
    them than the node budget, and no more octets than those can hold. */
module Footprint {
  import opened Base
  import opened Cid
  import opened DagPb
  import opened Store
  import opened Walker

  // ----- one budget of nodes -----

  /** An assembly asks the store once for every node it pays for. */
  lemma {:induction false} ReadsPaidFor(sha: Hash, disk: Disk, cid: Cid, limits: WalkLimits, budget: nat)
    ensures |Reads(sha, disk, cid, limits, budget)| + AssembleFile(sha, disk, cid, limits, budget).left == budget
    decreases budget, 0
  {
    hide ReadNode;
    if budget > 0 {
      NodeTurn(sha, disk, cid, limits, budget);
      match ReadNode(sha, disk, cid, limits)
      case Ok(File(data, children)) => ChildReadsPaidFor(sha, disk, children, data, limits, budget - 1);
      case _ =>
    }
  }

  lemma {:induction false} ChildReadsPaidFor(sha: Hash, disk: Disk, children: seq<Cid>, out: Octets,
                                             limits: WalkLimits, budget: nat)
    ensures |ChildReads(sha, disk, children, out, limits, budget)|
            + AssembleChildren(sha, disk, children, out, limits, budget).left == budget
    decreases budget, 1 + |children|
  {
    hide Reads, AssembleFile;
    if |children| > 0 {
      var first := AssembleFile(sha, disk, children[0], limits, budget);
      ReadsPaidFor(sha, disk, children[0], limits, budget);
      if first.result.Ok? && |out + first.result.value| <= limits.maxResourceBytes {
        ChildReadsPaidFor(sha, disk, children[1..], out + first.result.value, limits, first.left);
      }
    }
  }

  /** Reading a path asks for one block a step and at most `max_depth` more. */
  lemma {:induction false} PathReadsBounded(sha: Hash, disk: Disk, cid: Cid, segments: seq<Octets>, limits: WalkLimits)
    ensures |PathReads(sha, disk, cid, segments, limits)| <= |segments| + limits.maxDepth
    decreases |segments|
  {
    hide ReadNode, FindEntry, Reads;
    if |segments| == 0 {
      ReadsPaidFor(sha, disk, cid, limits, limits.maxDepth);
    } else {
      match ReadNode(sha, disk, cid, limits)
      case Ok(Directory(entries)) =>
        if FindEntry(entries, segments[0]).Some? {
          PathReadsBounded(sha, disk, FindEntry(entries, segments[0]).value, segments[1..], limits);
        }
      case _ =>
    }
  }

  // ----- the footprint -----

  /** The two directories hold the same at these identifiers. */
  ghost predicate Agree(disk: Disk, other: Disk, cids: seq<Cid>) {
    forall c :: c in cids ==> (c in disk <==> c in other) && (c in disk ==> disk[c] == other[c])
  }

  lemma {:induction false} AgreePart(disk: Disk, other: Disk, front: seq<Cid>, back: seq<Cid>)
    requires Agree(disk, other, front + back)
    ensures Agree(disk, other, front) && Agree(disk, other, back)
  {
    forall c | c in front || c in back ensures c in front + back {
    }
  }

  lemma {:induction false} SameNode(sha: Hash, disk: Disk, other: Disk, cid: Cid, limits: WalkLimits)
    requires Agree(disk, other, [cid])
    ensures ReadNode(sha, disk, cid, limits) == ReadNode(sha, other, cid, limits)
  {
    hide Interpret;
    assert cid in [cid];
  }

  /** Nothing but the blocks it asks for decides an assembly, what it leaves of the budget, and what it
      asks for. */
  lemma {:induction false} AssemblyFootprint(sha: Hash, disk: Disk, other: Disk, cid: Cid, limits: WalkLimits,
                                             budget: nat)
    requires Agree(disk, other, Reads(sha, disk, cid, limits, budget))
    ensures AssembleFile(sha, disk, cid, limits, budget) == AssembleFile(sha, other, cid, limits, budget)
    ensures Reads(sha, disk, cid, limits, budget) == Reads(sha, other, cid, limits, budget)
    decreases budget, 0
  {
    hide ReadNode, Agree, AssembleChildren, ChildReads;
    if budget > 0 {
      NodeTurn(sha, disk, cid, limits, budget);
      match ReadNode(sha, disk, cid, limits)
      case Ok(File(data, children)) =>
        AgreePart(disk, other, [cid], ChildReads(sha, disk, children, data, limits, budget - 1));
        SameNode(sha, disk, other, cid, limits);
        ChildFootprint(sha, disk, other, children, data, limits, budget - 1);
      case _ => SameNode(sha, disk, other, cid, limits);
    }
  }

  lemma {:induction false} ChildFootprint(sha: Hash, disk: Disk, other: Disk, children: seq<Cid>, out: Octets,
                                          limits: WalkLimits, budget: nat)
    requires Agree(disk, other, ChildReads(sha, disk, children, out, limits, budget))
    ensures AssembleChildren(sha, disk, children, out, limits, budget)
         == AssembleChildren(sha, other, children, out, limits, budget)
    ensures ChildReads(sha, disk, children, out, limits, budget)
            == ChildReads(sha, other, children, out, limits, budget)
    decreases budget, 1 + |children|
  {
    hide Agree, AssembleFile, Reads;
    if |children| > 0 {
      var first := AssembleFile(sha, disk, children[0], limits, budget);
      var own := Reads(sha, disk, children[0], limits, budget);
      var onwards := first.result.Ok? && |out + first.result.value| <= limits.maxResourceBytes;
      var rest := if onwards then ChildReads(sha, disk, children[1..], out + first.result.value, limits,
                                             first.left) else [];
      assert ChildReads(sha, disk, children, out, limits, budget) == own + rest;
      AgreePart(disk, other, own, rest);
      AssemblyFootprint(sha, disk, other, children[0], limits, budget);
      if onwards {
        ChildFootprint(sha, disk, other, children[1..], out + first.result.value, limits, first.left);
      }
    }
  }

  /** The same for a whole path: two stores that hold the same at the identifiers asked for, no more than
      one a step and `max_depth`, give the same result, whatever else they hold. */
  lemma {:induction false} PathFootprint(sha: Hash, disk: Disk, other: Disk, cid: Cid, segments: seq<Octets>,
                                         limits: WalkLimits)
    requires Agree(disk, other, PathReads(sha, disk, cid, segments, limits))
    ensures ReadPath(sha, disk, cid, segments, limits) == ReadPath(sha, other, cid, segments, limits)
    ensures PathReads(sha, disk, cid, segments, limits) == PathReads(sha, other, cid, segments, limits)
    decreases |segments|
  {
    hide ReadNode, FindEntry, Agree, ReadPath, PathReads;
    if |segments| == 0 {
      PathEnd(sha, disk, cid, limits);
      PathEnd(sha, other, cid, limits);
      AssemblyFootprint(sha, disk, other, cid, limits, limits.maxDepth);
    } else {
      PathTurn(sha, disk, cid, segments, limits);
      PathTurn(sha, other, cid, segments, limits);
      match ReadNode(sha, disk, cid, limits)
      case Ok(Directory(entries)) =>
        if FindEntry(entries, segments[0]).Some? {
          var child := FindEntry(entries, segments[0]).value;
          AgreePart(disk, other, [cid], PathReads(sha, disk, child, segments[1..], limits));
          SameNode(sha, disk, other, cid, limits);
          PathFootprint(sha, disk, other, child, segments[1..], limits);
        } else {
          SameNode(sha, disk, other, cid, limits);
        }
      case _ => SameNode(sha, disk, other, cid, limits);
    }
  }

  // ----- the node budget bounds the octets -----

  /** On any store every node paid for contributes at most a block. */
  lemma {:induction false} AssembledByBudget(sha: Hash, disk: Disk, cid: Cid, limits: WalkLimits, budget: nat)
    ensures var r := AssembleFile(sha, disk, cid, limits, budget);
            r.result.Ok? ==> |r.result.value| <= (budget - r.left) * MAX_BLOCK_BYTES
    decreases budget, 0
  {
    hide ReadNode, AssembleChildren;
    if budget > 0 && ReadNode(sha, disk, cid, limits).Ok? {
      NodeBounded(sha, disk, cid, limits);
      match ReadNode(sha, disk, cid, limits).value
      case File(data, children) => ChildrenByBudget(sha, disk, children, data, limits, budget - 1);
      case _ =>
    }
  }

  lemma {:induction false} ChildrenByBudget(sha: Hash, disk: Disk, children: seq<Cid>, out: Octets,
                                            limits: WalkLimits, budget: nat)
    ensures var r := AssembleChildren(sha, disk, children, out, limits, budget);
            r.result.Ok? ==> |r.result.value| <= |out| + (budget - r.left) * MAX_BLOCK_BYTES
    decreases budget, 1 + |children|
  {
    hide AssembleFile;
    if |children| > 0 {
      var first := AssembleFile(sha, disk, children[0], limits, budget);
      AssembledByBudget(sha, disk, children[0], limits, budget);
      if first.result.Ok? && |out + first.result.value| <= limits.maxResourceBytes {
        ChildrenByBudget(sha, disk, children[1..], out + first.result.value, limits, first.left);
      }
    }
  }

  /** Once the byte bound is no less than the node budget can hold, it decides nothing: any other such
      bound gives the same results, refusals included. */
  lemma {:induction false} ByteBoundIdle(sha: Hash, disk: Disk, cid: Cid, limits: WalkLimits, bound: nat, budget: nat)
    requires budget * MAX_BLOCK_BYTES <= limits.maxResourceBytes && budget * MAX_BLOCK_BYTES <= bound
    ensures AssembleFile(sha, disk, cid, limits, budget)
         == AssembleFile(sha, disk, cid, limits.(maxResourceBytes := bound), budget)
    decreases budget, 0
  {
    SameNodeWhateverBound(sha, disk, cid, limits, bound);
    hide ReadNode, AssembleChildren;
    if budget > 0 && ReadNode(sha, disk, cid, limits).Ok? {
      NodeBounded(sha, disk, cid, limits);
      match ReadNode(sha, disk, cid, limits).value
      case File(data, children) => ChildBoundIdle(sha, disk, children, data, limits, bound, budget - 1);
      case _ =>
    }
  }

  lemma {:induction false} SameNodeWhateverBound(sha: Hash, disk: Disk, cid: Cid, limits: WalkLimits, bound: nat)
    ensures ReadNode(sha, disk, cid, limits) == ReadNode(sha, disk, cid, limits.(maxResourceBytes := bound))
  {
    hide GetFrom, ParseNode, ParseUnixfs, DirLinks;
  }

  lemma {:induction false} ChildBoundIdle(sha: Hash, disk: Disk, children: seq<Cid>, out: Octets, limits: WalkLimits,
                                          bound: nat, budget: nat)
    requires |out| + budget * MAX_BLOCK_BYTES <= limits.maxResourceBytes && |out| + budget * MAX_BLOCK_BYTES <= bound
    ensures AssembleChildren(sha, disk, children, out, limits, budget)
         == AssembleChildren(sha, disk, children, out, limits.(maxResourceBytes := bound), budget)
    decreases budget, 1 + |children|
  {
    hide AssembleFile;
    if |children| > 0 {
      var first := AssembleFile(sha, disk, children[0], limits, budget);
      ByteBoundIdle(sha, disk, children[0], limits, bound, budget);
      AssembledByBudget(sha, disk, children[0], limits, budget);
      if first.result.Ok? {
        ChildBoundIdle(sha, disk, children[1..], out + first.result.value, limits, bound, first.left);
      }
    }
  }

  // ----- the default limits -----

  /** 32 blocks of a mebibyte. */
  const DEFAULT_CEILING: nat := 32 * MAX_BLOCK_BYTES

  /** Under the walker's default limits nothing read from any store exceeds 32 MiB, and the declared bound
      of 256 MiB could be any other from there on: no result and no refusal would change. */
  lemma {:induction false} DefaultCeiling(sha: Hash, disk: Disk, root: Cid, segments: seq<Octets>, bound: nat)
    ensures var r := ReadPath(sha, disk, root, segments, DEFAULT_LIMITS);
            && (r.Ok? ==> |r.value| <= DEFAULT_CEILING < DEFAULT_LIMITS.maxResourceBytes)
            && (bound >= DEFAULT_CEILING ==>
                  r == ReadPath(sha, disk, root, segments, DEFAULT_LIMITS.(maxResourceBytes := bound)))
    decreases |segments|
  {
    hide ReadNode, FindEntry, AssembleFile, ReadPath;
    var limits := DEFAULT_LIMITS;
    if |segments| == 0 {
      PathEnd(sha, disk, root, limits);
      PathEnd(sha, disk, root, limits.(maxResourceBytes := bound));
      AssembledByBudget(sha, disk, root, limits, limits.maxDepth);
      if bound >= DEFAULT_CEILING {
        ByteBoundIdle(sha, disk, root, limits, bound, limits.maxDepth);
      }
    } else {
      SameNodeWhateverBound(sha, disk, root, limits, bound);
      PathTurn(sha, disk, root, segments, limits);
      PathTurn(sha, disk, root, segments, limits.(maxResourceBytes := bound));
      match ReadNode(sha, disk, root, limits)
      case Ok(Directory(entries)) =>
        if FindEntry(entries, segments[0]).Some? {
          DefaultCeiling(sha, disk, FindEntry(entries, segments[0]).value, segments[1..], bound);
        }
      case _ =>
    }
  }
}
