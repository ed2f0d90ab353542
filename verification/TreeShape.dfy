/** What a built directory holds: which links it has and where they lead. */
module TreeShape {
  import opened Base
  import opened Cid
  import opened DagPb
  import opened Store
  import opened Ordering
  import opened Importer
  import opened ImporterRun

  /** The links of a built directory before they are sorted. */
  function Entries(sha: Hash, leaves: seq<Leaf>): seq<Link>
    requires Build(sha, leaves).Ok?
  {
    Files(sha, leaves) + BuildSubtrees(sha, leaves, Subdirectories(leaves)).value.links
  }

  function EntryNode(sha: Hash, entries: seq<Link>): Block {
    DagPbBlock(sha, DirectoryBytes(entries))
  }

  lemma {:induction false} FinishedFrom(sha: Hash, blocks: seq<Block>, entries: seq<Link>)
    requires Finish(sha, blocks, entries).Ok?
    ensures WellNamed(entries)
    ensures var node := EntryNode(sha, entries);
            Finish(sha, blocks, entries)
            == Ok(Built(blocks + [node], node.cid, |node.bytes| + TotalSize(entries)))
  {
  }

  lemma {:induction false} BuiltByFinish(sha: Hash, leaves: seq<Leaf>)
    requires Build(sha, leaves).Ok?
    ensures var subtrees := BuildSubtrees(sha, leaves, Subdirectories(leaves));
            subtrees.Ok? && Build(sha, leaves) == Finish(sha, subtrees.value.blocks, Entries(sha, leaves))
  {
  }

  /** The blocks of the subtrees come first, then the node with all the links. */
  lemma {:induction false} BuiltFrom(sha: Hash, leaves: seq<Leaf>)
    requires Build(sha, leaves).Ok?
    ensures var entries := Entries(sha, leaves);
            var node := EntryNode(sha, entries);
            var subtrees := BuildSubtrees(sha, leaves, Subdirectories(leaves));
            && WellNamed(entries) && subtrees.Ok?
            && Build(sha, leaves)
            == Ok(Built(subtrees.value.blocks + [node], node.cid, |node.bytes| + TotalSize(entries)))
  {
    hide NodeBytes, Build, BuildSubtrees;
    BuiltByFinish(sha, leaves);
    FinishedFrom(sha, BuildSubtrees(sha, leaves, Subdirectories(leaves)).value.blocks, Entries(sha, leaves));
  }

  /** A file lying in this directory. */
  predicate Here(leaf: Leaf) {
    leaf.below == []
  }

  lemma {:induction false} FilesAre(sha: Hash, leaves: seq<Leaf>, link: Link)
    ensures link in Files(sha, leaves) <==> exists leaf :: leaf in leaves && Here(leaf) && link == LeafLink(sha, leaf)
  {
    if |leaves| > 0 {
      var front, last := leaves[..|leaves| - 1], leaves[|leaves| - 1];
      FilesAre(sha, front, link);
      assert forall leaf :: leaf in leaves <==> leaf in front || leaf == last;
      assert Here(last) <==> last.below == [];
    }
  }

  lemma {:induction false} SubdirectoriesAre(leaves: seq<Leaf>, name: Text)
    ensures name in Subdirectories(leaves) <==> Descends(leaves, name)
  {
    if |leaves| > 0 && Descends(leaves, name) {
      var front, last := leaves[..|leaves| - 1], leaves[|leaves| - 1];
      SubdirectoriesAre(front, name);
      var i :| 0 <= i < |leaves| && leaves[i].below != [] && leaves[i].name == name;
      assert i < |front| ==> front[i] == leaves[i];
    }
  }

  lemma {:induction false} LastSubtree(sha: Hash, leaves: seq<Leaf>, names: seq<Text>)
    requires forall n :: n in names ==> Descends(leaves, n)
    requires BuildSubtrees(sha, leaves, names).Ok? && |names| > 0
    ensures var front, name := BuildSubtrees(sha, leaves, names[..|names| - 1]), names[|names| - 1];
            var sub := Build(sha, Descend(leaves, name));
            && front.Ok? && sub.Ok?
            && BuildSubtrees(sha, leaves, names).value
            == Subtrees(front.value.blocks + sub.value.blocks,
                        front.value.links + [Link(sub.value.cid, name, sub.value.tsize)])
  {
  }

  /** The link of one subdirectory leads to its own tree, whose blocks are among those built. */
  ghost predicate LeadsTo(done: Subtrees, sub: Result<Built, PublishError>, name: Text, i: nat) {
    && sub.Ok? && i < |done.links|
    && done.links[i] == Link(sub.value.cid, name, sub.value.tsize)
    && forall b :: b in sub.value.blocks ==> b in done.blocks
  }

  lemma {:induction false} LeadsOn(done: Subtrees, later: Subtrees, sub: Result<Built, PublishError>, name: Text,
                                   i: nat)
    requires LeadsTo(done, sub, name, i) && done.links <= later.links && done.blocks <= later.blocks
    ensures LeadsTo(later, sub, name, i)
  {
    forall b | b in sub.value.blocks ensures b in later.blocks {
      var k :| 0 <= k < |done.blocks| && done.blocks[k] == b;
      assert later.blocks[k] == b;
    }
  }

  lemma {:induction false} SubtreeAt(sha: Hash, leaves: seq<Leaf>, names: seq<Text>, i: nat)
    requires forall n :: n in names ==> Descends(leaves, n)
    requires BuildSubtrees(sha, leaves, names).Ok? && i < |names|
    ensures LeadsTo(BuildSubtrees(sha, leaves, names).value, Build(sha, Descend(leaves, names[i])), names[i], i)
    decreases |names|
  {
    hide Build, BuildSubtrees, Descends;
    var front := names[..|names| - 1];
    LastSubtree(sha, leaves, names);
    LinkCount(sha, leaves, front);
    if i < |front| {
      SubtreeAt(sha, leaves, front, i);
      hide LeadsTo;
      LeadsOn(BuildSubtrees(sha, leaves, front).value, BuildSubtrees(sha, leaves, names).value,
              Build(sha, Descend(leaves, names[i])), names[i], i);
    }
  }

  /** Every link of a built directory leads to a file here or to a tree below. */
  lemma {:induction false} EntryOrigin(sha: Hash, leaves: seq<Leaf>, link: Link)
    requires Build(sha, leaves).Ok? && link in Entries(sha, leaves)
    ensures || (exists leaf :: leaf in leaves && Here(leaf) && link == LeafLink(sha, leaf))
            || IsSubtree(sha, leaves, link)
  {
    var files := Files(sha, leaves);
    var names := Subdirectories(leaves);
    var links := BuildSubtrees(sha, leaves, names).value.links;
    if link in files {
      FilesAre(sha, leaves, link);
    } else {
      var i :| 0 <= i < |links| && links[i] == link;
      LinkCount(sha, leaves, names);
      SubtreeAt(sha, leaves, names, i);
    }
  }

  lemma {:induction false} LinkCount(sha: Hash, leaves: seq<Leaf>, names: seq<Text>)
    requires forall n :: n in names ==> Descends(leaves, n)
    requires BuildSubtrees(sha, leaves, names).Ok?
    ensures |BuildSubtrees(sha, leaves, names).value.links| == |names|
    decreases |names|
  {
    if |names| > 0 {
      LinkCount(sha, leaves, names[..|names| - 1]);
    }
  }

  ghost predicate IsSubtree(sha: Hash, leaves: seq<Leaf>, link: Link) {
    && |link.name| < VEC_LIMIT
    && Descends(leaves, link.name)
    && Build(sha, Descend(leaves, link.name)).Ok?
    && link == Link(Build(sha, Descend(leaves, link.name)).value.cid, link.name,
                    Build(sha, Descend(leaves, link.name)).value.tsize)
  }

  lemma {:induction false} FileEntry(sha: Hash, leaves: seq<Leaf>, leaf: Leaf)
    requires Build(sha, leaves).Ok? && leaf in leaves && Here(leaf)
    ensures LeafLink(sha, leaf) in Entries(sha, leaves)
  {
    FilesAre(sha, leaves, LeafLink(sha, leaf));
  }

  lemma {:induction false} SubtreeEntry(sha: Hash, leaves: seq<Leaf>, name: Text)
    requires Build(sha, leaves).Ok? && Descends(leaves, name)
    ensures var sub := Build(sha, Descend(leaves, name));
            && sub.Ok? && Link(sub.value.cid, name, sub.value.tsize) in Entries(sha, leaves)
            && forall b :: b in sub.value.blocks ==> b in Build(sha, leaves).value.blocks
  {
    BuiltFrom(sha, leaves);
    SubdirectoriesAre(leaves, name);
    var names := Subdirectories(leaves);
    var i :| 0 <= i < |names| && names[i] == name;
    SubtreeAt(sha, leaves, names, i);
    var links := BuildSubtrees(sha, leaves, names).value.links;
    assert links[i] in links;
  }

  lemma {:induction false} EntriesSmall(sha: Hash, leaves: seq<Leaf>)
    requires Build(sha, leaves).Ok?
    ensures forall l :: l in Entries(sha, leaves) ==> Small(l)
  {
    forall l | l in Entries(sha, leaves) ensures Small(l) {
      EntryOrigin(sha, leaves, l);
    }
  }

  // ----- which paths a list of leaves maps -----

  predicate Named(leaf: Leaf, steps: seq<Octets>, content: Octets) {
    [leaf.name] + leaf.below == steps && leaf.content == content
  }

  ghost predicate Maps(leaves: seq<Leaf>, steps: seq<Octets>, content: Octets) {
    exists leaf :: leaf in leaves && Named(leaf, steps, content)
  }

  lemma {:induction false} MapsHere(leaves: seq<Leaf>, name: Octets, content: Octets)
    ensures Maps(leaves, [name], content)
       <==> exists leaf :: leaf in leaves && Here(leaf) && leaf.name == name && leaf.content == content
  {
    forall leaf: Leaf
      ensures Named(leaf, [name], content) <==> Here(leaf) && leaf.name == name && leaf.content == content
    {
      if Named(leaf, [name], content) {
        assert |[leaf.name] + leaf.below| == 1;
        assert ([leaf.name] + leaf.below)[0] == leaf.name;
      }
      if Here(leaf) {
        assert [leaf.name] + leaf.below == [leaf.name];
      }
    }
  }

  lemma {:induction false} DescendHas(leaves: seq<Leaf>, name: Text, leaf: Leaf)
    ensures leaf in Descend(leaves, name) <==> Leaf(name, [leaf.name] + leaf.below, leaf.content) in leaves
  {
    if |leaves| > 0 {
      var front, last := leaves[..|leaves| - 1], leaves[|leaves| - 1];
      var longer := Leaf(name, [leaf.name] + leaf.below, leaf.content);
      DescendHas(front, name, leaf);
      assert longer in leaves <==> longer in front || longer == last;
      if last.below != [] {
        assert last.below == [last.below[0]] + last.below[1..];
        assert last == longer ==> last.below[0] == leaf.name && last.below[1..] == leaf.below;
      }
    }
  }

  lemma {:induction false} MapsBelow(leaves: seq<Leaf>, name: Text, steps: seq<Octets>, content: Octets)
    requires |steps| > 0
    ensures Maps(leaves, [name] + steps, content) <==> Maps(Descend(leaves, name), steps, content)
    ensures Maps(leaves, [name] + steps, content) ==> Descends(leaves, name)
  {
    if Maps(leaves, [name] + steps, content) {
      var leaf :| leaf in leaves && Named(leaf, [name] + steps, content);
      assert leaf.name == ([leaf.name] + leaf.below)[0] == name;
      assert leaf.below == ([leaf.name] + leaf.below)[1..] == steps;
      var i :| 0 <= i < |leaves| && leaves[i] == leaf;
      assert Descends(leaves, name);
      var short := Leaf(leaf.below[0], leaf.below[1..], leaf.content);
      assert [short.name] + short.below == leaf.below;
      DescendHas(leaves, name, short);
      assert Named(short, steps, content);
    }
    if Maps(Descend(leaves, name), steps, content) {
      var short :| short in Descend(leaves, name) && Named(short, steps, content);
      DescendHas(leaves, name, short);
      var leaf := Leaf(name, [short.name] + short.below, short.content);
      assert Named(leaf, [name] + steps, content);
    }
  }

  // ----- how many links -----

  function NamesHere(leaves: seq<Leaf>): set<Octets> {
    set i | 0 <= i < |leaves| :: leaves[i].name
  }

  lemma {:induction false} NamesOfDistinct(entries: seq<Link>)
    requires Distinct(NameOf, entries)
    ensures |set i | 0 <= i < |entries| :: entries[i].name| == |entries|
  {
    if |entries| > 0 {
      var front, last := entries[..|entries| - 1], entries[|entries| - 1];
      NamesOfDistinct(front);
      assert forall i :: 0 <= i < |front| ==> NameOf(front[i]) != NameOf(last);
      assert (set i | 0 <= i < |entries| :: entries[i].name)
          == (set i | 0 <= i < |front| :: front[i].name) + {last.name};
    }
  }

  /** A built directory has one link for every different name its leaves start with. */
  lemma {:induction false} EntryCount(sha: Hash, leaves: seq<Leaf>)
    requires Build(sha, leaves).Ok?
    ensures |Entries(sha, leaves)| == |NamesHere(leaves)|
  {
    hide Build, BuildSubtrees, EntryNode;
    var entries := Entries(sha, leaves);
    var names := set i | 0 <= i < |entries| :: entries[i].name;
    BuiltFrom(sha, leaves);
    WellNamedDistinct(entries);
    NamesOfDistinct(entries);
    forall n | n in names ensures n in NamesHere(leaves) {
      var i :| 0 <= i < |entries| && entries[i].name == n;
      EntryOrigin(sha, leaves, entries[i]);
    }
    forall n | n in NamesHere(leaves) ensures n in names {
      var i :| 0 <= i < |leaves| && leaves[i].name == n;
      var leaf := leaves[i];
      if Here(leaf) {
        FileEntry(sha, leaves, leaf);
        InNames(entries, LeafLink(sha, leaf));
      } else {
        assert Descends(leaves, leaf.name);
        SubtreeEntry(sha, leaves, leaf.name);
        var sub := Build(sha, Descend(leaves, leaf.name)).value;
        InNames(entries, Link(sub.cid, leaf.name, sub.tsize));
      }
    }
    assert names == NamesHere(leaves);
  }

  lemma {:induction false} InNames(entries: seq<Link>, link: Link)
    requires link in entries
    ensures link.name in set i | 0 <= i < |entries| :: entries[i].name
  {
    var i :| 0 <= i < |entries| && entries[i] == link;
  }
}
