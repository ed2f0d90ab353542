/** Which sets of files the importer takes: exactly those of good paths none of which lies below
    another. */
module Importable {
  import opened Cid
  import opened DagPb
  import opened Ordering
  import opened Importer
  import opened TreeShape
  import opened Sizes
  import opened CompileRead
  import opened Binding

  function Steps(leaf: Leaf): seq<Text> {
    [leaf.name] + leaf.below
  }

  /** Leaves of the same steps are the same leaf. */
  ghost predicate OnePerPath(leaves: seq<Leaf>) {
    forall a, b :: a in leaves && b in leaves && Steps(a) == Steps(b) ==> a == b
  }

  ghost predicate Unrepeated(leaves: seq<Leaf>) {
    forall i, j :: 0 <= i < j < |leaves| ==> leaves[i] != leaves[j]
  }

  /** No leaf lies at or below another. */
  ghost predicate NoneBelow(leaves: seq<Leaf>) {
    forall a, b :: a in leaves && b in leaves && Steps(a) <= Steps(b) ==> a == b
  }

  ghost predicate NoEmptyStep(leaves: seq<Leaf>) {
    forall leaf, step :: leaf in leaves && step in Steps(leaf) ==> step != []
  }

  // ----- one level down -----

  function Longer(name: Text, leaf: Leaf): Leaf {
    Leaf(name, [leaf.name] + leaf.below, leaf.content)
  }

  lemma {:induction false} LongerSteps(name: Text, leaf: Leaf)
    ensures Steps(Longer(name, leaf)) == [name] + Steps(leaf)
  {
  }

  lemma {:induction false} LongerInjective(name: Text, a: Leaf, b: Leaf)
    requires Longer(name, a) == Longer(name, b)
    ensures a == b
  {
    assert ([a.name] + a.below)[0] == ([b.name] + b.below)[0];
    assert a.below == ([a.name] + a.below)[1..] && b.below == ([b.name] + b.below)[1..];
  }

  lemma {:induction false} PrefixBelow(name: Text, a: seq<Text>, b: seq<Text>)
    ensures [name] + a <= [name] + b <==> a <= b
  {
    var x, y := [name] + a, [name] + b;
    assert x[1..] == a && y[1..] == b;
    if x <= y {
      assert forall i :: 0 <= i < |a| ==> a[i] == x[i + 1] == y[i + 1] == b[i];
    }
  }

  lemma {:induction false} DescendKeeps(leaves: seq<Leaf>, name: Text)
    ensures OnePerPath(leaves) ==> OnePerPath(Descend(leaves, name))
    ensures NoEmptyStep(leaves) ==> NoEmptyStep(Descend(leaves, name))
    ensures NoneBelow(leaves) ==> NoneBelow(Descend(leaves, name))
  {
    hide Steps;
    var below := Descend(leaves, name);
    forall a, b | a in below && b in below
      ensures OnePerPath(leaves) && Steps(a) == Steps(b) ==> a == b
      ensures NoneBelow(leaves) && Steps(a) <= Steps(b) ==> a == b
    {
      DescendHas(leaves, name, a);
      DescendHas(leaves, name, b);
      LongerSteps(name, a);
      LongerSteps(name, b);
      PrefixBelow(name, Steps(a), Steps(b));
      if Longer(name, a) == Longer(name, b) {
        LongerInjective(name, a, b);
      }
    }
    forall leaf, step | leaf in below && step in Steps(leaf) ensures NoEmptyStep(leaves) ==> step != [] {
      DescendHas(leaves, name, leaf);
      LongerSteps(name, leaf);
      assert step in Steps(Longer(name, leaf));
    }
  }

  lemma {:induction false} DescendUnrepeated(leaves: seq<Leaf>, name: Text)
    requires Unrepeated(leaves)
    ensures Unrepeated(Descend(leaves, name))
  {
    if |leaves| > 0 {
      var front, last := leaves[..|leaves| - 1], leaves[|leaves| - 1];
      DescendUnrepeated(front, name);
      if last.below != [] && last.name == name {
        var leaf := Leaf(last.below[0], last.below[1..], last.content);
        DescendHas(front, name, leaf);
        assert last.below == [last.below[0]] + last.below[1..];
        assert last !in front;
      }
    }
  }

  // ----- one directory -----

  ghost predicate NamesDiffer(entries: seq<Link>) {
    forall i, j :: 0 <= i < j < |entries| ==> entries[i].name != entries[j].name
  }

  lemma {:induction false} WellNamedIff(entries: seq<Link>)
    ensures WellNamed(entries) <==> NamesDiffer(entries) && forall l :: l in entries ==> l.name != []
  {
    if WellNamed(entries) {
      WellNamedDistinct(entries);
      forall i, j | 0 <= i < j < |entries| ensures entries[i].name != entries[j].name {
        assert NameOf(entries[i]) != NameOf(entries[j]);
      }
      forall l | l in entries ensures l.name != [] {
        var i :| 0 <= i < |entries| && entries[i] == l;
        assert !Unnamed(entries, i);
      }
    }
  }

  /** The files of a directory have different names when no two leaves have the same steps. */
  lemma {:induction false} FileNamesDiffer(sha: Hash, leaves: seq<Leaf>)
    requires OnePerPath(leaves) && Unrepeated(leaves)
    ensures NamesDiffer(Files(sha, leaves))
  {
    hide FileBlocks;
    if |leaves| > 0 {
      var front, last := leaves[..|leaves| - 1], leaves[|leaves| - 1];
      FileNamesDiffer(sha, front);
      if Here(last) {
        var files := Files(sha, front);
        forall i | 0 <= i < |files| ensures files[i].name != last.name {
          FilesAre(sha, front, files[i]);
          var leaf :| leaf in front && Here(leaf) && files[i] == LeafLink(sha, leaf);
          assert leaf in leaves && last in leaves;
        }
      }
    }
  }

  /** The links of a built list of subdirectories carry their names, in order. */
  lemma {:induction false} LinkNames(sha: Hash, leaves: seq<Leaf>, names: seq<Text>)
    requires forall n :: n in names ==> Descends(leaves, n)
    requires BuildSubtrees(sha, leaves, names).Ok?
    ensures var links := BuildSubtrees(sha, leaves, names).value.links;
            |links| == |names| && forall i :: 0 <= i < |names| ==> links[i].name == names[i]
    decreases |names|
  {
    hide Build, BuildSubtrees;
    LinkCount(sha, leaves, names);
    forall i | 0 <= i < |names| ensures BuildSubtrees(sha, leaves, names).value.links[i].name == names[i] {
      SubtreeAt(sha, leaves, names, i);
    }
  }

  /** A list of subdirectories builds when each of them does. */
  lemma {:induction false} SubtreesBuild(sha: Hash, leaves: seq<Leaf>, names: seq<Text>)
    requires forall n :: n in names ==> Descends(leaves, n) && Build(sha, Descend(leaves, n)).Ok?
    ensures BuildSubtrees(sha, leaves, names).Ok?
    decreases |names|
  {
    hide Build, Descends;
    if |names| > 0 {
      SubtreesBuild(sha, leaves, names[..|names| - 1]);
      assert names[|names| - 1] in names;
    }
  }

  /** Once its subdirectories build, a directory builds when no file lies where a directory is. */
  lemma {:induction false} LevelBuilds(sha: Hash, leaves: seq<Leaf>)
    requires Unrepeated(leaves) && NoneBelow(leaves) && NoEmptyStep(leaves)
    requires BuildSubtrees(sha, leaves, Subdirectories(leaves)).Ok?
    ensures Build(sha, leaves).Ok?
  {
    var names := Subdirectories(leaves);
    var files, links := Files(sha, leaves), BuildSubtrees(sha, leaves, names).value.links;
    LevelNames(sha, leaves, files, links);
    WellNamedIff(files + links);
    hide BuildSubtrees, Files, NodeBytes;
  }

  lemma {:induction false} HereIsPrefix(a: Leaf, b: Leaf)
    requires Here(a) && a.name == b.name
    ensures Steps(a) <= Steps(b)
  {
  }

  lemma {:induction false} NothingUnderFile(leaves: seq<Leaf>, a: Leaf)
    requires NoneBelow(leaves) && a in leaves && Here(a)
    ensures !Descends(leaves, a.name)
  {
    hide Steps;
    forall i | 0 <= i < |leaves| && leaves[i].name == a.name ensures leaves[i].below == [] {
      HereIsPrefix(a, leaves[i]);
      assert leaves[i] in leaves;
    }
  }

  lemma {:induction false} LevelNames(sha: Hash, leaves: seq<Leaf>, files: seq<Link>, links: seq<Link>)
    requires Unrepeated(leaves) && NoneBelow(leaves) && NoEmptyStep(leaves)
    requires BuildSubtrees(sha, leaves, Subdirectories(leaves)).Ok?
    requires files == Files(sha, leaves) && links == BuildSubtrees(sha, leaves, Subdirectories(leaves)).value.links
    ensures NamesDiffer(files + links) && forall l :: l in files + links ==> l.name != []
  {
    hide BuildSubtrees, Build, FileBlocks, Files, Subdirectories;
    var names := Subdirectories(leaves);
    FileNamesDiffer(sha, leaves);
    LinkNames(sha, leaves, names);
    SubdirectoriesDistinct(leaves);
    forall l | l in files ensures l.name != [] && l.name !in names {
      FilesAre(sha, leaves, l);
      var a :| a in leaves && Here(a) && l == LeafLink(sha, a);
      assert a.name in Steps(a);
      NothingUnderFile(leaves, a);
      SubdirectoriesAre(leaves, a.name);
    }
    forall l | l in links ensures l.name != [] {
      var k :| 0 <= k < |links| && links[k] == l;
      SubdirectoriesAre(leaves, names[k]);
      var i :| 0 <= i < |leaves| && leaves[i].below != [] && leaves[i].name == names[k];
      assert leaves[i].name in Steps(leaves[i]);
    }
    forall i, j | 0 <= i < j < |files + links| ensures (files + links)[i].name != (files + links)[j].name {
      if i < |files| <= j {
        assert files[i] in files && links[j - |files|].name == names[j - |files|];
      }
    }
  }

  /** A tree builds when no leaf lies at or below another. */
  lemma {:induction false} TreeBuilds(sha: Hash, leaves: seq<Leaf>)
    requires Unrepeated(leaves) && NoneBelow(leaves) && NoEmptyStep(leaves)
    ensures Build(sha, leaves).Ok?
    decreases Weight(leaves)
  {
    hide Build, Descends, NoneBelow, NoEmptyStep, Unrepeated;
    forall n | n in Subdirectories(leaves) ensures Descends(leaves, n) && Build(sha, Descend(leaves, n)).Ok? {
      DescendLighter(leaves, n);
      DescendKeeps(leaves, n);
      DescendUnrepeated(leaves, n);
      TreeBuilds(sha, Descend(leaves, n));
    }
    SubtreesBuild(sha, leaves, Subdirectories(leaves));
    LevelBuilds(sha, leaves);
  }

  lemma {:induction false} EntryNamesDiffer(sha: Hash, leaves: seq<Leaf>)
    requires Build(sha, leaves).Ok?
    ensures BuildSubtrees(sha, leaves, Subdirectories(leaves)).Ok? && NamesDiffer(Entries(sha, leaves))
  {
    hide Build, BuildSubtrees, Files, NodeBytes;
    BuiltFrom(sha, leaves);
    WellNamedIff(Entries(sha, leaves));
  }

  /** In a built directory no file has the name of a subdirectory. */
  lemma {:induction false} FileNotDirectory(sha: Hash, leaves: seq<Leaf>, a: Leaf)
    requires Build(sha, leaves).Ok? && a in leaves && Here(a)
    ensures !Descends(leaves, a.name)
  {
    hide Build, FileBlocks, BuildSubtrees, Files, Descends;
    EntryNamesDiffer(sha, leaves);
    FilesAre(sha, leaves, LeafLink(sha, a));
    var files, names, entries := Files(sha, leaves), Subdirectories(leaves), Entries(sha, leaves);
    var i :| 0 <= i < |files| && files[i] == LeafLink(sha, a);
    LinkNames(sha, leaves, names);
    SubdirectoriesAre(leaves, a.name);
    forall j | 0 <= j < |names| ensures names[j] != a.name {
      assert entries[i] == files[i] && entries[|files| + j].name == names[j];
    }
  }

  lemma {:induction false} LeavesDescend(leaves: seq<Leaf>, b: Leaf)
    requires b in leaves && !Here(b)
    ensures Descends(leaves, b.name)
  {
    var k :| 0 <= k < |leaves| && leaves[k] == b;
  }

  /** In a built tree of one leaf a path, no leaf lies below another. */
  lemma {:induction false} BuiltNoneBelow(sha: Hash, leaves: seq<Leaf>, a: Leaf, b: Leaf)
    requires OnePerPath(leaves) && Build(sha, leaves).Ok?
    requires a in leaves && b in leaves && Steps(a) <= Steps(b)
    ensures a == b
    decreases |a.below|
  {
    hide Build, Descends, Descend;
    assert a.name == Steps(a)[0] == Steps(b)[0] == b.name;
    if Here(a) {
      FileNotDirectory(sha, leaves, a);
      if Here(b) {
        assert Steps(a) == Steps(b);
      } else {
        LeavesDescend(leaves, b);
      }
    } else {
      var x, y := Leaf(a.below[0], a.below[1..], a.content), Leaf(b.below[0], b.below[1..], b.content);
      assert a == Longer(a.name, x) && b == Longer(a.name, y);
      DescendHas(leaves, a.name, x);
      DescendHas(leaves, a.name, y);
      LongerSteps(a.name, x);
      LongerSteps(a.name, y);
      PrefixBelow(a.name, Steps(x), Steps(y));
      DescendKeeps(leaves, a.name);
      LeavesDescend(leaves, a);
      SubtreeEntry(sha, leaves, a.name);
      BuiltNoneBelow(sha, Descend(leaves, a.name), x, y);
    }
  }

  // ----- whole imports -----

  lemma {:induction false} LeafSteps(path: Text, content: Vec)
    ensures Steps(LeafOf(path, content)) == Split(path)
  {
    var parts := Split(path);
    assert [parts[0]] + parts[1..] == parts;
  }

  lemma {:induction false} SiteLeaves(files: seq<SiteFile>)
    ensures OnePerPath(Leaves(SiteOf(files))) && Unrepeated(Leaves(SiteOf(files)))
  {
    hide SiteOf, LeafOf;
    var site := SiteOf(files);
    var leaves := Leaves(site);
    SiteHolds(files);
    forall i, j | 0 <= i < |leaves| && 0 <= j < |leaves| && Steps(leaves[i]) == Steps(leaves[j]) ensures i == j {
      LeafSteps(site[i].path, site[i].content);
      LeafSteps(site[j].path, site[j].content);
      SplitInjective(site[i].path, site[j].path);
      LessIrreflexive(PathOf(site[i]));
    }
  }

  /** A path of the map is the steps of a leaf, and the other way round. */
  lemma {:induction false} PathLeaf(files: seq<SiteFile>, path: Text)
    requires path in PathMap(files)
    ensures LeafOf(path, PathMap(files)[path]) in Leaves(SiteOf(files))
  {
    hide SiteOf, LeafOf, PathMap;
    var site := SiteOf(files);
    SiteHolds(files);
    assert SiteFile(path, PathMap(files)[path]) in site;
    var i :| 0 <= i < |site| && site[i] == SiteFile(path, PathMap(files)[path]);
    assert Leaves(site)[i] == LeafOf(path, PathMap(files)[path]);
  }

  lemma {:induction false} LeafPath(files: seq<SiteFile>, leaf: Leaf) returns (path: Text)
    requires leaf in Leaves(SiteOf(files))
    ensures path in PathMap(files) && leaf == LeafOf(path, PathMap(files)[path])
  {
    hide SiteOf, LeafOf, PathMap;
    var site := SiteOf(files);
    SiteHolds(files);
    var i :| 0 <= i < |site| && Leaves(site)[i] == leaf;
    assert site[i] in site;
    path := site[i].path;
  }

  /** The steps of one path are the first steps of another: it lies where the other needs a directory. */
  ghost predicate Overlap(m: map<Text, Vec>, p: Text, q: Text) {
    p in m && q in m && p != q && Split(p) <= Split(q)
  }

  ghost predicate NoOverlaps(m: map<Text, Vec>) {
    forall p, q :: !Overlap(m, p, q)
  }

  /** An import succeeds exactly when every path of the map is good and no path is another's directory. */
  lemma {:induction false} ImportSucceedsIff(sha: Hash, files: seq<SiteFile>)
    ensures Import(sha, files).Ok?
       <==> (forall p :: p in PathMap(files) ==> GoodPath(p)) && NoOverlaps(PathMap(files))
  {
    hide Build, GoodPath, FirstBad, FileBlocksOf, SiteOf, PathMap, Split;
    BadPathIff(files);
    if forall p :: p in PathMap(files) ==> GoodPath(p) {
      BuildsIff(sha, files);
    }
  }

  lemma {:induction false} BuildsIff(sha: Hash, files: seq<SiteFile>)
    requires forall p :: p in PathMap(files) ==> GoodPath(p)
    ensures Build(sha, Leaves(SiteOf(files))).Ok? <==> NoOverlaps(PathMap(files))
  {
    hide Build, SiteOf, PathMap, Split, Leaves, GoodPath, Overlap;
    var leaves := Leaves(SiteOf(files));
    SiteLeaves(files);
    if Build(sha, leaves).Ok? {
      forall p, q ensures !Overlap(PathMap(files), p, q) {
        if Overlap(PathMap(files), p, q) {
          OverlapRefused(sha, files, p, q);
        }
      }
      assert NoOverlaps(PathMap(files));
    }
    if NoOverlaps(PathMap(files)) {
      GoodSteps(files);
      NoOverlapNoneBelow(files);
      TreeBuilds(sha, leaves);
    }
  }

  lemma {:induction false} OverlapRefused(sha: Hash, files: seq<SiteFile>, p: Text, q: Text)
    requires Overlap(PathMap(files), p, q)
    ensures Build(sha, Leaves(SiteOf(files))).Err?
  {
    hide Build, SiteOf, PathMap, Split, Leaves, Steps, LeafOf;
    var leaves, m := Leaves(SiteOf(files)), PathMap(files);
    SiteLeaves(files);
    PathLeaf(files, p);
    PathLeaf(files, q);
    LeafSteps(p, m[p]);
    LeafSteps(q, m[q]);
    if Build(sha, leaves).Ok? {
      BuiltNoneBelow(sha, leaves, LeafOf(p, m[p]), LeafOf(q, m[q]));
      SplitInjective(p, q);
    }
  }

  lemma {:induction false} NoOverlapNoneBelow(files: seq<SiteFile>)
    requires NoOverlaps(PathMap(files))
    ensures NoneBelow(Leaves(SiteOf(files)))
  {
    hide SiteOf, PathMap, Split, Leaves, Steps, LeafOf;
    var leaves, m := Leaves(SiteOf(files)), PathMap(files);
    forall a, b | a in leaves && b in leaves && Steps(a) <= Steps(b) ensures a == b {
      var p := LeafPath(files, a);
      var q := LeafPath(files, b);
      LeafSteps(p, m[p]);
      LeafSteps(q, m[q]);
      assert !Overlap(m, p, q);
    }
  }

  lemma {:induction false} GoodSteps(files: seq<SiteFile>)
    requires forall p :: p in PathMap(files) ==> GoodPath(p)
    ensures NoEmptyStep(Leaves(SiteOf(files)))
  {
    hide SiteOf, PathMap, Split, Leaves, Steps, LeafOf;
    forall leaf, step | leaf in Leaves(SiteOf(files)) && step in Steps(leaf) ensures step != [] {
      var p := LeafPath(files, leaf);
      LeafSteps(p, leaf.content);
      assert leaf.content == PathMap(files)[p] by {
        LeafContent(p, PathMap(files)[p]);
      }
      LeafSteps(p, PathMap(files)[p]);
      var i :| 0 <= i < |Split(p)| && Split(p)[i] == step;
      assert !BadPart(Split(p)[i]);
    }
  }

  lemma {:induction false} LeafContent(path: Text, content: Vec)
    ensures LeafOf(path, content).content == content
  {
  }
}
