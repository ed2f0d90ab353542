/** `import_site` and `build_directory` (client/src/publish.rs) as they run: an ordered path map
    filled file by file, and a recursion over textual prefixes that pushes every node into one shared
    vector. Both are proved to build what module Importer says. */
module ImportSite {
  import opened Arith
  import opened Base
  import opened Cid
  import opened DagPb
  import opened Store
  import opened Ordering
  import opened Importer
  import opened ImporterRun
  import opened Prefixes

  /** The vector of blocks that all directory levels push into. */
  class BlockVec {
    var items: seq<Block>

    constructor ()
      ensures items == []
    {
      items := [];
    }

    method Extend(more: seq<Block>)
      modifies this
      ensures items == old(items) + more
    {
      items := items + more;
    }
  }

  // ----- the path map -----

  function FileLink(sha: Hash, file: SiteFile): Link {
    var built := FileBlocks(sha, file.content);
    Link(built.cid, file.path, built.tsize)
  }

  /** The ordered map from path to link, as its sequence of entries. */
  function Linked(sha: Hash, site: seq<SiteFile>): (r: seq<Link>)
    ensures |r| == |site| && forall i :: 0 <= i < |site| ==> r[i] == FileLink(sha, site[i])
  {
    MapAll(file => FileLink(sha, file), site)
  }

  lemma {:induction false} PlaceLinked(sha: Hash, site: seq<SiteFile>, file: SiteFile)
    ensures Linked(sha, Place(PathOf, site, file)) == Place(NameOf, Linked(sha, site), FileLink(sha, file))
  {
    var f := (file: SiteFile) => FileLink(sha, file);
    PlaceMapped(PathOf, NameOf, f, site, file);
    assert Linked(sha, site) == MapAll(f, site);
    assert Linked(sha, Place(PathOf, site, file)) == MapAll(f, Place(PathOf, site, file));
  }

  // ----- one directory level -----

  lemma {:induction false} LevelStep(sha: Hash, prefix: Octets, site: seq<SiteFile>, i: nat)
    requires i < |site|
    ensures var before, after := Under(prefix, site[..i]), Under(prefix, site[..i + 1]);
            if Inside(prefix, site[i].path) then
              var leaf := LeafOf(Relative(prefix, site[i].path), site[i].content);
              && Files(sha, after) == Files(sha, before) + (if leaf.below == [] then [LeafLink(sha, leaf)] else [])
              && Subdirectories(after) == (if leaf.below == [] || leaf.name in Subdirectories(before)
                                           then Subdirectories(before)
                                           else Subdirectories(before) + [leaf.name])
            else
              after == before
  {
    var before, after := Under(prefix, site[..i]), Under(prefix, site[..i + 1]);
    assert site[..i + 1][..i] == site[..i];
    if Inside(prefix, site[i].path) {
      var leaf := LeafOf(Relative(prefix, site[i].path), site[i].content);
      assert after == before + [leaf] && after[..|after| - 1] == before;
    }
  }

  /** The files of one level and the names of the directories below it, by comparing and cutting
      strings. */
  method ReadLevel(sha: Hash, prefix: Octets, tree: seq<Link>, ghost site: seq<SiteFile>)
    returns (entries: seq<Link>, subdirectories: seq<Text>)
    requires tree == Linked(sha, site)
    ensures entries == Files(sha, Under(prefix, site))
    ensures subdirectories == Subdirectories(Under(prefix, site))
  {
    entries, subdirectories := [], [];
    for i := 0 to |tree|
      invariant entries == Files(sha, Under(prefix, site[..i]))
      invariant subdirectories == Subdirectories(Under(prefix, site[..i]))
    {
      LevelStep(sha, prefix, site, i);
      var path: Text := tree[i].name;
      if Inside(prefix, path) {
        var relative := Relative(prefix, path);
        var slash := SlashAt(relative);
        if slash == |relative| {
          entries := entries + [Link(tree[i].cid, relative, tree[i].tsize)];
        } else {
          CutText(relative, slash);
          var name: Text := relative[..slash];
          if name !in subdirectories {
            subdirectories := subdirectories + [name];
          }
        }
      }
    }
    assert site[..|site|] == site;
  }

  // ----- the recursion -----

  lemma {:induction false} RefusalStays(sha: Hash, leaves: seq<Leaf>, names: seq<Text>, k: nat)
    requires forall n :: n in names ==> Descends(leaves, n)
    requires k <= |names| && BuildSubtrees(sha, leaves, names[..k]).Err?
    ensures BuildSubtrees(sha, leaves, names) == BuildSubtrees(sha, leaves, names[..k])
    decreases |names|
  {
    if k < |names| {
      assert names[..|names| - 1][..k] == names[..k];
      RefusalStays(sha, leaves, names[..|names| - 1], k);
    } else {
      assert names[..k] == names;
    }
  }

  lemma {:induction false} SubtreeStep(sha: Hash, leaves: seq<Leaf>, names: seq<Text>, k: nat)
    requires forall n :: n in names ==> Descends(leaves, n)
    requires k < |names| && BuildSubtrees(sha, leaves, names[..k]).Ok?
    ensures var done := BuildSubtrees(sha, leaves, names[..k]).value;
            BuildSubtrees(sha, leaves, names[..k + 1]) ==
              match Build(sha, Descend(leaves, names[k]))
              case Err(e) => Err(e)
              case Ok(b) => Ok(Subtrees(done.blocks + b.blocks, done.links + [Link(b.cid, names[k], b.tsize)]))
  {
    assert names[..k + 1][..k] == names[..k];
  }

  lemma {:induction false} CleanNames(leaves: seq<Leaf>)
    requires Clean(leaves)
    ensures forall n :: n in Subdirectories(leaves) ==> |n| > 0
  {
    forall n | n in Subdirectories(leaves) ensures |n| > 0 {
      assert Descends(leaves, n);
    }
  }

  lemma {:induction false} LeafCid(sha: Hash, content: Vec)
    ensures Admitted(FileBlocks(sha, content).cid)
  {
  }

  lemma {:induction false} FilesSmall(sha: Hash, leaves: seq<Leaf>)
    ensures forall l :: l in Files(sha, leaves) ==> Small(l)
  {
    if |leaves| > 0 {
      FilesSmall(sha, leaves[..|leaves| - 1]);
      LeafCid(sha, leaves[|leaves| - 1].content);
    }
  }

  lemma {:induction false} BuiltCid(sha: Hash, leaves: seq<Leaf>)
    requires Build(sha, leaves).Ok?
    ensures Admitted(Build(sha, leaves).value.cid)
  {
  }

  lemma {:induction false} NamesSlashFree(prefix: Octets, site: seq<SiteFile>)
    ensures forall n :: n in Subdirectories(Under(prefix, site)) ==> SlashAt(n) == |n|
  {
    if |site| > 0 {
      var front, last := site[..|site| - 1], site[|site| - 1];
      NamesSlashFree(prefix, front);
      if Inside(prefix, last.path) {
        var leaf := LeafOf(Relative(prefix, last.path), last.content);
        SplitSlashFree(Relative(prefix, last.path));
        var all := Under(prefix, front) + [leaf];
        assert all[..|all| - 1] == Under(prefix, front);
      } else {
        assert Under(prefix, site) == Under(prefix, front);
      }
    }
  }

  lemma {:induction false} BuildFrom(sha: Hash, leaves: seq<Leaf>, done: Subtrees, entries: seq<Link>)
    requires BuildSubtrees(sha, leaves, Subdirectories(leaves)) == Ok(done)
    requires entries == Files(sha, leaves) + done.links
    ensures Build(sha, leaves) == Finish(sha, done.blocks, entries)
  {
  }

  /** Push the node of one finished level. */
  method PushNode(sha: Hash, entries: seq<Link>, blocks: BlockVec, ghost done: seq<Block>)
    returns (r: Result<(Cid, nat), PublishError>)
    requires forall l :: l in entries ==> Small(l)
    modifies blocks
    ensures match Finish(sha, done, entries)
            case Err(e) => r == Err(e)
            case Ok(b) => && r == Ok((b.cid, b.tsize)) && |b.blocks| == |done| + 1
                          && b.blocks == done + b.blocks[|done|..]
                          && blocks.items == old(blocks.items) + b.blocks[|done|..]
  {
    hide DirectoryBytes, WellNamed;
    var node :- MakeDirectory(sha, entries);
    var tsize := |node.bytes|;
    for i := 0 to |entries|
      invariant tsize == |node.bytes| + TotalSize(entries[..i])
    {
      assert entries[..i + 1][..i] == entries[..i];
      tsize := tsize + entries[i].tsize;
    }
    assert entries[..|entries|] == entries;
    blocks.Extend([node]);
    r := Ok((node.cid, tsize));
    assert (done + [node])[|done|..] == [node];
  }

  method BuildDirectory(sha: Hash, prefix: Octets, tree: seq<Link>, blocks: BlockVec, ghost site: seq<SiteFile>)
    returns (r: Result<(Cid, nat), PublishError>)
    requires tree == Linked(sha, site) && GoodPaths(site)
    modifies blocks
    ensures match Build(sha, Under(prefix, site))
            case Ok(b) => r == Ok((b.cid, b.tsize)) && blocks.items == old(blocks.items) + b.blocks
            case Err(e) => r == Err(e)
    decreases Weight(Under(prefix, site))
  {
    ghost var leaves := Under(prefix, site);
    CleanUnder(prefix, site);
    CleanNames(leaves);
    NamesSlashFree(prefix, site);
    FilesSmall(sha, leaves);
    var entries, subdirectories := ReadLevel(sha, prefix, tree, site);
    ghost var here := entries;
    ghost var before := blocks.items;
    ghost var done := Subtrees([], []);
    for i := 0 to |subdirectories|
      invariant BuildSubtrees(sha, leaves, subdirectories[..i]) == Ok(done)
      invariant entries == here + done.links && blocks.items == before + done.blocks
      invariant forall l :: l in entries ==> Small(l)
    {
      var name := subdirectories[i];
      DescendUnder(prefix, site, name);
      DescendLighter(leaves, name);
      SubtreeStep(sha, leaves, subdirectories, i);
      var child := BuildDirectory(sha, Child(prefix, name), tree, blocks, site);
      if child.Err? {
        RefusalStays(sha, leaves, subdirectories, i + 1);
        return Err(child.error);
      }
      BuiltCid(sha, Descend(leaves, name));
      var link := Link(child.value.0, name, child.value.1);
      Reassociate(here, done.links, [link]);
      Reassociate(before, done.blocks, blocks.items[|before + done.blocks|..]);
      entries := entries + [link];
      done := BuildSubtrees(sha, leaves, subdirectories[..i + 1]).value;
    }
    assert subdirectories[..|subdirectories|] == subdirectories;
    BuildFrom(sha, leaves, done, entries);
    r := PushNode(sha, entries, blocks, done.blocks);
    if r.Ok? {
      Reassociate(before, done.blocks, Finish(sha, done.blocks, entries).value.blocks[|done.blocks|..]);
    }
  }

  // ----- the whole import -----

  lemma {:induction false} FirstBadStays(files: seq<SiteFile>, i: nat)
    requires i <= |files| && FirstBad(files[..i]).Some?
    ensures FirstBad(files) == FirstBad(files[..i])
    decreases |files|
  {
    if i < |files| {
      assert files[..|files| - 1][..i] == files[..i];
      FirstBadStays(files[..|files| - 1], i);
    } else {
      assert files[..i] == files;
    }
  }

  method CheckPath(path: Text) returns (good: bool)
    ensures good == GoodPath(path)
  {
    if |path| == 0 || path[0] == SLASH || path[|path| - 1] == SLASH {
      OuterSlash(path);
      return false;
    }
    var parts := Split(path);
    for i := 0 to |parts|
      invariant forall j :: 0 <= j < i ==> !BadPart(parts[j])
    {
      if BadPart(parts[i]) {
        return false;
      }
    }
    good := true;
  }

  /** The three tests before the split find nothing the parts would not show. */
  lemma {:induction false} OuterSlash(path: Text)
    requires |path| == 0 || path[0] == SLASH || path[|path| - 1] == SLASH
    ensures !GoodPath(path)
  {
    var parts := Split(path);
    if |path| == 0 {
      assert parts[0] == [];
    } else if path[0] == SLASH {
      assert IsSlash(path, 0);
      SlashUnique(path, 0);
      assert parts[0] == path[..0] == [];
    } else {
      var n := |path| - 1;
      assert IsSlash(path, n);
      CutText(path, n);
      assert path == path[..n] + [SLASH] + path[n + 1..];
      SplitJoin(path[..n], path[n + 1..], path);
      assert path[n + 1..] == [] && Split(path[n + 1..]) == [[]];
      assert parts[|parts| - 1] == [];
    }
  }

  lemma {:induction false} PlacedFrom(site: seq<SiteFile>, file: SiteFile)
    ensures forall f :: f in Place(PathOf, site, file) ==> f in site || f == file
  {
    if |site| > 0 {
      PlacedFrom(site[1..], file);
    }
  }

  method Run(sha: Hash, files: seq<SiteFile>) returns (r: Result<Imported, PublishError>)
    ensures r == Import(sha, files)
  {
    var blocks := new BlockVec();
    var tree: seq<Link> := [];
    for i := 0 to |files|
      invariant fresh(blocks) && blocks.items == FileBlocksOf(sha, files[..i])
      invariant tree == Linked(sha, SiteOf(files[..i]))
      invariant FirstBad(files[..i]).None? && GoodPaths(SiteOf(files[..i]))
    {
      assert files[..i + 1][..i] == files[..i];
      var file := files[i];
      var good := CheckPath(file.path);
      if !good {
        FirstBadStays(files, i + 1);
        return Err(BadPath(file.path));
      }
      var built := BuildFile(sha, file.content);
      blocks.Extend(built.blocks);
      PlaceLinked(sha, SiteOf(files[..i]), file);
      PlacedFrom(SiteOf(files[..i]), file);
      tree := Place(NameOf, tree, Link(built.cid, file.path, built.tsize));
    }
    assert files[..|files|] == files;
    UnderRoot(SiteOf(files));
    var root :- BuildDirectory(sha, [], tree, blocks, SiteOf(files));
    r := Ok(Imported(blocks.items, root.0));
  }
}
