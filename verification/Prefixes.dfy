/** Textual prefixes and lists of path steps say the same thing: what the source finds by comparing
    and cutting strings is what module Importer finds by taking leaves apart. */
module Prefixes {
  import opened Base
  import opened Importer

  /** A path that continues below this directory prefix; the empty prefix is the root. */
  predicate Inside(prefix: Octets, path: Octets) {
    prefix == [] || (|prefix| < |path| && path[..|prefix|] == prefix && path[|prefix|] == SLASH)
  }

  function Relative(prefix: Octets, path: Text): Text
    requires Inside(prefix, path)
  {
    if prefix == [] then path
    else
      CutText(path, |prefix|);
      path[|prefix| + 1..]
  }

  function Child(prefix: Octets, name: Octets): Octets {
    if prefix == [] then name else prefix + [SLASH] + name
  }

  /** The leaves below a prefix. */
  function Under(prefix: Octets, site: seq<SiteFile>): seq<Leaf>
  {
    if |site| == 0 then []
    else
      var last := site[|site| - 1];
      Under(prefix, site[..|site| - 1])
      + if Inside(prefix, last.path) then [LeafOf(Relative(prefix, last.path), last.content)] else []
  }

  lemma {:induction false} UnderRoot(site: seq<SiteFile>)
    ensures Under([], site) == Leaves(site)
  {
    if |site| > 0 {
      UnderRoot(site[..|site| - 1]);
      assert Leaves(site) == Leaves(site[..|site| - 1]) + [Leaves(site)[|site| - 1]];
    }
  }

  lemma {:induction false} SlashUnique(s: Octets, k: nat)
    requires k <= |s| && SlashFree(s, k) && (k < |s| ==> IsSlash(s, k))
    ensures SlashAt(s) == k
  {
    var r := SlashAt(s);
    assert r < |s| ==> IsSlash(s, r);
  }

  lemma {:induction false} SlashFreePrefix(s: Octets, k: nat, front: Octets)
    requires k <= |front| <= |s| && front == s[..|front|]
    ensures SlashFree(s, k) <==> SlashFree(front, k)
  {
    assert forall j :: 0 <= j < k ==> (IsSlash(s, j) <==> IsSlash(front, j));
  }

  lemma {:induction false} SplitCons(first: Text, rest: Text, s: Text)
    requires s == first + [SLASH] + rest && SlashAt(first) == |first|
    ensures Split(s) == [first] + Split(rest)
  {
    SlashFreePrefix(s, |first|, first);
    SlashUnique(s, |first|);
    assert s[..|first|] == first && s[|first| + 1..] == rest;
  }

  lemma {:induction false} SplitWhole(s: Text)
    requires SlashAt(s) == |s|
    ensures Split(s) == [s]
  {
  }

  /** Splitting can be done at any separator. */
  lemma {:induction false} SplitJoin(front: Text, back: Text, s: Text)
    requires s == front + [SLASH] + back
    ensures Split(s) == Split(front) + Split(back)
    decreases |front|
  {
    hide Split;
    var k := SlashAt(front);
    if k == |front| {
      SplitWhole(front);
      SplitCons(front, back, s);
    } else {
      CutText(front, k);
      var first, below := front[..k], front[k + 1..];
      assert front == first + [SLASH] + below;
      SlashFreePrefix(front, k, first);
      SlashUnique(first, k);
      var rest := s[k + 1..];
      assert rest == below + [SLASH] + back;
      CutText(s, k);
      SplitJoin(below, back, rest);
      SplitCons(first, below, front);
      SplitCons(first, rest, s);
    }
  }

  /** A path goes below the directory `name` exactly when it is longer than one step and that is its
      first. */
  lemma {:induction false} FirstStep(name: Text, path: Text)
    requires |name| > 0 && SlashAt(name) == |name|
    ensures Inside(name, path) <==> |Split(path)| > 1 && Split(path)[0] == name
    ensures Inside(name, path) ==> Split(path)[1..] == Split(Relative(name, path))
  {
    var k := SlashAt(path);
    if Inside(name, path) {
      SlashFreePrefix(path, |name|, name);
      SlashUnique(path, |name|);
      CutText(path, k);
      assert Split(path) == [path[..k]] + Split(path[k + 1..]);
    } else if k < |path| {
      CutText(path, k);
      assert Split(path)[0] == path[..k];
    }
  }

  lemma {:induction false} ChildInside(prefix: Octets, name: Octets, path: Text)
    requires |prefix| > 0 && |name| > 0
    ensures Inside(Child(prefix, name), path)
       <==> Inside(prefix, path) && Inside(name, Relative(prefix, path))
    ensures Inside(Child(prefix, name), path)
        ==> Relative(Child(prefix, name), path) == Relative(name, Relative(prefix, path))
  {
    var child := Child(prefix, name);
    var n := |prefix|;
    if Inside(child, path) {
      assert path[..n] == path[..|child|][..n] == child[..n] == prefix;
      assert path[n] == path[..|child|][n] == child[n] == SLASH;
      var r := Relative(prefix, path);
      assert r[..|name|] == path[..|child|][n + 1..] == child[n + 1..] == name;
      assert r[|name|] == path[|child|];
      assert Inside(name, r);
    }
    if Inside(prefix, path) && Inside(name, Relative(prefix, path)) {
      var r := Relative(prefix, path);
      assert path[..|child|] == path[..n] + [path[n]] + r[..|name|];
      assert path[|child|] == r[|name|];
      assert Inside(child, path);
      assert Relative(child, path) == Relative(name, r);
    }
  }

  /** Descending in the list of leaves is lengthening the textual prefix. */
  lemma {:induction false} DescendUnder(prefix: Octets, site: seq<SiteFile>, name: Text)
    requires |name| > 0 && SlashAt(name) == |name|
    ensures Descend(Under(prefix, site), name) == Under(Child(prefix, name), site)
  {
    if |site| > 0 {
      var front, last := site[..|site| - 1], site[|site| - 1];
      DescendUnder(prefix, front, name);
      if prefix != [] {
        ChildInside(prefix, name, last.path);
      }
      if Inside(prefix, last.path) {
        var r := Relative(prefix, last.path);
        FirstStep(name, r);
        var leaf := LeafOf(r, last.content);
        var all := Under(prefix, front) + [leaf];
        assert all[..|all| - 1] == Under(prefix, front);
        if Inside(name, r) {
          var parts := Split(Relative(name, r));
          assert leaf.below == parts;
        }
      } else {
        assert Under(prefix, site) == Under(prefix, front);
      }
    }
  }

  // ----- what good paths guarantee -----

  /** Every step of every leaf is a good part. */
  ghost predicate Clean(leaves: seq<Leaf>) {
    forall l :: l in leaves ==> !BadPart(l.name) && forall p :: p in l.below ==> !BadPart(p)
  }

  ghost predicate GoodPaths(site: seq<SiteFile>) {
    forall f :: f in site ==> GoodPath(f.path)
  }

  lemma {:induction false} CleanLeaf(prefix: Octets, file: SiteFile)
    requires Inside(prefix, file.path) && GoodPath(file.path)
    ensures Clean([LeafOf(Relative(prefix, file.path), file.content)])
  {
    var parts := Split(file.path);
    var below := Split(Relative(prefix, file.path));
    if prefix != [] {
      CutText(file.path, |prefix|);
      assert file.path == file.path[..|prefix|] + [SLASH] + Relative(prefix, file.path);
      SplitJoin(file.path[..|prefix|], Relative(prefix, file.path), file.path);
    }
    assert forall p :: p in below ==> p in parts;
    assert forall p :: p in parts ==> !BadPart(p);
  }

  lemma {:induction false} CleanUnder(prefix: Octets, site: seq<SiteFile>)
    requires GoodPaths(site)
    ensures Clean(Under(prefix, site))
  {
    if |site| > 0 {
      CleanUnder(prefix, site[..|site| - 1]);
      if Inside(prefix, site[|site| - 1].path) {
        CleanLeaf(prefix, site[|site| - 1]);
      }
    }
  }

  lemma {:induction false} SplitSlashFree(s: Text)
    ensures forall i :: 0 <= i < |Split(s)| ==> SlashAt(Split(s)[i]) == |Split(s)[i]|
    decreases |s|
  {
    var k := SlashAt(s);
    if k < |s| {
      CutText(s, k);
      SplitSlashFree(s[k + 1..]);
      SlashFreePrefix(s, k, s[..k]);
      SlashUnique(s[..k], k);
    }
  }
}
