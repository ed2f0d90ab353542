/** Bytewise order and the stable sort by a byte-string key that the encoder, the importer and
    the ordered path map all use. */
module Ordering {
  import opened Base

  /** Unsigned bytewise order, the shorter string first when one is a prefix of the other. */
  predicate Less(a: Octets, b: Octets)
  {
    if |b| == 0 then false
    else if |a| == 0 then true
    else if a[0] != b[0] then a[0] < b[0]
    else Less(a[1..], b[1..])
  }

  lemma {:induction false} LessIrreflexive(a: Octets)
    ensures !Less(a, a)
  {
    if |a| > 0 {
      LessIrreflexive(a[1..]);
    }
  }

  lemma {:induction false} LessTransitive(a: Octets, b: Octets, c: Octets)
    requires Less(a, b) && Less(b, c)
    ensures Less(a, c)
  {
    if |a| > 0 && a[0] == b[0] && b[0] == c[0] {
      LessTransitive(a[1..], b[1..], c[1..]);
    }
  }

  lemma {:induction false} LessTotal(a: Octets, b: Octets)
    ensures Less(a, b) || a == b || Less(b, a)
  {
    if |a| > 0 && |b| > 0 && a[0] == b[0] {
      LessTotal(a[1..], b[1..]);
      if a[1..] == b[1..] {
        assert a == [a[0]] + a[1..];
        assert b == [b[0]] + b[1..];
      }
    }
  }

  lemma {:induction false} LessAsymmetric(a: Octets, b: Octets)
    requires Less(a, b)
    ensures !Less(b, a) && a != b
  {
    LessIrreflexive(a);
    if Less(b, a) {
      LessTransitive(a, b, a);
    }
  }

  /** They agree up to a position at which the first ends or has the smaller octet. */
  ghost predicate Before(a: Octets, b: Octets) {
    exists k :: 0 <= k <= |a| && k < |b| && a[..k] == b[..k] && (k < |a| ==> a[k] < b[k])
  }

  /** The order is decided by the first difference. */
  lemma {:induction false} LessIffBefore(a: Octets, b: Octets)
    ensures Less(a, b) <==> Before(a, b)
  {
    if |a| > 0 && |b| > 0 && a[0] == b[0] {
      LessIffBefore(a[1..], b[1..]);
      if Before(a[1..], b[1..]) {
        var k :| 0 <= k <= |a[1..]| && k < |b[1..]| && a[1..][..k] == b[1..][..k]
                 && (k < |a[1..]| ==> a[1..][k] < b[1..][k]);
        assert a[..k + 1] == [a[0]] + a[1..][..k] && b[..k + 1] == [b[0]] + b[1..][..k];
      }
      if Before(a, b) {
        var k :| 0 <= k <= |a| && k < |b| && a[..k] == b[..k] && (k < |a| ==> a[k] < b[k]);
        assert k > 0;
        assert a[1..][..k - 1] == a[..k][1..] && b[1..][..k - 1] == b[..k][1..];
      }
    } else if |b| > 0 {
      if |a| == 0 || a[0] < b[0] {
        assert a[..0] == b[..0];
      } else if Before(a, b) {
        FirstOctet(a, b);
      }
    }
  }

  lemma {:induction false} FirstOctet(a: Octets, b: Octets)
    requires Before(a, b) && |a| > 0
    ensures |b| > 0 && a[0] <= b[0]
  {
    var k :| 0 <= k <= |a| && k < |b| && a[..k] == b[..k] && (k < |a| ==> a[k] < b[k]);
    if k > 0 {
      assert a[..k][0] == b[..k][0];
    }
  }

  /** Strictly increasing keys: sorted and free of duplicates at once. */
  ghost predicate Increasing<T>(key: T -> Octets, xs: seq<T>)
  {
    forall i, j :: 0 <= i < j < |xs| ==> Less(key(xs[i]), key(xs[j]))
  }

  /** No two positions carry the same key. */
  ghost predicate Distinct<T>(key: T -> Octets, xs: seq<T>)
  {
    forall i, j :: 0 <= i < j < |xs| ==> key(xs[i]) != key(xs[j])
  }

  function Insert<T>(key: T -> Octets, x: T, xs: seq<T>): (r: seq<T>)
    ensures |r| == |xs| + 1
  {
    if |xs| == 0 || Less(key(x), key(xs[0])) then
      [x] + xs
    else
      [xs[0]] + Insert(key, x, xs[1..])
  }

  /** Insertion from the right keeps equal keys in their original order, as a stable sort does. */
  function Sort<T>(key: T -> Octets, xs: seq<T>): (r: seq<T>)
    ensures |r| == |xs|
  {
    if |xs| == 0 then [] else Insert(key, xs[|xs| - 1], Sort(key, xs[..|xs| - 1]))
  }

  lemma {:induction false} InsertPermutes<T>(key: T -> Octets, x: T, xs: seq<T>)
    ensures multiset(Insert(key, x, xs)) == multiset([x]) + multiset(xs)
  {
    if |xs| > 0 && !Less(key(x), key(xs[0])) {
      InsertPermutes(key, x, xs[1..]);
      assert xs == [xs[0]] + xs[1..];
    }
  }

  /** Sorting only rearranges. */
  lemma {:induction false} SortPermutes<T>(key: T -> Octets, xs: seq<T>)
    ensures multiset(Sort(key, xs)) == multiset(xs)
  {
    if |xs| > 0 {
      SortPermutes(key, xs[..|xs| - 1]);
      InsertPermutes(key, xs[|xs| - 1], Sort(key, xs[..|xs| - 1]));
      assert xs == xs[..|xs| - 1] + [xs[|xs| - 1]];
    }
  }

  // ----- what sorting does -----

  /** Nothing later is strictly smaller: sorted, duplicates allowed. */
  ghost predicate Ordered<T>(key: T -> Octets, xs: seq<T>)
  {
    forall i, j :: 0 <= i < j < |xs| ==> !Less(key(xs[j]), key(xs[i]))
  }

  lemma {:induction false} InsertOrdered<T>(key: T -> Octets, x: T, xs: seq<T>)
    requires Ordered(key, xs)
    ensures Ordered(key, Insert(key, x, xs))
  {
    var r := Insert(key, x, xs);
    if |xs| == 0 {
    } else if Less(key(x), key(xs[0])) {
      forall j | 0 < j < |r| ensures !Less(key(r[j]), key(x)) {
        if j > 1 && Less(key(xs[j - 1]), key(x)) {
          LessTransitive(key(xs[j - 1]), key(x), key(xs[0]));
        }
        if j == 1 {
          LessAsymmetric(key(x), key(xs[0]));
        }
      }
    } else {
      var rest := Insert(key, x, xs[1..]);
      InsertOrdered(key, x, xs[1..]);
      InsertPermutes(key, x, xs[1..]);
      forall j | 0 < j < |r| ensures !Less(key(r[j]), key(xs[0])) {
        assert r[j] == rest[j - 1] && rest[j - 1] in multiset(rest);
        assert r[j] == x || r[j] in multiset(xs[1..]);
        if r[j] != x {
          var k :| 0 <= k < |xs[1..]| && xs[1..][k] == r[j];
          assert xs[k + 1] == r[j];
        }
      }
    }
  }

  lemma {:induction false} SortOrdered<T>(key: T -> Octets, xs: seq<T>)
    ensures Ordered(key, Sort(key, xs))
  {
    if |xs| > 0 {
      SortOrdered(key, xs[..|xs| - 1]);
      InsertOrdered(key, xs[|xs| - 1], Sort(key, xs[..|xs| - 1]));
    }
  }

  lemma {:induction false} TwoPositions<T>(xs: seq<T>, x: T) returns (i: nat, j: nat)
    requires multiset(xs)[x] >= 2
    ensures i < j < |xs| && xs[i] == x && xs[j] == x
  {
    assert xs == [xs[0]] + xs[1..];
    if xs[0] == x {
      assert x in multiset(xs[1..]);
      var k :| 0 <= k < |xs[1..]| && xs[1..][k] == x;
      i, j := 0, k + 1;
    } else {
      assert multiset(xs) == multiset([xs[0]]) + multiset(xs[1..]);
      i, j := TwoPositions(xs[1..], x);
      i, j := i + 1, j + 1;
    }
  }

  lemma {:induction false} TwiceCounted<T>(xs: seq<T>, i: nat, j: nat)
    requires i < j < |xs| && xs[i] == xs[j]
    ensures multiset(xs)[xs[i]] >= 2
  {
    assert xs == xs[..j] + xs[j..];
    assert xs[i] in xs[..j] && xs[j..][0] == xs[i];
    assert multiset(xs) == multiset(xs[..j]) + multiset(xs[j..]);
    assert xs[i] in multiset(xs[..j]) && xs[i] in multiset(xs[j..]);
  }

  lemma {:induction false} DistinctPermuted<T>(key: T -> Octets, xs: seq<T>, ys: seq<T>)
    requires multiset(xs) == multiset(ys) && Distinct(key, xs)
    ensures Distinct(key, ys)
  {
    forall i, j | 0 <= i < j < |ys| ensures key(ys[i]) != key(ys[j]) {
      if ys[i] == ys[j] {
        TwiceCounted(ys, i, j);
        var p, q := TwoPositions(xs, ys[i]);
        assert false;
      } else {
        assert ys[i] in multiset(xs) && ys[j] in multiset(xs);
        var p :| 0 <= p < |xs| && xs[p] == ys[i];
        var q :| 0 <= q < |xs| && xs[q] == ys[j];
        assert p < q || q < p;
      }
    }
  }

  lemma {:induction false} OrderedDistinctIncreasing<T>(key: T -> Octets, xs: seq<T>)
    requires Ordered(key, xs) && Distinct(key, xs)
    ensures Increasing(key, xs)
  {
    forall i, j | 0 <= i < j < |xs| ensures Less(key(xs[i]), key(xs[j])) {
      LessTotal(key(xs[i]), key(xs[j]));
    }
  }

  lemma {:induction false} IncreasingDistinct<T>(key: T -> Octets, xs: seq<T>)
    requires Increasing(key, xs)
    ensures Distinct(key, xs)
  {
    forall i, j | 0 <= i < j < |xs| ensures key(xs[i]) != key(xs[j]) {
      LessAsymmetric(key(xs[i]), key(xs[j]));
    }
  }

  lemma {:induction false} SortIncreasing<T>(key: T -> Octets, xs: seq<T>)
    requires Distinct(key, xs)
    ensures Increasing(key, Sort(key, xs))
  {
    SortOrdered(key, xs);
    SortPermutes(key, xs);
    DistinctPermuted(key, xs, Sort(key, xs));
    OrderedDistinctIncreasing(key, Sort(key, xs));
  }

  /** Whether some neighbours in the sequence carry equal keys: the encoder's duplicate test. */
  predicate EqualNeighbours<T>(key: T -> Octets, xs: seq<T>)
  {
    exists i :: 0 <= i < |xs| - 1 && key(xs[i]) == key(xs[i + 1])
  }

  lemma {:induction false} NeighboursToAll<T>(key: T -> Octets, xs: seq<T>, i: nat, j: nat)
    requires Ordered(key, xs) && !EqualNeighbours(key, xs)
    requires i < j < |xs|
    ensures Less(key(xs[i]), key(xs[j]))
    decreases j - i
  {
    LessTotal(key(xs[j - 1]), key(xs[j]));
    assert key(xs[j - 1]) != key(xs[(j - 1) + 1]);
    if i < j - 1 {
      NeighboursToAll(key, xs, i, j - 1);
      LessTransitive(key(xs[i]), key(xs[j - 1]), key(xs[j]));
    }
  }

  /** After sorting, comparing neighbours only is enough to find every duplicate key. */
  lemma {:induction false} NeighboursFindDuplicates<T>(key: T -> Octets, xs: seq<T>)
    ensures EqualNeighbours(key, Sort(key, xs)) <==> !Distinct(key, xs)
  {
    var s := Sort(key, xs);
    SortOrdered(key, xs);
    SortPermutes(key, xs);
    if !EqualNeighbours(key, s) {
      forall i, j | 0 <= i < j < |s| ensures key(s[i]) != key(s[j]) {
        NeighboursToAll(key, s, i, j);
        LessAsymmetric(key(s[i]), key(s[j]));
      }
      DistinctPermuted(key, s, xs);
    }
    if Distinct(key, xs) {
      DistinctPermuted(key, xs, s);
    }
  }

  lemma {:induction false} HasMember<T>(xs: seq<T>)
    ensures xs != [] ==> exists x :: x in xs
  {
    if xs != [] {
      assert xs[0] in xs;
    }
  }

  /** A strictly increasing sequence is determined by the elements it holds. */
  lemma {:induction false} IncreasingUnique<T>(key: T -> Octets, xs: seq<T>, ys: seq<T>)
    requires Increasing(key, xs) && Increasing(key, ys)
    requires forall x :: x in xs <==> x in ys
    ensures xs == ys
  {
    if |xs| == 0 {
      HasMember(ys);
    } else {
      assert xs[0] in ys;
      var i :| 0 <= i < |ys| && ys[i] == xs[0];
      assert ys[0] in xs;
      var j :| 0 <= j < |xs| && xs[j] == ys[0];
      if i > 0 && j > 0 {
        LessAsymmetric(key(xs[0]), key(xs[j]));
        assert false;
      }
      assert xs[0] == ys[0];
      IncreasingDistinct(key, xs);
      IncreasingDistinct(key, ys);
      forall x ensures x in xs[1..] <==> x in ys[1..] {
        TailMembers(key, xs, ys, x);
        TailMembers(key, ys, xs, x);
      }
      IncreasingUnique(key, xs[1..], ys[1..]);
      assert xs == [xs[0]] + xs[1..];
      assert ys == [ys[0]] + ys[1..];
    }
  }

  lemma {:induction false} TailMembers<T>(key: T -> Octets, xs: seq<T>, ys: seq<T>, x: T)
    requires Distinct(key, xs) && |xs| > 0 && |ys| > 0 && xs[0] == ys[0]
    requires forall z :: z in xs <==> z in ys
    ensures x in xs[1..] ==> x in ys[1..]
  {
    if x in xs[1..] {
      var i :| 0 <= i < |xs[1..]| && xs[1..][i] == x;
      assert xs[i + 1] == x && x in xs && x != xs[0];
      var j :| 0 <= j < |ys| && ys[j] == x;
      assert ys[1..][j - 1] == x;
    }
  }

  lemma {:induction false} SortMembers<T>(key: T -> Octets, xs: seq<T>, x: T)
    ensures x in Sort(key, xs) <==> x in xs
  {
    SortPermutes(key, xs);
    assert x in Sort(key, xs) <==> x in multiset(Sort(key, xs));
    assert x in xs <==> x in multiset(xs);
  }

  /** Sorting leaves a sequence that is already strictly increasing alone. */
  lemma {:induction false} SortIdentity<T>(key: T -> Octets, xs: seq<T>)
    requires Increasing(key, xs)
    ensures Sort(key, xs) == xs
  {
    IncreasingDistinct(key, xs);
    SortIncreasing(key, xs);
    forall x ensures x in Sort(key, xs) <==> x in xs {
      SortMembers(key, xs, x);
    }
    IncreasingUnique(key, Sort(key, xs), xs);
  }

  /** With distinct keys the result does not depend on the order of arrival. */
  lemma {:induction false} SortOrderIndependent<T>(key: T -> Octets, xs: seq<T>, ys: seq<T>)
    requires Distinct(key, xs) && Distinct(key, ys)
    requires forall x :: x in xs <==> x in ys
    ensures Sort(key, xs) == Sort(key, ys)
  {
    SortIncreasing(key, xs);
    SortIncreasing(key, ys);
    forall x ensures x in Sort(key, xs) <==> x in Sort(key, ys) {
      SortMembers(key, xs, x);
      SortMembers(key, ys, x);
    }
    IncreasingUnique(key, Sort(key, xs), Sort(key, ys));
  }

  /** One duplicate-free sequence inside another of the same length holds the same elements. */
  lemma {:induction false} SameSizeSameMembers<T>(key: T -> Octets, xs: seq<T>, ys: seq<T>)
    requires Distinct(key, xs) && Distinct(key, ys) && |xs| == |ys|
    requires forall x :: x in xs ==> x in ys
    ensures forall x :: x in xs <==> x in ys
  {
    var a, b := set x | x in xs, set y | y in ys;
    MembersCount(key, xs);
    MembersCount(key, ys);
    SubsetOfSameSize(a, b);
    assert forall y :: y in ys ==> y in b;
  }

  lemma {:induction false} SubsetOfSameSize<T>(a: set<T>, b: set<T>)
    requires a <= b && |a| == |b|
    ensures a == b
  {
    if x :| x in b && x !in a {
      assert |a + {x}| == |a| + 1;
      SubsetSize(a + {x}, b);
    }
  }

  lemma {:induction false} SubsetSize<T>(a: set<T>, b: set<T>)
    requires a <= b
    ensures |a| <= |b|
  {
    if a != {} {
      var x :| x in a;
      SubsetSize(a - {x}, b - {x});
    }
  }

  lemma {:induction false} MembersCount<T>(key: T -> Octets, xs: seq<T>)
    requires Distinct(key, xs)
    ensures |set x | x in xs| == |xs|
  {
    if |xs| > 0 {
      var last := xs[|xs| - 1];
      var front := xs[..|xs| - 1];
      MembersCount(key, front);
      assert forall i :: 0 <= i < |front| ==> key(front[i]) != key(last);
      assert (set x | x in xs) == (set x | x in front) + {last};
    }
  }

  // ----- an ordered map as its sequence of entries -----

  /** Inserting into an ordered map: an entry of the same key is replaced. */
  function Place<T>(key: T -> Octets, xs: seq<T>, x: T): seq<T>
  {
    if |xs| == 0 then [x]
    else if key(x) == key(xs[0]) then [x] + xs[1..]
    else if Less(key(x), key(xs[0])) then [x] + xs
    else [xs[0]] + Place(key, xs[1..], x)
  }

  lemma {:induction false} PlaceMembers<T>(key: T -> Octets, xs: seq<T>, x: T, y: T)
    requires Increasing(key, xs)
    ensures y in Place(key, xs, x) <==> y == x || (y in xs && key(y) != key(x))
  {
    if |xs| > 0 {
      IncreasingDistinct(key, xs);
      assert y in xs <==> y == xs[0] || y in xs[1..];
      if key(x) == key(xs[0]) {
      } else if Less(key(x), key(xs[0])) {
        if y in xs {
          var i :| 0 <= i < |xs| && xs[i] == y;
          LessAsymmetric(key(x), key(xs[0]));
          if i > 0 {
            LessTransitive(key(x), key(xs[0]), key(xs[i]));
            LessAsymmetric(key(x), key(xs[i]));
          }
        }
      } else {
        PlaceMembers(key, xs[1..], x, y);
        assert Place(key, xs, x) == [xs[0]] + Place(key, xs[1..], x);
      }
    }
  }

  lemma {:induction false} PlaceIncreasing<T>(key: T -> Octets, xs: seq<T>, x: T)
    requires Increasing(key, xs)
    ensures Increasing(key, Place(key, xs, x))
  {
    if |xs| > 0 {
      if key(x) == key(xs[0]) {
      } else if Less(key(x), key(xs[0])) {
        forall j | 0 < j < |xs| ensures Less(key(x), key(xs[j])) {
          LessTransitive(key(x), key(xs[0]), key(xs[j]));
        }
      } else {
        LessTotal(key(x), key(xs[0]));
        var rest := Place(key, xs[1..], x);
        PlaceIncreasing(key, xs[1..], x);
        forall j | 0 <= j < |rest| ensures Less(key(xs[0]), key(rest[j])) {
          PlaceMembers(key, xs[1..], x, rest[j]);
          if rest[j] != x {
            assert rest[j] in xs[1..];
            var k :| 0 <= k < |xs[1..]| && xs[1..][k] == rest[j];
            assert xs[k + 1] == rest[j];
          }
        }
      }
    }
  }

  function MapAll<T, U>(f: T -> U, xs: seq<T>): (r: seq<U>)
    ensures |r| == |xs| && forall i :: 0 <= i < |xs| ==> r[i] == f(xs[i])
  {
    seq(|xs|, i requires 0 <= i < |xs| => f(xs[i]))
  }

  /** Placing commutes with a change of values that keeps the keys. */
  lemma {:induction false} PlaceMapped<T, U>(key: T -> Octets, other: U -> Octets, f: T -> U, xs: seq<T>, x: T)
    requires other(f(x)) == key(x) && forall i :: 0 <= i < |xs| ==> other(f(xs[i])) == key(xs[i])
    ensures MapAll(f, Place(key, xs, x)) == Place(other, MapAll(f, xs), f(x))
  {
    hide Less, MapAll;
    if |xs| == 0 {
      assert MapAll(f, [x]) == [f(x)];
    } else {
      assert MapAll(f, xs)[1..] == MapAll(f, xs[1..]);
      assert MapAll(f, [x] + xs[1..]) == [f(x)] + MapAll(f, xs)[1..];
      assert MapAll(f, [x] + xs) == [f(x)] + MapAll(f, xs);
      if key(x) != key(xs[0]) && !Less(key(x), key(xs[0])) {
        PlaceMapped(key, other, f, xs[1..], x);
        var rest := Place(key, xs[1..], x);
        assert MapAll(f, [xs[0]] + rest) == [f(xs[0])] + MapAll(f, rest);
      }
    }
  }
}
