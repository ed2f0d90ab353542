/** Which values encode alike: exactly those that differ in the order of map entries only. */
module CborEquality {
  import opened Ordering
  import opened Cbor
  import opened CborCanonical
  import opened CborComplete

  /** Two values that differ at most in the order in which maps list their entries, at any depth.
      Defined on the values themselves; neither sorting nor encoding is mentioned. */
  ghost predicate Same(v: Value, w: Value)
    decreases v
  {
    match v
    case Array(items) =>
      w.Array? && |items| == |w.items| && forall i :: 0 <= i < |items| ==> Same(items[i], w.items[i])
    case Map(entries) =>
      && w.Map? && |entries| == |w.entries|
      && (forall i :: 0 <= i < |entries| ==> SameAsOneOf(entries[i], w.entries))
      && (forall j :: 0 <= j < |w.entries| ==> OneIsSameAs(entries, w.entries[j]))
    case _ => v == w
  }

  ghost predicate SameAsOneOf(e: Entry, fs: seq<Entry>)
    decreases e, 1
  {
    exists j :: 0 <= j < |fs| && SameEntry(e, fs[j])
  }

  ghost predicate OneIsSameAs(es: seq<Entry>, f: Entry)
    decreases es, 0
  {
    exists i :: 0 <= i < |es| && SameEntry(es[i], f)
  }

  ghost predicate SameEntry(e: Entry, f: Entry)
    decreases e, 0
  {
    e.key == f.key && Same(e.value, f.value)
  }

  /** No map anywhere in the value carries a key twice. */
  ghost predicate WellKeyed(v: Value)
  {
    match v
    case Array(items) => forall i :: 0 <= i < |items| ==> WellKeyed(items[i])
    case Map(entries) =>
      Distinct(EntryKey, entries) && forall i :: 0 <= i < |entries| ==> WellKeyedEntry(entries[i])
    case _ => true
  }

  ghost predicate WellKeyedEntry(e: Entry)
  {
    WellKeyed(e.value)
  }

  lemma {:induction false} CanonEqualIsSame(v: Value, w: Value)
    requires Canon(v) == Canon(w)
    ensures Same(v, w)
    decreases v
  {
    match v
    case Array(items) =>
      forall i | 0 <= i < |items| ensures Same(items[i], w.items[i]) {
        assert CanonItems(items)[i] == CanonItems(w.items)[i];
        CanonEqualIsSame(items[i], w.items[i]);
      }
    case Map(entries) =>
      CanonEqualMaps(entries, w.entries);
    case _ =>
  }

  lemma {:induction false} CanonEqualMaps(xs: seq<Entry>, ys: seq<Entry>)
    requires Sort(EntryKey, CanonEntries(xs)) == Sort(EntryKey, CanonEntries(ys))
    ensures Same(Map(xs), Map(ys))
    decreases xs
  {
    forall i | 0 <= i < |xs| ensures SameAsOneOf(xs[i], ys) {
      var j := Counterpart(xs, ys, i);
      CanonEqualEntry(xs[i], ys[j]);
    }
    forall j | 0 <= j < |ys| ensures OneIsSameAs(xs, ys[j]) {
      var i := Counterpart(ys, xs, j);
      CanonEqualEntry(xs[i], ys[j]);
    }
    assert |Sort(EntryKey, CanonEntries(xs))| == |xs|;
  }

  lemma {:induction false} CanonEqualEntry(e: Entry, f: Entry)
    requires CanonEntry(e) == CanonEntry(f)
    ensures SameEntry(e, f)
    decreases e, 0
  {
    CanonEqualIsSame(e.value, f.value);
  }

  /** Maps with one canonical form hold the same canonical entries. */
  lemma {:induction false} Counterpart(xs: seq<Entry>, ys: seq<Entry>, i: nat) returns (j: nat)
    requires Sort(EntryKey, CanonEntries(xs)) == Sort(EntryKey, CanonEntries(ys)) && i < |xs|
    ensures j < |ys| && CanonEntry(xs[i]) == CanonEntry(ys[j])
  {
    var x := CanonEntries(xs)[i];
    SortMembers(EntryKey, CanonEntries(xs), x);
    SortMembers(EntryKey, CanonEntries(ys), x);
    j :| 0 <= j < |CanonEntries(ys)| && CanonEntries(ys)[j] == x;
  }

  lemma {:induction false} SameIsCanonEqual(v: Value, w: Value)
    requires Same(v, w) && WellKeyed(v) && WellKeyed(w)
    ensures Canon(v) == Canon(w)
    decreases v
  {
    match v
    case Array(items) =>
      forall i | 0 <= i < |items| ensures CanonItems(items)[i] == CanonItems(w.items)[i] {
        SameIsCanonEqual(items[i], w.items[i]);
      }
      assert CanonItems(items) == CanonItems(w.items);
    case Map(entries) =>
      SameEntries(entries, w.entries);
      CanonDistinct(entries);
      CanonDistinct(w.entries);
      SortOrderIndependent(EntryKey, CanonEntries(entries), CanonEntries(w.entries));
    case _ =>
  }

  lemma {:induction false} SameEntries(xs: seq<Entry>, ys: seq<Entry>)
    requires Same(Map(xs), Map(ys)) && WellKeyed(Map(xs)) && WellKeyed(Map(ys))
    ensures forall x :: x in CanonEntries(xs) <==> x in CanonEntries(ys)
    decreases xs
  {
    forall i | 0 <= i < |xs| ensures CanonEntries(xs)[i] in CanonEntries(ys) {
      assert SameAsOneOf(xs[i], ys);
      var j :| 0 <= j < |ys| && SameEntry(xs[i], ys[j]);
      SameEntryCanon(xs[i], ys[j]);
      assert CanonEntries(ys)[j] == CanonEntries(xs)[i];
    }
    forall j | 0 <= j < |ys| ensures CanonEntries(ys)[j] in CanonEntries(xs) {
      assert OneIsSameAs(xs, ys[j]);
      var i :| 0 <= i < |xs| && SameEntry(xs[i], ys[j]);
      SameEntryCanon(xs[i], ys[j]);
      assert CanonEntries(xs)[i] == CanonEntries(ys)[j];
    }
  }

  lemma {:induction false} SameEntryCanon(e: Entry, f: Entry)
    requires SameEntry(e, f) && WellKeyedEntry(e) && WellKeyedEntry(f)
    ensures CanonEntry(e) == CanonEntry(f)
    decreases e, 0
  {
    SameIsCanonEqual(e.value, f.value);
  }

  lemma {:induction false} CanonDistinct(entries: seq<Entry>)
    requires Distinct(EntryKey, entries)
    ensures Distinct(EntryKey, CanonEntries(entries))
  {
    forall i, j | 0 <= i < j < |entries|
      ensures EntryKey(CanonEntries(entries)[i]) != EntryKey(CanonEntries(entries)[j]) {
      assert EntryKey(entries[i]) != EntryKey(entries[j]);
    }
  }

  // ----- only well-keyed values encode -----

  lemma {:induction false} EncodesWellKeyed(v: Value, depth: nat)
    requires EncodeAt(v, depth).Ok?
    ensures WellKeyed(v)
    decreases MAX_DEPTH + 1 - depth, 0
  {
    match v
    case Array(items) => EncodesWellKeyedItems(items, depth + 1);
    case Map(entries) => EncodesWellKeyedEntries(entries, depth);
    case _ =>
  }

  lemma {:induction false} EncodesWellKeyedItems(items: seq<Value>, depth: nat)
    requires EncodeItems(items, depth).Ok?
    ensures forall i :: 0 <= i < |items| ==> WellKeyed(items[i])
    decreases MAX_DEPTH + 1 - depth, 1
  {
    forall i | 0 <= i < |items| ensures WellKeyed(items[i]) {
      ItemEncodes(items, depth, i);
      EncodesWellKeyed(items[i], depth);
    }
  }

  lemma {:induction false} EncodesWellKeyedEntries(entries: seq<Entry>, depth: nat)
    requires depth <= MAX_DEPTH && EncodeMap(entries, depth).Ok?
    ensures Distinct(EntryKey, entries)
    ensures forall i :: 0 <= i < |entries| ==> WellKeyedEntry(entries[i])
    decreases MAX_DEPTH - depth, 1
  {
    NeighboursFindDuplicates(EntryKey, entries);
    forall i | 0 <= i < |entries| ensures WellKeyedEntry(entries[i]) {
      SortMembers(EntryKey, entries, entries[i]);
      var j :| 0 <= j < |entries| && Sort(EntryKey, entries)[j] == entries[i];
      EntryEncodes(Sort(EntryKey, entries), depth + 1, j);
      EncodesWellKeyed(entries[i].value, depth + 1);
    }
  }

  lemma {:induction false} ItemEncodes(items: seq<Value>, depth: nat, i: nat)
    requires EncodeItems(items, depth).Ok? && i < |items|
    ensures EncodeAt(items[i], depth).Ok?
  {
    if i > 0 {
      ItemEncodes(items[1..], depth, i - 1);
    }
  }

  lemma {:induction false} EntryEncodes(entries: seq<Entry>, depth: nat, i: nat)
    requires EncodeEntries(entries, depth).Ok? && i < |entries|
    ensures EncodeAt(entries[i].value, depth).Ok?
  {
    if i > 0 {
      EntryEncodes(entries[1..], depth, i - 1);
    }
  }

  /** Two encodable values have one encoding exactly when they are the same up to entry order. */
  lemma {:induction false} EncodeAlikeIffSame(v: Value, w: Value)
    requires Encode(v).Ok? && Encode(w).Ok?
    ensures Encode(v) == Encode(w) <==> Same(v, w)
  {
    EncodingIsComplete(v, []);
    EncodingIsComplete(w, []);
    if Encode(v) == Encode(w) {
      CanonEqualIsSame(v, w);
    }
    if Same(v, w) {
      EncodesWellKeyed(v, 0);
      EncodesWellKeyed(w, 0);
      SameIsCanonEqual(v, w);
      StrictDecodingIsCanonical(Encode(v).value);
      StrictDecodingIsCanonical(Encode(w).value);
    }
  }
}
