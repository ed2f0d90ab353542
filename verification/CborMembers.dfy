/** Maps whose keys are field names: looking a field up, and what survives encode and decode. */
module CborMembers {
  import opened Base
  import opened Ordering
  import opened Utf8
  import opened Cbor
  import opened CborCanonical
  import opened CborComplete
  import opened CborEquality

  type Fields = map<Str, Value>

  /** What looking fields up by name finds: for every text key, the value of its first entry. */
  function FieldMap(entries: seq<Entry>): Fields
  {
    if |entries| == 0 then map[]
    else if entries[0].key.TextKey? then FieldMap(entries[1..])[entries[0].key.text := entries[0].value]
    else FieldMap(entries[1..])
  }

  lemma {:induction false} FieldMapFound(entries: seq<Entry>, name: Str)
    ensures name in FieldMap(entries) ==> Entry(TextKey(name), FieldMap(entries)[name]) in entries
    ensures name !in FieldMap(entries) ==> forall e :: e in entries ==> e.key != TextKey(name)
  {
    if |entries| > 0 {
      FieldMapFound(entries[1..], name);
    }
  }

  lemma {:induction false} FieldMapIs(entries: seq<Entry>, e: Entry)
    requires Distinct(EntryKey, entries) && e in entries && e.key.TextKey?
    ensures e.key.text in FieldMap(entries) && FieldMap(entries)[e.key.text] == e.value
  {
    FieldMapFound(entries, e.key.text);
    var found := Entry(e.key, FieldMap(entries)[e.key.text]);
    var i :| 0 <= i < |entries| && entries[i] == e;
    var j :| 0 <= j < |entries| && entries[j] == found;
    assert EntryKey(entries[i]) == EntryKey(entries[j]);
    assert i == j;
  }

  function CanonFields(fields: Fields): Fields {
    map name | name in fields :: Canon(fields[name])
  }

  /** With distinct keys a field is found whatever the order, so sorting hides nothing. */
  lemma {:induction false} FieldMapCanon(entries: seq<Entry>)
    requires Distinct(EntryKey, entries)
    ensures FieldMap(Sorted(entries)) == CanonFields(FieldMap(entries))
  {
    CanonDistinct(entries);
    SortPermutes(EntryKey, CanonEntries(entries));
    DistinctPermuted(EntryKey, CanonEntries(entries), Sorted(entries));
    forall name
      ensures name in FieldMap(Sorted(entries)) <==> name in FieldMap(entries)
      ensures name in FieldMap(entries) ==> FieldMap(Sorted(entries))[name] == Canon(FieldMap(entries)[name])
    {
      FieldCanon(entries, name);
    }
  }

  lemma {:induction false} FieldCanon(entries: seq<Entry>, name: Str)
    requires Distinct(EntryKey, entries) && Distinct(EntryKey, Sorted(entries))
    ensures name in FieldMap(Sorted(entries)) <==> name in FieldMap(entries)
    ensures name in FieldMap(entries) ==> FieldMap(Sorted(entries))[name] == Canon(FieldMap(entries)[name])
  {
    FieldMapFound(entries, name);
    FieldMapFound(Sorted(entries), name);
    if name in FieldMap(entries) {
      var e := Entry(TextKey(name), FieldMap(entries)[name]);
      var i :| 0 <= i < |entries| && entries[i] == e;
      assert CanonEntries(entries)[i] == CanonEntry(e);
      SortMembers(EntryKey, CanonEntries(entries), CanonEntry(e));
      FieldMapIs(Sorted(entries), CanonEntry(e));
    } else {
      forall e | e in Sorted(entries) ensures e.key != TextKey(name) {
        SortMembers(EntryKey, CanonEntries(entries), e);
        var i :| 0 <= i < |entries| && CanonEntries(entries)[i] == e;
        assert entries[i] in entries;
      }
    }
  }

  /** The canonical entries of a map that encodes. */
  function Sorted(entries: seq<Entry>): seq<Entry> {
    Sort(EntryKey, CanonEntries(entries))
  }

  /** What decoding the encoding of a map gives back, field by field. */
  lemma {:induction false} DecodedFields(entries: seq<Entry>)
    requires Encode(Map(entries)).Ok?
    ensures Decode(Encode(Map(entries)).value) == Ok(Map(Sorted(entries)))
    ensures Distinct(EntryKey, entries)
    ensures FieldMap(Sorted(entries)) == CanonFields(FieldMap(entries))
  {
    EncodingIsComplete(Map(entries), []);
    EncodesWellKeyed(Map(entries), 0);
    FieldMapCanon(entries);
  }

  /** The canonical form encodes to the same octets. */
  lemma {:induction false} CanonEncodesAlike(v: Value)
    requires Encode(v).Ok?
    ensures Encode(Canon(v)) == Encode(v)
  {
    EncodingIsComplete(v, []);
    StrictDecodingIsCanonical(Encode(v).value);
  }

  /** The order in which a map lists its entries does not reach the wire. */
  lemma {:induction false} EncodeOrderIndependent(xs: seq<Entry>, ys: seq<Entry>)
    requires Encode(Map(xs)).Ok? && |xs| == |ys| && Distinct(EntryKey, ys)
    requires forall e :: e in xs <==> e in ys
    ensures Encode(Map(ys)) == Encode(Map(xs))
  {
    EncodesWellKeyed(Map(xs), 0);
    SortOrderIndependent(EntryKey, xs, ys);
    assert EncodeAt(Map(xs), 0) == EncodeMap(xs, 0);
    EncodeKeysEach(xs, 1);
    EncodeKeysEach(ys, 1);
    assert EncodeMap(ys, 0) == EncodeMap(xs, 0);
  }

  /** Short text keys have one-octet heads, so different names have different encodings. */
  lemma {:induction false} ShortNames(a: Str, b: Str)
    requires |a| < 24 && |b| < 24 && a != b
    ensures KeyBytes(TextKey(a)) != KeyBytes(TextKey(b))
  {
    assert KeyBytes(TextKey(a))[1..] == a;
    assert KeyBytes(TextKey(b))[1..] == b;
  }

  /** A short ASCII field name. */
  type Name = s: string | |s| < 24 && forall i :: 0 <= i < |s| ==> s[i] < 128 as char

  lemma {:induction false} LitInjective(s: Name, t: Name)
    ensures Lit(s) == Lit(t) ==> s == t
  {
    if Lit(s) == Lit(t) {
      assert forall i :: 0 <= i < |s| ==> s[i] as int == Lit(s)[i] == t[i] as int;
    }
  }

  /** A map entry under a field name. */
  function Member(name: Name, value: Value): Entry {
    Entry(TextKey(Lit(name)), value)
  }

  function Get(fields: Fields, name: Name): Option<Value> {
    if Lit(name) in fields then Some(fields[Lit(name)]) else None
  }

  /** Pairwise different names. */
  ghost predicate Different(names: seq<Name>) {
    forall i, j :: 0 <= i < j < |names| ==> names[i] != names[j]
  }

  /** The map that carries these values under these names, in this order. */
  function Members(names: seq<Name>, values: seq<Value>): (r: seq<Entry>)
    requires |names| == |values|
    ensures |r| == |names| && forall i :: 0 <= i < |names| ==> r[i] == Member(names[i], values[i])
  {
    seq(|names|, i requires 0 <= i < |names| => Member(names[i], values[i]))
  }

  lemma {:induction false} MembersDistinct(names: seq<Name>, values: seq<Value>)
    requires |names| == |values| && Different(names)
    ensures Distinct(EntryKey, Members(names, values))
  {
    var entries := Members(names, values);
    forall i, j | 0 <= i < j < |entries| ensures EntryKey(entries[i]) != EntryKey(entries[j]) {
      LitInjective(names[i], names[j]);
      ShortNames(Lit(names[i]), Lit(names[j]));
    }
  }

  /** The fields hold exactly these values under exactly these names. */
  ghost predicate Carries(fields: Fields, names: seq<Name>, values: seq<Value>)
    requires |names| == |values|
  {
    forall i :: 0 <= i < |names| ==> Get(fields, names[i]) == Some(values[i])
  }

  /** Every name finds its own value, and no other name finds anything. */
  lemma {:induction false} MembersFields(names: seq<Name>, values: seq<Value>)
    requires |names| == |values| && Different(names)
    ensures Carries(FieldMap(Members(names, values)), names, values)
    ensures forall name: Name :: name !in names ==> Get(FieldMap(Members(names, values)), name) == None
  {
    var entries := Members(names, values);
    MembersDistinct(names, values);
    forall i | 0 <= i < |names| ensures Get(FieldMap(entries), names[i]) == Some(values[i]) {
      assert entries[i] in entries;
      FieldMapIs(entries, entries[i]);
    }
    forall name: Name | name !in names ensures Get(FieldMap(entries), name) == None {
      FieldMapFound(entries, Lit(name));
      forall e | e in entries ensures e.key != TextKey(Lit(name)) {
        var i :| 0 <= i < |entries| && entries[i] == e;
        LitInjective(names[i], name);
      }
    }
  }

  function CanonAll(values: seq<Value>): (r: seq<Value>)
    ensures |r| == |values| && forall i :: 0 <= i < |values| ==> r[i] == Canon(values[i])
  {
    CanonItems(values)
  }

  /** What decoding the encoding of named members gives back, name by name. */
  lemma {:induction false} MembersDecode(names: seq<Name>, values: seq<Value>)
    requires |names| == |values| && Different(names)
    requires Encode(Map(Members(names, values))).Ok?
    ensures var decoded := Decode(Encode(Map(Members(names, values))).value);
            && decoded.Ok? && decoded.value.Map?
            && Carries(FieldMap(decoded.value.entries), names, CanonAll(values))
            && (forall name: Name :: name !in names ==> Get(FieldMap(decoded.value.entries), name) == None)
  {
    var entries := Members(names, values);
    DecodedFields(entries);
    MembersFields(names, values);
    var fields := FieldMap(Sorted(entries));
    forall i | 0 <= i < |names| ensures Get(fields, names[i]) == Some(CanonAll(values)[i]) {
      assert Get(FieldMap(entries), names[i]) == Some(values[i]);
    }
    forall name: Name | name !in names ensures Get(fields, name) == None {
      assert Get(FieldMap(entries), name) == None;
    }
  }

  // ----- lists of byte strings, the only arrays the messages carry -----

  function ByteStrings(list: seq<Octets>): (r: seq<Value>)
    ensures |r| == |list| && forall i :: 0 <= i < |list| ==> r[i] == Bytes(list[i])
  {
    seq(|list|, i requires 0 <= i < |list| => Bytes(list[i]))
  }

  /** Nothing to sort: no map, and in an array only byte strings. */
  predicate Flat(v: Value) {
    !v.Map? && (v.Array? ==> forall i :: 0 <= i < |v.items| ==> v.items[i].Bytes?)
  }

  lemma {:induction false} FlatCanonical(values: seq<Value>)
    requires forall i :: 0 <= i < |values| ==> Flat(values[i])
    ensures CanonAll(values) == values
  {
    forall i | 0 <= i < |values| ensures Canon(values[i]) == values[i] {
      if values[i].Array? {
        assert CanonItems(values[i].items) == values[i].items;
      }
    }
  }

  // ----- what octets hold, field by field -----

  /** The octets are a map of exactly these fields. */
  ghost predicate HoldsExactly(bytes: Octets, fields: seq<(Name, Value)>) {
    match Decode(bytes)
    case Ok(Map(entries)) =>
      && |entries| == |fields|
      && forall i :: 0 <= i < |fields| ==> Get(FieldMap(entries), fields[i].0) == Some(fields[i].1)
    case _ => false
  }

  /** Named members are held as they were given, up to the order of maps inside them. */
  lemma {:induction false} MembersHeld(names: seq<Name>, values: seq<Value>, fields: seq<(Name, Value)>)
    requires |names| == |values| == |fields| && Different(names)
    requires forall i :: 0 <= i < |names| ==> fields[i].0 == names[i] && fields[i].1 == Canon(values[i])
    requires Encode(Map(Members(names, values))).Ok?
    ensures HoldsExactly(Encode(Map(Members(names, values))).value, fields)
  {
    hide Encode, Decode, Canon, FieldMap, Sort;
    MembersDecode(names, values);
    DecodedFields(Members(names, values));
  }
}
