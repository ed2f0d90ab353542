/** Well-formed UTF-8, as RFC 3629 section 4 tabulates it: the octets a Rust `str` may hold. */
module Utf8 {
  import opened Base

  predicate Continuation(b: byte) {
    0x80 <= b < 0xc0
  }

  /** How many octets a character with this first octet takes, 0 when none starts with it. */
  function LeadLength(b: byte): nat {
    if b < 0x80 then 1
    else if 0xc2 <= b < 0xe0 then 2
    else if 0xe0 <= b < 0xf0 then 3
    else if 0xf0 <= b < 0xf5 then 4
    else 0
  }

  /** The second octet excludes overlong forms, surrogates and values beyond U+10FFFF. */
  predicate SecondAllowed(lead: byte, second: byte) {
    && (lead == 0xe0 ==> 0xa0 <= second)
    && (lead == 0xed ==> second < 0xa0)
    && (lead == 0xf0 ==> 0x90 <= second)
    && (lead == 0xf4 ==> second < 0x90)
  }

  /** A complete character starts here. */
  predicate CharacterAt(b: Octets, i: nat)
    requires i < |b|
  {
    var n := LeadLength(b[i]);
    && 1 <= n && i + n <= |b|
    && (n >= 2 ==> Continuation(b[i + 1]) && SecondAllowed(b[i], b[i + 1]))
    && (n >= 3 ==> Continuation(b[i + 2]))
    && (n >= 4 ==> Continuation(b[i + 3]))
  }

  /** A character that started earlier reaches this continuation octet. */
  predicate CoveredAt(b: Octets, i: nat)
    requires i < |b|
  {
    || (i >= 1 && LeadLength(b[i - 1]) >= 2)
    || (i >= 2 && Continuation(b[i - 1]) && LeadLength(b[i - 2]) >= 3)
    || (i >= 3 && Continuation(b[i - 1]) && Continuation(b[i - 2]) && LeadLength(b[i - 3]) >= 4)
  }

  predicate WellFormedAt(b: Octets, i: nat)
    requires i < |b|
  {
    if Continuation(b[i]) then CoveredAt(b, i) else CharacterAt(b, i)
  }

  /** Every octet starts a complete character or belongs to one. */
  predicate ValidUtf8(b: Octets)
  {
    forall i {:trigger WellFormedAt(b, i)} :: 0 <= i < |b| ==> WellFormedAt(b, i)
  }

  /** Text: the octets of a Rust `String`. */
  type Str = b: Octets | ValidUtf8(b)

  /** The number of characters, Rust's `chars().count()`. */
  function CharCount(b: Octets): nat
  {
    if |b| == 0 then 0
    else CharCount(b[..|b| - 1]) + if Continuation(b[|b| - 1]) then 0 else 1
  }

  lemma {:induction false} AsciiValid(b: Octets)
    requires forall i :: 0 <= i < |b| ==> b[i] < 0x80
    ensures ValidUtf8(b)
  {
  }

  /** An ASCII literal as text. */
  function Lit(s: string): (r: Str)
    requires forall i :: 0 <= i < |s| ==> s[i] < 128 as char
    ensures |r| == |s|
    ensures forall i :: 0 <= i < |s| ==> r[i] == s[i] as int
  {
    AsciiValid(Ascii(s));
    Ascii(s)
  }

  /** Text can be cut at any ASCII character: no multi-byte character straddles one. */
  lemma {:induction false} CutAtAscii(a: Octets, c: byte, b: Octets)
    requires c < 0x80 && ValidUtf8(a + [c] + b)
    ensures ValidUtf8(a) && ValidUtf8(b)
  {
    var s := a + [c] + b;
    assert s[|a|] == c;
    forall i | 0 <= i < |a| ensures WellFormedAt(a, i) {
      assert WellFormedAt(s, i);
      assert forall k :: 0 <= k < |a| ==> s[k] == a[k];
    }
    forall i | 0 <= i < |b| ensures WellFormedAt(b, i) {
      assert WellFormedAt(s, |a| + 1 + i);
      assert forall k :: 0 <= k < |b| ==> s[|a| + 1 + k] == b[k];
      assert i >= 1 ==> s[|a| + i] == b[i - 1];
      assert i >= 2 ==> s[|a| + i - 1] == b[i - 2];
      assert i >= 3 ==> s[|a| + i - 2] == b[i - 3];
      assert i + 1 < |b| ==> s[|a| + i + 2] == b[i + 1];
      assert i + 2 < |b| ==> s[|a| + i + 3] == b[i + 2];
      assert i + 3 < |b| ==> s[|a| + i + 4] == b[i + 3];
    }
  }

  lemma {:induction false} ConcatValid(a: Octets, b: Octets)
    requires ValidUtf8(a) && ValidUtf8(b)
    ensures ValidUtf8(a + b)
  {
    var s := a + b;
    forall i | 0 <= i < |s| ensures WellFormedAt(s, i) {
      if i < |a| {
        assert WellFormedAt(a, i);
      } else {
        assert WellFormedAt(b, i - |a|);
      }
    }
  }
}
