/** What UTF-8 text is: the encodings of Unicode scalar values, one after the other (RFC 3629, section 3). */
module Utf8Scalars {
  import opened Base
  import opened Utf8

  /** Every code point but the surrogates. */
  type scalar = c: int | 0 <= c < 0xd800 || 0xe000 <= c < 0x11_0000

  function Encoded(c: scalar): Octets {
    if c < 0x80 then [c]
    else if c < 0x800 then [0xc0 + c / 0x40, 0x80 + c % 0x40]
    else if c < 0x1_0000 then [0xe0 + c / 0x1000, 0x80 + c / 0x40 % 0x40, 0x80 + c % 0x40]
    else [0xf0 + c / 0x4_0000, 0x80 + c / 0x1000 % 0x40, 0x80 + c / 0x40 % 0x40, 0x80 + c % 0x40]
  }

  function EncodedAll(text: seq<scalar>): Octets {
    if |text| == 0 then [] else Encoded(text[0]) + EncodedAll(text[1..])
  }

  lemma {:induction false} EncodedValid(c: scalar)
    ensures ValidUtf8(Encoded(c)) && CharCount(Encoded(c)) == 1
  {
    var b := Encoded(c);
    forall i | 0 <= i < |b| ensures WellFormedAt(b, i) {
    }
    if |b| > 1 {
      assert b[..|b| - 1][..|b| - 2] == b[..|b| - 2];
    }
    if |b| > 2 {
      assert b[..|b| - 2][..|b| - 3] == b[..|b| - 3];
    }
    LeadCounts(b);
  }

  lemma {:induction false} LeadCounts(b: Octets)
    requires 1 <= |b| <= 4 && !Continuation(b[0]) && forall i :: 1 <= i < |b| ==> Continuation(b[i])
    ensures CharCount(b) == 1
  {
    if |b| > 1 {
      LeadCounts(b[..|b| - 1]);
    }
  }

  lemma {:induction false} CountSum(a: Octets, b: Octets)
    ensures CharCount(a + b) == CharCount(a) + CharCount(b)
  {
    if |b| == 0 {
      assert a + b == a;
    } else {
      CountSum(a, b[..|b| - 1]);
      assert (a + b)[..|a + b| - 1] == a + b[..|b| - 1];
    }
  }

  lemma {:induction false} AllValid(text: seq<scalar>)
    ensures ValidUtf8(EncodedAll(text)) && CharCount(EncodedAll(text)) == |text|
  {
    hide ValidUtf8, CharCount, Encoded;
    if |text| == 0 {
      Nothing();
    } else {
      EncodedValid(text[0]);
      AllValid(text[1..]);
      ConcatValid(Encoded(text[0]), EncodedAll(text[1..]));
      CountSum(Encoded(text[0]), EncodedAll(text[1..]));
    }
  }

  lemma {:induction false} Nothing()
    ensures ValidUtf8([]) && CharCount([]) == 0
  {
  }

  /** Six bits at a time: what the quotients and remainders of a code point give back. */
  lemma {:induction false} Sixes(high: nat, z: nat)
    requires z < 0x40
    ensures (high * 0x40 + z) / 0x40 == high && (high * 0x40 + z) % 0x40 == z
  {
  }

  lemma {:induction false} Sixteens(n: nat)
    ensures n / 0x1000 == n / 0x40 / 0x40 && n / 0x4_0000 == n / 0x1000 / 0x40
  {
  }

  /** The character that text starts with. */
  lemma {:induction false} First(b: Octets) returns (c: scalar)
    requires |b| > 0 && CharacterAt(b, 0)
    ensures |Encoded(c)| <= |b| && b[..|Encoded(c)|] == Encoded(c)
  {
    var n := LeadLength(b[0]);
    var x: int := b[0];
    if n == 1 {
      c := x;
    } else if n == 2 {
      Sixes(x - 0xc0, b[1] - 0x80);
      c := (x - 0xc0) * 0x40 + (b[1] - 0x80);
    } else if n == 3 {
      var high: nat := (x - 0xe0) * 0x40 + (b[1] - 0x80);
      Sixes(x - 0xe0, b[1] - 0x80);
      Sixes(high, b[2] - 0x80);
      Sixteens(high * 0x40 + (b[2] - 0x80));
      c := high * 0x40 + (b[2] - 0x80);
    } else {
      c := Four(x, b[1], b[2], b[3]);
    }
  }

  lemma {:induction false} Four(x: int, y: byte, z: byte, w: byte) returns (c: scalar)
    requires 0xf0 <= x < 0xf5 && Continuation(y) && Continuation(z) && Continuation(w)
    requires (x == 0xf0 ==> 0x90 <= y) && (x == 0xf4 ==> y < 0x90)
    ensures Encoded(c) == [x, y, z, w]
  {
    var top: nat := (x - 0xf0) * 0x40 + (y - 0x80);
    var high: nat := top * 0x40 + (z - 0x80);
    Sixes(x - 0xf0, y - 0x80);
    Sixes(top, z - 0x80);
    Sixes(high, w - 0x80);
    Sixteens(high * 0x40 + (w - 0x80));
    c := high * 0x40 + (w - 0x80);
  }

  /** What follows the first character of text is text. */
  lemma {:induction false} RestValid(b: Octets, n: nat)
    requires |b| > 0 && ValidUtf8(b) && CharacterAt(b, 0) && n == LeadLength(b[0])
    ensures n <= |b| && ValidUtf8(b[n..])
  {
    var rest := b[n..];
    forall i | 0 <= i < |rest| ensures WellFormedAt(rest, i) {
      assert WellFormedAt(b, n + i);
      assert rest[i] == b[n + i];
      assert i >= 1 ==> rest[i - 1] == b[n + i - 1];
      assert i >= 2 ==> rest[i - 2] == b[n + i - 2];
      assert i >= 3 ==> rest[i - 3] == b[n + i - 3];
      assert i + 1 < |rest| ==> rest[i + 1] == b[n + i + 1];
      assert i + 2 < |rest| ==> rest[i + 2] == b[n + i + 2];
      assert i + 3 < |rest| ==> rest[i + 3] == b[n + i + 3];
    }
  }

  lemma {:induction false} Decoded(b: Octets) returns (text: seq<scalar>)
    requires ValidUtf8(b)
    ensures EncodedAll(text) == b
    decreases |b|
  {
    if |b| == 0 {
      text := [];
    } else {
      assert WellFormedAt(b, 0);
      var c := First(b);
      var n := |Encoded(c)|;
      RestValid(b, LeadLength(b[0]));
      LeadOf(c);
      assert Encoded(c)[0] == b[..n][0] == b[0];
      hide ValidUtf8, WellFormedAt, CharacterAt, Encoded;
      var rest := Decoded(b[n..]);
      text := [c] + rest;
      assert text[1..] == rest;
      assert b[..n] + b[n..] == b;
    }
  }

  lemma {:induction false} LeadOf(c: scalar)
    ensures LeadLength(Encoded(c)[0]) == |Encoded(c)|
  {
  }

  /** Octets are text exactly when they are the encoding of a list of scalar values, and the text has as many
      characters as the list. */
  lemma {:induction false} TextIff(b: Octets)
    ensures ValidUtf8(b) <==> exists text :: EncodedAll(text) == b
    ensures forall text :: EncodedAll(text) == b ==> CharCount(b) == |text|
  {
    hide ValidUtf8, CharCount, EncodedAll;
    forall text | EncodedAll(text) == b ensures ValidUtf8(b) && CharCount(b) == |text| {
      AllValid(text);
    }
    if ValidUtf8(b) {
      var text := Decoded(b);
    }
  }
}
