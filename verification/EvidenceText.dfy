/** The text of the equivocation ledger (client/src/evidence.rs): lines, trimming, the field finder, hex,
    and one entry rendered and read back. Text is handled as its UTF-8 octets. */
module EvidenceText {
  import opened Base

  const QUOTE: byte := '\"' as int
  const NEWLINE: byte := '\n' as int

  // ----- finding -----

  predicate MatchesAt(hay: Octets, needle: Octets, i: nat) {
    i + |needle| <= |hay| && hay[i..i + |needle|] == needle
  }

  /** Rust's `find` from a position on: the first place where the needle stands. */
  function FindFrom(hay: Octets, needle: Octets, i: nat): (r: Option<nat>)
    ensures match r
            case None => forall j {:trigger MatchesAt(hay, needle, j)} :: i <= j ==> !MatchesAt(hay, needle, j)
            case Some(k) => && i <= k && MatchesAt(hay, needle, k)
                            && forall j {:trigger MatchesAt(hay, needle, j)} ::
                              i <= j < k ==> !MatchesAt(hay, needle, j)
    decreases |hay| + 1 - i
  {
    if i > |hay| then None
    else if MatchesAt(hay, needle, i) then Some(i)
    else FindFrom(hay, needle, i + 1)
  }

  lemma {:induction false} FoundAt(hay: Octets, needle: Octets, i: nat, k: nat)
    requires i <= k && MatchesAt(hay, needle, k)
    requires forall j {:trigger MatchesAt(hay, needle, j)} :: i <= j < k ==> !MatchesAt(hay, needle, j)
    ensures FindFrom(hay, needle, i) == Some(k)
  {
  }

  lemma {:induction false} FindSkips(hay: Octets, needle: Octets, i: nat, k: nat)
    requires i <= k
    requires forall j {:trigger MatchesAt(hay, needle, j)} :: i <= j < k ==> !MatchesAt(hay, needle, j)
    ensures FindFrom(hay, needle, i) == FindFrom(hay, needle, k)
  {
    if FindFrom(hay, needle, k).Some? {
      FoundAt(hay, needle, i, FindFrom(hay, needle, k).value);
    }
  }

  /** More text after a match does not move it. */
  lemma {:induction false} FindInPrefix(hay: Octets, more: Octets, needle: Octets, i: nat)
    requires FindFrom(hay, needle, i).Some?
    ensures FindFrom(hay + more, needle, i) == FindFrom(hay, needle, i)
  {
    var k := FindFrom(hay, needle, i).value;
    forall j | 0 <= j <= k ensures MatchesAt(hay + more, needle, j) == MatchesAt(hay, needle, j) {
      assert (hay + more)[j..j + |needle|] == hay[j..j + |needle|];
    }
    FoundAt(hay + more, needle, i, k);
  }

  lemma {:induction false} OctetMatch(s: Octets, b: byte, j: nat)
    ensures MatchesAt(s, [b], j) <==> j < |s| && s[j] == b
  {
    assert j + 1 <= |s| ==> s[j..j + 1] == [s[j]];
  }

  // ----- one field -----

  function Needle(name: Octets): Octets {
    [QUOTE] + name + [QUOTE, ':' as int, ' ' as int, QUOTE]
  }

  function FieldFrom(line: Octets, name: Octets, i: nat): Option<Octets> {
    match FindFrom(line, Needle(name), i)
    case None => None
    case Some(k) =>
      var start := k + |Needle(name)|;
      match FindFrom(line, [QUOTE], start)
      case None => None
      case Some(end) => Some(line[start..end])
  }

  /** The value of one `"name": "value"` field, if the line has it. */
  function Field(line: Octets, name: Octets): Option<Octets> {
    FieldFrom(line, name, 0)
  }

  lemma {:induction false} FieldInPrefix(line: Octets, more: Octets, name: Octets)
    requires Field(line, name).Some?
    ensures Field(line + more, name) == Field(line, name)
  {
    hide FindFrom, Needle;
    var k := FindFrom(line, Needle(name), 0).value;
    var start := k + |Needle(name)|;
    FindInPrefix(line, more, Needle(name), 0);
    FindInPrefix(line, more, [QUOTE], start);
    var end := FindFrom(line, [QUOTE], start).value;
    assert (line + more)[start..end] == line[start..end];
  }

  predicate Plain(s: Octets, i: nat)
    requires i < |s|
  {
    s[i] != QUOTE && s[i] != NEWLINE
  }

  /** No quote and no newline. */
  predicate QuoteFree(s: Octets) {
    forall i {:trigger Plain(s, i)} :: 0 <= i < |s| ==> Plain(s, i)
  }

  /** A field name: not empty, no quote, and not starting like what stands between fields. */
  predicate GoodName(name: Octets) {
    |name| > 0 && QuoteFree(name) && name[0] != ':' as int && name[0] != ',' as int
  }

  function Pair(name: Octets, value: Octets): Octets {
    Needle(name) + value + [QUOTE]
  }

  lemma {:induction false} SliceOfSlice(s: Octets, from: nat, to: nat, i: nat, j: nat)
    requires from <= to <= |s| && i <= j <= to - from
    ensures s[from..to][i..j] == s[from + i..from + j]
  {
    forall k | 0 <= k < j - i ensures s[from..to][i..j][k] == s[from + i..from + j][k] {
    }
  }

  /** What a match of the needle puts at each place. */
  lemma {:induction false} NeedleParts(line: Octets, q: nat, name: Octets)
    ensures MatchesAt(line, Needle(name), q) ==>
              && q + 4 + |name| < |line| && line[q] == QUOTE && line[q + 1..q + 1 + |name|] == name
              && line[q + 1 + |name|] == QUOTE && line[q + 2 + |name|] == ':' as int
  {
    var needle := Needle(name);
    if MatchesAt(line, needle, q) {
      var part := line[q..q + |needle|];
      assert part[0] == QUOTE && part[1 + |name|] == QUOTE && part[2 + |name|] == ':' as int;
      assert part[1..1 + |name|] == needle[1..1 + |name|] == name;
      SliceOfSlice(line, q, q + |needle|, 1, 1 + |name|);
    }
  }

  /** Two quote-free strings that a quote ends at the same start are the same string. */
  lemma {:induction false} SameQuoted(line: Octets, start: nat, x: Octets, y: Octets)
    requires QuoteFree(x) && QuoteFree(y) && start + |x| < |line| && start + |y| < |line|
    requires line[start..start + |x|] == x && line[start + |x|] == QUOTE
    requires line[start..start + |y|] == y && line[start + |y|] == QUOTE
    ensures x == y
  {
    assert |x| < |y| ==> y[|x|] == line[start..start + |y|][|x|] && Plain(y, |x|);
    assert |y| < |x| ==> x[|y|] == line[start..start + |x|][|y|] && Plain(x, |y|);
  }

  /** A quoted string that is not `name` cannot start the needle: the needle's second quote would have to be
      its closing one, and then a colon would have to follow. */
  lemma {:induction false} QuotedNotName(line: Octets, q: nat, text: Octets, name: Octets)
    requires QuoteFree(text) && GoodName(name)
    requires q + 2 + |text| < |line| && line[q] == QUOTE && line[q + 1..q + 1 + |text|] == text
    requires line[q + 1 + |text|] == QUOTE
    requires text != name || line[q + 2 + |text|] != ':' as int
    ensures !MatchesAt(line, Needle(name), q)
  {
    hide Needle, MatchesAt;
    NeedleParts(line, q, name);
    if MatchesAt(line, Needle(name), q) {
      SameQuoted(line, q + 1, text, name);
    }
  }

  /** Only a quote starts the needle, and a letter of the name follows it. */
  lemma {:induction false} NotHere(line: Octets, j: nat, name: Octets)
    requires GoodName(name) && j + 1 < |line|
    requires line[j] != QUOTE || line[j + 1] != name[0]
    ensures !MatchesAt(line, Needle(name), j)
  {
    NeedleParts(line, j, name);
    assert j + 1 + |name| <= |line| ==> line[j + 1..j + 1 + |name|][0] == line[j + 1];
  }

  const BETWEEN: Octets := [',' as int, ' ' as int]

  /** The pieces of a pair, as positions in the line that holds it. */
  lemma {:induction false} PairParts(pre: Octets, n: Octets, value: Octets, post: Octets)
    ensures var line, p := pre + Pair(n, value) + post, |pre|;
            var v := p + 1 + |n| + 3;
            && line[p] == QUOTE && line[p + 1..p + 1 + |n|] == n && line[p + 1 + |n|] == QUOTE
            && line[p + 2 + |n|] == ':' as int && line[p + 3 + |n|] == ' ' as int && line[v] == QUOTE
            && line[v + 1..v + 1 + |value|] == value && line[v + 1 + |value|] == QUOTE
            && |line| == v + 2 + |value| + |post|
            && forall i :: 0 <= i < |post| ==> line[v + 2 + |value| + i] == post[i]
  {
  }

  /** No match starts inside a quote-free stretch. */
  lemma {:induction false} NotInside(line: Octets, start: nat, text: Octets, name: Octets)
    requires QuoteFree(text) && GoodName(name) && start + |text| < |line| && line[start..start + |text|] == text
    ensures forall j {:trigger MatchesAt(line, Needle(name), j)} :: start <= j < start + |text| ==>
              !MatchesAt(line, Needle(name), j)
  {
    forall j | start <= j < start + |text| ensures !MatchesAt(line, Needle(name), j) {
      assert line[j] == line[start..start + |text|][j - start] == text[j - start];
      assert Plain(text, j - start);
      NotHere(line, j, name);
    }
  }

  /** No match starts anywhere in another field or in the separator after it. */
  lemma {:induction false} NotInPair(line: Octets, p: nat, n: Octets, value: Octets, name: Octets)
    requires GoodName(n) && GoodName(name) && n != name && QuoteFree(value)
    requires p + |n| + |value| + 8 < |line|
    requires var v := p + 4 + |n|;
             && line[p] == QUOTE && line[p + 1..p + 1 + |n|] == n && line[p + 1 + |n|] == QUOTE
             && line[p + 2 + |n|] == ':' as int && line[p + 3 + |n|] == ' ' as int && line[v] == QUOTE
             && line[v + 1..v + 1 + |value|] == value && line[v + 1 + |value|] == QUOTE
             && line[v + 2 + |value|] == ',' as int && line[v + 3 + |value|] == ' ' as int
    ensures forall j {:trigger MatchesAt(line, Needle(name), j)} :: p <= j < p + |n| + |value| + 8 ==>
              !MatchesAt(line, Needle(name), j)
  {
    hide Needle, MatchesAt, QuoteFree;
    var v := p + 4 + |n|;
    QuotedNotName(line, p, n, name);
    NotInside(line, p + 1, n, name);
    NotHere(line, p + 1 + |n|, name);
    NotHere(line, p + 2 + |n|, name);
    NotHere(line, p + 3 + |n|, name);
    QuotedNotName(line, v, value, name);
    NotInside(line, v + 1, value, name);
    NotHere(line, v + 1 + |value|, name);
    NotHere(line, v + 2 + |value|, name);
    NotHere(line, v + 3 + |value|, name);
  }

  /** The field is not found in another field that is followed by the separator. */
  lemma {:induction false} SkipPair(pre: Octets, n: Octets, value: Octets, rest: Octets, name: Octets)
    requires GoodName(n) && GoodName(name) && n != name && QuoteFree(value) && |rest| > 0
    ensures FieldFrom(pre + Pair(n, value) + (BETWEEN + rest), name, |pre|)
         == FieldFrom(pre + Pair(n, value) + (BETWEEN + rest), name, |pre| + |Pair(n, value)| + 2)
  {
    hide Needle, Pair, MatchesAt, QuoteFree, FindFrom;
    var line := pre + Pair(n, value) + (BETWEEN + rest);
    PairParts(pre, n, value, BETWEEN + rest);
    PairLength(n, value);
    assert (BETWEEN + rest)[0] == ',' as int && (BETWEEN + rest)[1] == ' ' as int;
    NotInPair(line, |pre|, n, value, name);
    FindSkips(line, Needle(name), |pre|, |pre| + |n| + |value| + 8);
  }

  lemma {:induction false} PairLength(n: Octets, value: Octets)
    ensures |Pair(n, value)| == 1 + |n| + 3 + 1 + |value| + 1 && |Needle(n)| == 1 + |n| + 4
  {
  }

  /** The field is found where it stands. */
  lemma {:induction false} TakePair(pre: Octets, name: Octets, value: Octets, post: Octets)
    requires QuoteFree(value)
    ensures FieldFrom(pre + Pair(name, value) + post, name, |pre|) == Some(value)
  {
    var line := pre + Pair(name, value) + post;
    var p, needle := |pre|, Needle(name);
    assert line[p..p + |needle|] == needle;
    assert MatchesAt(line, needle, p);
    var start := p + |needle|;
    var end := start + |value|;
    assert line[start..end] == value;
    assert line[end] == QUOTE && line[end..end + 1] == [QUOTE];
    forall j | start <= j < end ensures !MatchesAt(line, [QUOTE], j) {
      assert line[j] == line[start..end][j - start] == value[j - start];
      assert Plain(value, j - start);
      OctetMatch(line, QUOTE, j);
    }
    FoundAt(line, needle, p, p);
    FoundAt(line, [QUOTE], start, end);
  }

  // ----- hex -----

  function HexDigit(n: nat): byte
    requires n < 16
  {
    if n < 10 then '0' as int + n else 'a' as int + (n - 10)
  }

  /** Rust's `to_digit(16)` on one character. */
  function DigitValue(c: byte): Option<nat> {
    if '0' as int <= c <= '9' as int then Some(c - '0' as int)
    else if 'a' as int <= c <= 'f' as int then Some(c - 'a' as int + 10)
    else if 'A' as int <= c <= 'F' as int then Some(c - 'A' as int + 10)
    else None
  }

  function Hex(bytes: Octets): Octets
  {
    if |bytes| == 0 then []
    else Hex(bytes[..|bytes| - 1]) + [HexDigit(bytes[|bytes| - 1] / 16), HexDigit(bytes[|bytes| - 1] % 16)]
  }

  /** Two lower-case digits for every octet, the high half first. */
  lemma {:induction false} HexOctets(bytes: Octets, i: nat)
    requires i < |bytes|
    ensures |Hex(bytes)| == 2 * |bytes|
    ensures var high, low := bytes[i] / 16, bytes[i] % 16;
            && Hex(bytes)[2 * i] == (if high < 10 then 0x30 + high else 0x61 + high - 10)
            && Hex(bytes)[2 * i + 1] == (if low < 10 then 0x30 + low else 0x61 + low - 10)
  {
    var front := bytes[..|bytes| - 1];
    if i < |front| {
      HexOctets(front, i);
    } else if i > 0 {
      HexOctets(front, i - 1);
    }
  }

  /** Pairs of digits, an even number of them. A character that is no hex digit is refused wherever it
      stands, so a text of several-octet characters never leaves an unpaired one behind. */
  function Unhex(text: Octets): Option<Octets>
  {
    if |text| == 0 then Some([])
    else if |text| == 1 then None
    else
      match Unhex(text[..|text| - 2])
      case None => None
      case Some(front) =>
        match (DigitValue(text[|text| - 2]), DigitValue(text[|text| - 1]))
        case (Some(high), Some(low)) =>
          DigitsFit(text[|text| - 2]);
          DigitsFit(text[|text| - 1]);
          Some(front + [16 * high + low])
        case _ => None
  }

  lemma {:induction false} DigitsFit(c: byte)
    ensures DigitValue(c).Some? ==> DigitValue(c).value < 16
  {
  }

  lemma {:induction false} DigitBack(n: nat)
    requires n < 16
    ensures DigitValue(HexDigit(n)) == Some(n)
    ensures HexDigit(n) != QUOTE && HexDigit(n) != NEWLINE
  {
  }

  lemma {:induction false} UnhexHex(bytes: Octets)
    ensures Unhex(Hex(bytes)) == Some(bytes) && QuoteFree(Hex(bytes))
  {
    if |bytes| > 0 {
      hide Hex, Unhex, HexDigit, DigitValue, QuoteFree;
      var front, last := bytes[..|bytes| - 1], bytes[|bytes| - 1];
      UnhexHex(front);
      HexStep(front, last);
      assert bytes == front + [last];
    }
  }

  lemma {:induction false} HexStep(front: Octets, last: byte)
    requires Unhex(Hex(front)) == Some(front) && QuoteFree(Hex(front))
    ensures Unhex(Hex(front + [last])) == Some(front + [last]) && QuoteFree(Hex(front + [last]))
  {
    var bytes := front + [last];
    assert bytes[..|bytes| - 1] == front;
    var text := Hex(bytes);
    assert text[..|text| - 2] == Hex(front);
    DigitBack(last / 16);
    DigitBack(last % 16);
    hide HexDigit, DigitValue;
    forall i | 0 <= i < |text| ensures Plain(text, i) {
      if i < |Hex(front)| {
        assert Plain(Hex(front), i);
      }
    }
  }

  // ----- lines and white space -----

  /** How many octets of white space the text starts with, at most one character. */
  function WhiteStart(s: Octets): (n: nat)
    ensures n <= |s|
  {
    if |s| >= 1 && (0x09 <= s[0] <= 0x0d || s[0] == 0x20) then 1
    else if |s| >= 2 && s[0] == 0xc2 && (s[1] == 0x85 || s[1] == 0xa0) then 2
    else if |s| >= 3 && WideWhite(s[0], s[1], s[2]) then 3
    else 0
  }

  function WhiteEnd(s: Octets): (n: nat)
    ensures n <= |s|
  {
    var k := |s|;
    if k >= 1 && (0x09 <= s[k - 1] <= 0x0d || s[k - 1] == 0x20) then 1
    else if k >= 2 && s[k - 2] == 0xc2 && (s[k - 1] == 0x85 || s[k - 1] == 0xa0) then 2
    else if k >= 3 && WideWhite(s[k - 3], s[k - 2], s[k - 1]) then 3
    else 0
  }

  /** The three-octet characters of Unicode's White_Space. */
  predicate WideWhite(x: byte, y: byte, z: byte) {
    || (x == 0xe1 && y == 0x9a && z == 0x80)
    || (x == 0xe2 && y == 0x80 && (0x80 <= z <= 0x8a || z == 0xa8 || z == 0xa9 || z == 0xaf))
    || (x == 0xe2 && y == 0x81 && z == 0x9f)
    || (x == 0xe3 && y == 0x80 && z == 0x80)
  }

  function TrimStart(s: Octets): (r: Octets)
    ensures |r| <= |s|
    decreases |s|
  {
    if WhiteStart(s) == 0 then s else TrimStart(s[WhiteStart(s)..])
  }

  function TrimEnd(s: Octets): (r: Octets)
    ensures r <= s
    decreases |s|
  {
    if WhiteEnd(s) == 0 then s else TrimEnd(s[..|s| - WhiteEnd(s)])
  }

  function Trim(s: Octets): Octets {
    TrimEnd(TrimStart(s))
  }

  /** Nothing but white space. */
  predicate Blank(s: Octets) {
    Trim(s) == []
  }

  /** What stands between newlines; a last newline leaves an empty piece behind it. */
  function Lines(text: Octets): (r: seq<Octets>)
    ensures |r| > 0
    decreases |text|
  {
    match FindFrom(text, [NEWLINE], 0)
    case None => [text]
    case Some(k) => [text[..k]] + Lines(text[k + 1..])
  }

  // ----- lines joined and appended -----

  ghost predicate NewlineFree(s: Octets) {
    forall i {:trigger MatchesAt(s, [NEWLINE], i)} :: 0 <= i ==> !MatchesAt(s, [NEWLINE], i)
  }

  lemma {:induction false} NewlineFreeIs(s: Octets)
    requires forall i :: 0 <= i < |s| ==> s[i] != NEWLINE
    ensures NewlineFree(s)
  {
    forall i | 0 <= i ensures !MatchesAt(s, [NEWLINE], i) {
      OctetMatch(s, NEWLINE, i);
    }
  }

  lemma {:induction false} OneLine(s: Octets)
    requires NewlineFree(s)
    ensures Lines(s) == [s]
  {
  }

  /** The pieces before the last newline, and what stands after it. */
  function Front(text: Octets): seq<Octets> {
    Lines(text)[..|Lines(text)| - 1]
  }

  function Tail(text: Octets): Octets {
    Lines(text)[|Lines(text)| - 1]
  }

  lemma {:induction false} FirstLine(text: Octets, more: Octets)
    requires FindFrom(text, [NEWLINE], 0).Some?
    ensures Lines(text + more) == [text[..FindFrom(text, [NEWLINE], 0).value]]
                                + Lines(text[FindFrom(text, [NEWLINE], 0).value + 1..] + more)
  {
    hide FindFrom;
    var k := FindFrom(text, [NEWLINE], 0).value;
    FindInPrefix(text, more, [NEWLINE], 0);
    assert (text + more)[..k] == text[..k] && (text + more)[k + 1..] == text[k + 1..] + more;
  }

  /** A line written at the end of a text joins what stood after the last newline. */
  lemma {:induction false} LinesAppend(text: Octets, line: Octets)
    requires NewlineFree(line)
    ensures Lines(text + (line + [NEWLINE])) == Front(text) + [Tail(text) + line, []]
    decreases |text|
  {
    var more := line + [NEWLINE];
    match FindFrom(text, [NEWLINE], 0)
    case Some(k) =>
      var rest := text[k + 1..];
      FirstLine(text, more);
      LinesAppend(rest, line);
      assert Lines(text) == [text[..k]] + Lines(rest);
      assert Front(text) == [text[..k]] + Front(rest);
      assert Tail(text) == Tail(rest);
    case None =>
      LastLine(text, line);
      assert Front(text) == [] && Tail(text) == text;
  }

  lemma {:induction false} LastLine(text: Octets, line: Octets)
    requires NewlineFree(line) && FindFrom(text, [NEWLINE], 0).None?
    ensures Lines(text + (line + [NEWLINE])) == [text + line, []]
  {
    hide FindFrom, Lines;
    var all := text + (line + [NEWLINE]);
    var n := |text + line|;
    assert all == (text + line) + [NEWLINE] && all[n..n + 1] == [NEWLINE];
    forall j | 0 <= j < n ensures !MatchesAt(all, [NEWLINE], j) {
      if j < |text| {
        assert MatchesAt(all, [NEWLINE], j) ==> MatchesAt(text, [NEWLINE], j) by {
          assert all[j..j + 1] == text[j..j + 1];
        }
      } else {
        assert MatchesAt(all, [NEWLINE], j) ==> MatchesAt(line, [NEWLINE], j - |text|) by {
          assert all[j..j + 1] == line[j - |text|..j - |text| + 1];
        }
      }
    }
    FoundAt(all, [NEWLINE], 0, n);
    assert all[..n] == text + line && all[n + 1..] == [];
    EndsThere(all, n);
  }

  lemma {:induction false} EndsThere(text: Octets, n: nat)
    requires FindFrom(text, [NEWLINE], 0) == Some(n) && n + 1 == |text|
    ensures Lines(text) == [text[..n], []]
  {
    assert text[n + 1..] == [];
    NewlineFreeIs([]);
    OneLine([]);
  }

  // ----- trimming -----

  /** Trimming a text that starts and ends with printable ASCII changes nothing. */
  lemma {:induction false} TrimNothing(s: Octets)
    requires |s| > 0 && WhiteStart(s) == 0 && WhiteEnd(s) == 0
    ensures Trim(s) == s
  {
  }

  predicate Printable(b: byte) {
    0x21 <= b < 0x7f
  }

  lemma {:induction false} PrintableEnds(s: Octets)
    requires |s| > 0
    ensures Printable(s[0]) ==> WhiteStart(s) == 0
    ensures Printable(s[|s| - 1]) ==> WhiteEnd(s) == 0
  {
  }

  /** White space before a line does not reach what is read, and a line after text keeps its start. */
  lemma {:induction false} TrimJoined(tail: Octets, line: Octets)
    requires |line| > 0 && Printable(line[0]) && Printable(line[|line| - 1])
    ensures Trim(tail + line) == TrimStart(tail) + line
    decreases |tail|
  {
    if WhiteStart(tail) == 0 {
      WhiteStartJoined(tail, line);
      PrintableEnds(tail + line);
      PrintableEnds(line);
    } else {
      var n := WhiteStart(tail);
      WhiteStartJoined(tail, line);
      assert (tail + line)[n..] == tail[n..] + line;
      TrimJoined(tail[n..], line);
    }
  }

  lemma {:induction false} WhiteStartJoined(tail: Octets, line: Octets)
    requires |line| > 0 && Printable(line[0])
    ensures WhiteStart(tail + line) == WhiteStart(tail)
  {
    if tail == [] {
      PrintableEnds(line);
      assert tail + line == line;
    }
  }
}
