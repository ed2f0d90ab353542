/** What the ledger reads from a file that anybody may have written (client/src/evidence.rs): hex, fields, entries,
    white space and lines, and opening as a run of the reports that the file spells. */
module EvidenceReaders {
  import opened Base
  import opened Utf8
  import opened EvidenceText
  import opened Evidence
  import opened EvidenceRuns

  // ----- hex -----

  /** The value of a hex digit, of either case. */
  function HexValue(c: byte): Option<nat> {
    if 0x30 <= c <= 0x39 then Some(c - 0x30)
    else if 0x41 <= c <= 0x46 then Some(c - 0x41 + 10)
    else if 0x61 <= c <= 0x66 then Some(c - 0x61 + 10)
    else None
  }

  /** Two digits for every octet, the high half first, and nothing else. */
  ghost predicate Spelled(text: Octets, bytes: Octets) {
    |text| == 2 * |bytes| && forall i :: 0 <= i < |bytes| ==> TwoDigits(text[2 * i], text[2 * i + 1], bytes[i])
  }

  predicate TwoDigits(x: byte, y: byte, b: byte) {
    HexValue(x).Some? && HexValue(y).Some? && b == 16 * HexValue(x).value + HexValue(y).value
  }

  lemma {:induction false} UnhexIff(text: Octets, bytes: Octets)
    ensures Unhex(text) == Some(bytes) <==> Spelled(text, bytes)
    decreases |text|
  {
    hide Spelled;
    if |text| < 2 {
      ShortSpelled(text, bytes);
    } else {
      var front := text[..|text| - 2];
      if Unhex(front).Some? {
        UnhexIff(front, Unhex(front).value);
      }
      LastPair(text, bytes);
      if |bytes| > 0 {
        UnhexIff(front, bytes[..|bytes| - 1]);
        assert bytes == bytes[..|bytes| - 1] + [bytes[|bytes| - 1]];
      }
    }
  }

  lemma {:induction false} ShortSpelled(text: Octets, bytes: Octets)
    requires |text| < 2
    ensures Spelled(text, bytes) <==> text == [] && bytes == []
  {
  }

  lemma {:induction false} LastPair(text: Octets, bytes: Octets)
    requires |text| >= 2
    ensures Spelled(text, bytes)
       <==> && |bytes| > 0 && Spelled(text[..|text| - 2], bytes[..|bytes| - 1])
            && TwoDigits(text[|text| - 2], text[|text| - 1], bytes[|bytes| - 1])
  {
    hide TwoDigits;
    if |bytes| > 0 && |text| == 2 * |bytes| {
      var front, first := text[..|text| - 2], bytes[..|bytes| - 1];
      forall i | 0 <= i < |first|
        ensures TwoDigits(text[2 * i], text[2 * i + 1], bytes[i]) == TwoDigits(front[2 * i], front[2 * i + 1], first[i])
      {
      }
    }
  }

  // ----- fields and entries -----

  /** The value stands behind the first place where its field is opened, and ends before the next quote. */
  ghost predicate Stands(line: Octets, opening: Octets, value: Octets) {
    exists k: nat :: && MatchesAt(line, opening, k) && (forall j :: 0 <= j < k ==> !MatchesAt(line, opening, j))
                     && Quoted(line, k + |opening|, value)
  }

  /** The value, without a quote in it, and a quote after it. */
  ghost predicate Quoted(line: Octets, start: nat, value: Octets) {
    && start + |value| < |line| && line[start..start + |value|] == value
    && line[start + |value|] == 0x22 && forall i :: 0 <= i < |value| ==> value[i] != 0x22
  }

  lemma {:induction false} FieldIff(line: Octets, name: Octets, value: Octets)
    ensures Field(line, name) == Some(value) <==> Stands(line, Needle(name), value)
  {
    hide Needle, FindFrom;
    var opening := Needle(name);
    match FindFrom(line, opening, 0)
    case Some(k) =>
      QuotedIff(line, k + |opening|, value);
    case None =>
  }

  lemma {:induction false} QuotedIff(line: Octets, start: nat, value: Octets)
    ensures FindFrom(line, [QUOTE], start).Some? && line[start..FindFrom(line, [QUOTE], start).value] == value
       <==> Quoted(line, start, value)
  {
    hide FindFrom;
    forall j | 0 <= j ensures MatchesAt(line, [QUOTE], j) <==> j < |line| && line[j] == QUOTE {
      OctetMatch(line, QUOTE, j);
    }
  }

  const ORIGIN_OPENING: Octets := Ascii("\"origin\": \"")
  const KEY_OPENING: Octets := Ascii("\"key\": \"")
  const A_OPENING: Octets := Ascii("\"a\": \"")
  const B_OPENING: Octets := Ascii("\"b\": \"")

  function OriginWord(origin: Origin): Octets {
    if origin.Detected? then Ascii("detected") else Ascii("received")
  }

  /** A line is a report exactly when it has the four fields, its origin one of two words and its halves hex. */
  lemma {:induction false} LineIff(line: Octets, r: Line)
    ensures ParseLine(line) == Some(r)
       <==> && Stands(line, ORIGIN_OPENING, OriginWord(r.origin)) && Stands(line, KEY_OPENING, r.key)
            && (exists text :: Stands(line, A_OPENING, text) && Spelled(text, r.a))
            && (exists text :: Stands(line, B_OPENING, text) && Spelled(text, r.b))
  {
    hide Field, Stands, Spelled, Needle, ParseOrigin, Unhex, OriginWord, ORIGIN_OPENING, KEY_OPENING, A_OPENING,
         B_OPENING;
    Openings();
    OriginIff(line, r.origin);
    KeyIff(line, r.key);
    HalfIff(line, A, r.a);
    HalfIff(line, B, r.b);
    LineParts(line, r);
  }

  lemma {:induction false} LineParts(line: Octets, r: Line)
    ensures ParseLine(line) == Some(r)
       <==> && Field(line, ORIGIN).Some? && ParseOrigin(Field(line, ORIGIN).value) == Some(r.origin)
            && Field(line, KEY) == Some(r.key)
            && Field(line, A).Some? && Unhex(Field(line, A).value) == Some(r.a)
            && Field(line, B).Some? && Unhex(Field(line, B).value) == Some(r.b)
  {
    hide Field, ParseOrigin, Unhex;
  }

  lemma {:induction false} Openings()
    ensures Needle(ORIGIN) == ORIGIN_OPENING && Needle(KEY) == KEY_OPENING
    ensures Needle(A) == A_OPENING && Needle(B) == B_OPENING
  {
  }

  lemma {:induction false} OriginIff(line: Octets, origin: Origin)
    ensures Field(line, ORIGIN).Some? && ParseOrigin(Field(line, ORIGIN).value) == Some(origin)
       <==> Stands(line, Needle(ORIGIN), OriginWord(origin))
  {
    OriginGood(origin);
    hide Field, Stands, Needle;
    FieldIff(line, ORIGIN, OriginText(origin));
  }

  lemma {:induction false} KeyIff(line: Octets, key: Octets)
    ensures Field(line, KEY) == Some(key) <==> Stands(line, Needle(KEY), key)
  {
    hide Field, Stands, Needle;
    FieldIff(line, KEY, key);
  }

  lemma {:induction false} HalfIff(line: Octets, name: Octets, half: Octets)
    ensures Field(line, name).Some? && Unhex(Field(line, name).value) == Some(half)
       <==> exists text :: Stands(line, Needle(name), text) && Spelled(text, half)
  {
    hide Field, Stands, Spelled, Needle, Unhex;
    if Field(line, name).Some? {
      FieldIff(line, name, Field(line, name).value);
      UnhexIff(Field(line, name).value, half);
    }
    forall text | Stands(line, Needle(name), text) ensures Field(line, name) == Some(text) {
      FieldIff(line, name, text);
    }
  }

  // ----- opening as a run -----

  /** The reports that lines spell, blank and unreadable ones left out. */
  function Reports(lines: seq<Octets>): seq<Report>
  {
    if |lines| == 0 then []
    else Reports(lines[..|lines| - 1]) + OneReport(lines[|lines| - 1])
  }

  function OneReport(line: Octets): seq<Report> {
    match ParseLine(Trim(line))
    case None => []
    case Some(report) => [Report(report.a, report.b, report.origin)]
  }

  /** How many lines are not blank. */
  function Written(lines: seq<Octets>): nat
  {
    if |lines| == 0 then 0
    else Written(lines[..|lines| - 1]) + if Trim(lines[|lines| - 1]) == [] then 0 else 1
  }

  /** Evidence whose key cannot be read. */
  ghost predicate Keyless(c: Checks, r: Report) {
    c.isEvidence(r.a, r.b) && c.keyOf(r.a) == None
  }

  /** Replaying lines is the run of the reports they spell: the same entries and the same refusals, and besides them
      every written line that was not recorded counted as unreadable. It stops only at evidence without a key. */
  lemma {:induction false} ReplayIsRun(c: Checks, limits: Limits, lines: seq<Octets>)
    ensures Replay(c, limits, EMPTY, lines).Err?
       <==> exists r :: r in Reports(lines) && Keyless(c, r)
    ensures match Replay(c, limits, EMPTY, lines)
            case Err(e) => e == Malformed
            case Ok(state) =>
              && Alike(state, RunAll(c, limits, EMPTY, Reports(lines)))
              && |state.entries| + state.refusals.unreadable == Written(lines)
  {
    hide ReplayLine, OneReport, RunAll, Keyless, Alike, Trim;
    if |lines| == 0 {
      NothingYet(c, limits);
    } else {
      var front, last := lines[..|lines| - 1], lines[|lines| - 1];
      var before, one := Reports(front), OneReport(last);
      ReplayIsRun(c, limits, front);
      assert lines == front + [last];
      ReplayJoin(c, limits, EMPTY, front, [last]);
      AtMostOne(last);
      assert forall r :: r in Reports(lines) <==> r in before || (one != [] && r == one[0]);
      if Replay(c, limits, EMPTY, front).Ok? {
        var s := Replay(c, limits, EMPTY, front).value;
        ReplayOne(c, limits, s, last);
        LineIsReport(c, limits, s, RunAll(c, limits, EMPTY, before), last);
        RunOneMore(c, limits, before, one);
      }
    }
  }

  /** The same entries and the same refusals, but for those of a file. */
  ghost predicate Alike(s: State, t: State) {
    s.entries == t.entries && s.refusals.unverified == t.refusals.unverified && s.refusals.full == t.refusals.full
  }

  lemma {:induction false} NothingYet(c: Checks, limits: Limits)
    ensures Alike(EMPTY, RunAll(c, limits, EMPTY, [])) && Replay(c, limits, EMPTY, []) == Ok(EMPTY)
    ensures EMPTY.entries == [] && EMPTY.refusals.unreadable == 0
  {
  }

  lemma {:induction false} AtMostOne(line: Octets)
    ensures |OneReport(line)| <= 1
  {
    hide ParseLine, Trim;
  }

  lemma {:induction false} RunOneMore(c: Checks, limits: Limits, before: seq<Report>, one: seq<Report>)
    requires |one| <= 1
    ensures RunAll(c, limits, EMPTY, before + one)
         == (var s := RunAll(c, limits, EMPTY, before);
             if one == [] then s else Admit(c, limits, s, one[0].a, one[0].b, one[0].origin).state)
  {
    hide Admit;
    if one == [] {
      assert before + one == before;
    } else {
      assert (before + one)[..|before|] == before;
    }
  }

  lemma {:induction false} LineIsReport(c: Checks, limits: Limits, s: State, t: State, line: Octets)
    requires Alike(s, t)
    ensures var one := OneReport(line);
            var next := if one == [] then t else Admit(c, limits, t, one[0].a, one[0].b, one[0].origin).state;
            match ReplayLine(c, limits, s, line)
            case Err(e) => e == Malformed && one != [] && Keyless(c, one[0])
            case Ok(r) =>
              && (one != [] ==> !Keyless(c, one[0])) && Alike(r, next)
              && |r.entries| + r.refusals.unreadable
                 == |s.entries| + s.refusals.unreadable + if Trim(line) == [] then 0 else 1
  {
    NothingParses();
    hide Trim, ParseLine, CountOf;
  }

  lemma {:induction false} NothingParses()
    ensures ParseLine([]) == None
  {
    NamesGood();
    hide FindFrom;
    assert Field([], ORIGIN) == None;
  }

  /** Opening: an absent file is an empty ledger, one that is not UTF-8 an error; any other is replayed line by line,
      and written back, one line for every entry, when some written line was not recorded. */
  lemma {:induction false} OpenIs(c: Checks, limits: Limits, text: Octets)
    ensures Open(c, limits, None) == Ok(Opened(State([], Refusals(0, 0, 0)), None))
    ensures !ValidUtf8(text) ==> Open(c, limits, Some(text)) == Err(Io)
    ensures ValidUtf8(text) ==>
              var run := RunAll(c, limits, EMPTY, Reports(Lines(text)));
              match Open(c, limits, Some(text))
              case Err(e) =>
                e == Malformed && exists r :: r in Reports(Lines(text)) && Keyless(c, r)
              case Ok(view) =>
                && view.state.entries == run.entries
                && view.text == Some(if |run.entries| < Written(Lines(text)) then RenderAll(run.entries) else text)
  {
    hide Lines, Reports, Written, RenderAll, Keyless, ValidUtf8, RunAll, Replay;
    ReplayIsRun(c, limits, Lines(text));
  }

  // ----- lines and white space -----

  /** One character of Unicode's White_Space, as its octets. */
  predicate White(s: Octets) {
    || (|s| == 1 && (0x09 <= s[0] <= 0x0d || s[0] == 0x20))
    || (|s| == 2 && s[0] == 0xc2 && (s[1] == 0x85 || s[1] == 0xa0))
    || (|s| == 3 && (|| (s[0] == 0xe1 && s[1] == 0x9a && s[2] == 0x80)
                     || (s[0] == 0xe2 && s[1] == 0x80 && (0x80 <= s[2] <= 0x8a || s[2] in {0xa8, 0xa9, 0xaf}))
                     || (s[0] == 0xe2 && s[1] == 0x81 && s[2] == 0x9f)
                     || (s[0] == 0xe3 && s[1] == 0x80 && s[2] == 0x80)))
  }

  /** White space from end to end. */
  ghost predicate AllWhite(s: Octets)
    decreases |s|
  {
    s == [] || exists n :: 0 < n <= |s| && White(s[..n]) && AllWhite(s[n..])
  }

  lemma {:induction false} WhiteEnds(s: Octets)
    ensures if WhiteStart(s) > 0 then White(s[..WhiteStart(s)]) else forall n :: 0 <= n <= |s| ==> !White(s[..n])
    ensures if WhiteEnd(s) > 0 then White(s[|s| - WhiteEnd(s)..]) else forall n :: 0 <= n <= |s| ==> !White(s[n..])
  {
    if WhiteEnd(s) == 0 {
      forall n | 0 <= n <= |s| ensures !White(s[n..]) {
        assert |s[n..]| == |s| - n;
      }
    }
  }

  lemma {:induction false} OneWhiteMore(s: Octets, last: Octets)
    requires AllWhite(s) && White(last)
    ensures AllWhite(s + last)
    decreases |s|
  {
    hide White;
    if s == [] {
      assert s + last == last && last[..|last|] == last && last[|last|..] == [];
      NotEmpty(last);
    } else {
      var n :| 0 < n <= |s| && White(s[..n]) && AllWhite(s[n..]);
      OneWhiteMore(s[n..], last);
      assert (s + last)[..n] == s[..n] && (s + last)[n..] == s[n..] + last;
    }
  }

  lemma {:induction false} NotEmpty(s: Octets)
    requires White(s)
    ensures |s| > 0
  {
  }

  lemma {:induction false} OneWhiteFirst(first: Octets, s: Octets)
    requires White(first) && AllWhite(s)
    ensures AllWhite(first + s)
  {
    NotEmpty(first);
    hide White;
    assert (first + s)[..|first|] == first && (first + s)[|first|..] == s;
  }

  lemma {:induction false} StartIs(s: Octets) returns (before: Octets)
    ensures s == before + TrimStart(s) && AllWhite(before) && WhiteStart(TrimStart(s)) == 0
    decreases |s|
  {
    hide White, WhiteStart, AllWhite;
    var n := WhiteStart(s);
    if n == 0 {
      before := [];
      NoneIsWhite();
    } else {
      WhiteEnds(s);
      var more := StartIs(s[n..]);
      OneWhiteFirst(s[..n], more);
      before := s[..n] + more;
      Reattached(s, n, more, TrimStart(s[n..]));
    }
  }

  lemma {:induction false} NoneIsWhite()
    ensures AllWhite([])
  {
  }

  lemma {:induction false} Reattached(s: Octets, n: nat, before: Octets, rest: Octets)
    requires n <= |s| && s[n..] == before + rest
    ensures s == s[..n] + before + rest
  {
    assert s == s[..n] + s[n..];
  }

  lemma {:induction false} Prolonged(s: Octets, k: nat, rest: Octets, after: Octets)
    requires k <= |s| && s[..k] == rest + after
    ensures s == rest + (after + s[k..])
  {
    assert s == s[..k] + s[k..];
  }

  lemma {:induction false} EndIs(s: Octets) returns (after: Octets)
    ensures s == TrimEnd(s) + after && AllWhite(after) && WhiteEnd(TrimEnd(s)) == 0
    decreases |s|
  {
    hide White, WhiteEnd, AllWhite;
    var k := |s| - WhiteEnd(s);
    if k == |s| {
      after := [];
      NoneIsWhite();
    } else {
      WhiteEnds(s);
      var more := EndIs(s[..k]);
      OneWhiteMore(more, s[k..]);
      after := more + s[k..];
      Prolonged(s, k, TrimEnd(s[..k]), more);
    }
  }

  /** Trimming takes white space off both ends, and all of it. */
  lemma {:induction false} TrimIs(s: Octets) returns (before: Octets, after: Octets)
    ensures s == before + Trim(s) + after && AllWhite(before) && AllWhite(after)
    ensures forall n :: 0 <= n <= |Trim(s)| ==> !White(Trim(s)[..n]) && !White(Trim(s)[n..])
  {
    hide White, WhiteStart, WhiteEnd, TrimStart, TrimEnd;
    before := StartIs(s);
    after := EndIs(TrimStart(s));
    WhiteShorter(TrimStart(s), |Trim(s)|);
    assert Trim(s) == TrimStart(s)[..|Trim(s)|];
    WhiteEnds(Trim(s));
  }

  /** The lines of a text: no newline in any, and the text again when one is put between them. */
  lemma {:induction false} LinesAre(text: Octets)
    ensures Between(Lines(text)) == text
    ensures forall i, j :: 0 <= i < |Lines(text)| && 0 <= j < |Lines(text)[i]| ==> Lines(text)[i][j] != 0x0a
    decreases |text|
  {
    match FindFrom(text, [NEWLINE], 0)
    case None =>
      forall j | 0 <= j < |text| ensures text[j] != 0x0a {
        OctetMatch(text, NEWLINE, j);
      }
    case Some(k) =>
      LinesAre(text[k + 1..]);
      forall j | 0 <= j <= k ensures text[j] == 0x0a <==> j == k {
        OctetMatch(text, NEWLINE, j);
      }
      assert text == text[..k] + [0x0a] + text[k + 1..];
  }

  function Between(lines: seq<Octets>): Octets
  {
    if |lines| == 0 then [] else if |lines| == 1 then lines[0] else lines[0] + [0x0a] + Between(lines[1..])
  }
}
