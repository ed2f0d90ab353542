/** The equivocation ledger over whole runs: what every report keeps, what opening repairs, and when
    reopening gives back what was recorded. */
module EvidenceRuns {
  import opened Base
  import opened Utf8
  import opened EvidenceText
  import opened Evidence

  // ----- one entry as a line -----

  lemma {:induction false} NamesGood()
    ensures GoodName(ORIGIN) && GoodName(KEY) && GoodName(A) && GoodName(B)
    ensures ORIGIN != KEY && ORIGIN != A && ORIGIN != B && KEY != A && KEY != B && A != B
  {
    assert |ORIGIN| == 6 && |KEY| == 3 && A == ['a' as int] && B == ['b' as int];
  }

  lemma {:induction false} OriginGood(o: Origin)
    ensures QuoteFree(OriginText(o)) && ParseOrigin(OriginText(o)) == Some(o)
  {
    var d, r := Ascii("detected"), Ascii("received");
    assert d[0] == 'd' as int && r[0] == 'r' as int;
  }

  lemma {:induction false} AfterBrace(line: Octets, name: Octets)
    requires GoodName(name) && |line| > 1 && line[0] == '{' as int
    ensures Field(line, name) == FieldFrom(line, name, 1)
  {
    NotHere(line, 0, name);
    FindSkips(line, Needle(name), 0, 1);
  }

  /** The four fields of a line laid out like an entry. */
  lemma {:induction false} FieldsOf(o: Octets, k: Octets, x: Octets, y: Octets, line: Octets)
    requires QuoteFree(o) && QuoteFree(k) && QuoteFree(x) && QuoteFree(y)
    requires line == ['{' as int] + Pair(ORIGIN, o) + BETWEEN + Pair(KEY, k) + BETWEEN + Pair(A, x) + BETWEEN
                      + Pair(B, y)
                     + ['}' as int]
    ensures Field(line, ORIGIN) == Some(o) && Field(line, KEY) == Some(k) && Field(line, A) == Some(x)
            && Field(line, B) == Some(y)
  {
    NamesGood();
    hide Pair, Field, FieldFrom, GoodName, QuoteFree;
    var pre0: Octets, end: Octets := ['{' as int], ['}' as int];
    var rest3 := Pair(B, y) + end;
    var rest2 := Pair(A, x) + (BETWEEN + rest3);
    var rest1 := Pair(KEY, k) + (BETWEEN + rest2);
    var pre1 := pre0 + Pair(ORIGIN, o) + BETWEEN;
    var pre2 := pre1 + Pair(KEY, k) + BETWEEN;
    var pre3 := pre2 + Pair(A, x) + BETWEEN;
    assert line == pre0 + Pair(ORIGIN, o) + (BETWEEN + rest1);
    assert line == pre1 + Pair(KEY, k) + (BETWEEN + rest2);
    assert line == pre2 + Pair(A, x) + (BETWEEN + rest3);
    assert line == pre3 + Pair(B, y) + end;
    PairLength(ORIGIN, o);
    PairLength(KEY, k);
    PairLength(A, x);
    PairLength(B, y);
    assert line[0] == '{' as int;
    AfterBrace(line, ORIGIN);
    AfterBrace(line, KEY);
    AfterBrace(line, A);
    AfterBrace(line, B);
    TakePair(pre0, ORIGIN, o, BETWEEN + rest1);
    SkipPair(pre0, ORIGIN, o, rest1, KEY);
    SkipPair(pre0, ORIGIN, o, rest1, A);
    SkipPair(pre0, ORIGIN, o, rest1, B);
    TakePair(pre1, KEY, k, BETWEEN + rest2);
    SkipPair(pre1, KEY, k, rest2, A);
    SkipPair(pre1, KEY, k, rest2, B);
    TakePair(pre2, A, x, BETWEEN + rest3);
    SkipPair(pre2, A, x, rest3, B);
    TakePair(pre3, B, y, end);
  }

  /** A rendered entry reads back as itself. */
  lemma {:induction false} RenderParses(e: LedgerEntry)
    ensures ParseLine(Render(e)) == Some(Line(e.origin, e.key, e.a, e.b))
  {
    hide Pair, Field, Hex, Unhex, OriginText, ParseOrigin;
    OriginGood(e.origin);
    UnhexHex(e.a);
    UnhexHex(e.b);
    FieldsOf(OriginText(e.origin), e.key, Hex(e.a), Hex(e.b), Render(e));
  }

  /** The line of an entry, character for character. */
  lemma {:induction false} RenderedLineIs(e: LedgerEntry)
    ensures Render(e)
         == Ascii("{\"origin\": \"") + Ascii(if e.origin.Detected? then "detected" else "received")
            + Ascii("\", \"key\": \"") + e.key + Ascii("\", \"a\": \"") + Hex(e.a) + Ascii("\", \"b\": \"") + Hex(e.b)
            + Ascii("\"}")
  {
    hide Hex, OriginText, Needle, Ascii, Pair;
    OpeningIs();
    SeparatorIs(KEY, "key");
    SeparatorIs(A, "a");
    SeparatorIs(B, "b");
    OriginIs(e.origin);
    PairIs(ORIGIN, OriginText(e.origin));
    PairIs(KEY, e.key);
    PairIs(A, Hex(e.a));
    PairIs(B, Hex(e.b));
    Rejoined([QUOTE], ['{' as int] + Needle(ORIGIN), OriginText(e.origin), Needle(KEY), e.key, Needle(A), Hex(e.a),
             Needle(B), Hex(e.b));
    RenderParts(e);
  }

  lemma {:induction false} PairIs(name: Octets, value: Octets)
    ensures Pair(name, value) == Needle(name) + value + [QUOTE]
  {
  }

  lemma {:induction false} RenderParts(e: LedgerEntry)
    ensures Render(e)
         == ['{' as int] + Pair(ORIGIN, OriginText(e.origin)) + BETWEEN + Pair(KEY, e.key) + BETWEEN
            + Pair(A, Hex(e.a)) + BETWEEN + Pair(B, Hex(e.b)) + ['}' as int]
  {
  }

  lemma {:induction false} OpeningIs()
    ensures Ascii("{\"origin\": \"") == ['{' as int] + Needle(ORIGIN) && Ascii("\"}") == [QUOTE] + ['}' as int]
  {
  }

  lemma {:induction false} SeparatorIs(name: Octets, text: string)
    requires |text| <= 3 && (forall i :: 0 <= i < |text| ==> text[i] < 128 as char) && name == Ascii(text)
    ensures Ascii("\", \"" + text + "\": \"") == [QUOTE] + BETWEEN + Needle(name)
    ensures "\", \"" + "key" + "\": \"" == "\", \"key\": \"" && "\", \"" + "a" + "\": \"" == "\", \"a\": \""
    ensures "\", \"" + "b" + "\": \"" == "\", \"b\": \""
  {
  }

  lemma {:induction false} OriginIs(origin: Origin)
    ensures OriginText(origin) == Ascii(if origin.Detected? then "detected" else "received")
  {
  }

  lemma {:induction false} Rejoined(q: Octets, first: Octets, o: Octets, second: Octets, k: Octets, third: Octets,
                                    a: Octets, fourth: Octets, b: Octets)
    ensures first + o + q + BETWEEN + (second + k + q) + BETWEEN + (third + a + q) + BETWEEN + (fourth + b + q)
            + ['}' as int]
         == first + o + (q + BETWEEN + second) + k + (q + BETWEEN + third) + a + (q + BETWEEN + fourth) + b
            + (q + ['}' as int])
  {
  }

  /** Parts of a line that start no new one. */
  ghost predicate OneLined(s: Octets) {
    forall i :: 0 <= i < |s| ==> s[i] != NEWLINE
  }

  lemma {:induction false} QuoteFreeOneLined(s: Octets)
    requires QuoteFree(s)
    ensures OneLined(s)
  {
    forall i | 0 <= i < |s| ensures s[i] != NEWLINE {
      assert Plain(s, i);
    }
  }

  lemma {:induction false} PairOneLined(name: Octets, value: Octets)
    requires QuoteFree(name) && QuoteFree(value)
    ensures OneLined(Pair(name, value))
  {
    QuoteFreeOneLined(name);
    QuoteFreeOneLined(value);
  }

  lemma {:induction false} RenderOneLined(e: LedgerEntry)
    ensures NewlineFree(Render(e))
    ensures |Render(e)| > 0 && Printable(Render(e)[0]) && Printable(Render(e)[|Render(e)| - 1])
    ensures Trim(Render(e)) == Render(e)
  {
    NamesGood();
    OriginGood(e.origin);
    UnhexHex(e.a);
    UnhexHex(e.b);
    PairOneLined(ORIGIN, OriginText(e.origin));
    PairOneLined(KEY, e.key);
    PairOneLined(A, Hex(e.a));
    PairOneLined(B, Hex(e.b));
    hide Pair, Hex, OriginText, Trim, WhiteStart, WhiteEnd;
    NewlineFreeIs(Render(e));
    PrintableEnds(Render(e));
    TrimNothing(Render(e));
  }

  lemma {:induction false} HexAscii(bytes: Octets)
    ensures ValidUtf8(Hex(bytes))
  {
    if |bytes| > 0 {
      HexAscii(bytes[..|bytes| - 1]);
      var last := bytes[|bytes| - 1];
      AsciiValid([HexDigit(last / 16), HexDigit(last % 16)]);
      ConcatValid(Hex(bytes[..|bytes| - 1]), [HexDigit(last / 16), HexDigit(last % 16)]);
    }
  }

  lemma {:induction false} PairValid(name: Octets, value: Octets)
    requires ValidUtf8(name) && ValidUtf8(value)
    ensures ValidUtf8(Pair(name, value))
  {
    hide ValidUtf8;
    AsciiValid([QUOTE]);
    AsciiValid([QUOTE, ':' as int, ' ' as int, QUOTE]);
    ConcatValid([QUOTE], name);
    ConcatValid([QUOTE] + name, [QUOTE, ':' as int, ' ' as int, QUOTE]);
    ConcatValid(Needle(name), value);
    ConcatValid(Needle(name) + value, [QUOTE]);
  }

  /** A rendered line is text. */
  lemma {:induction false} RenderValid(e: LedgerEntry)
    ensures ValidUtf8(Render(e) + [NEWLINE])
  {
    hide ValidUtf8, Pair, Hex;
    AsciiValid(ORIGIN);
    AsciiValid(KEY);
    AsciiValid(A);
    AsciiValid(B);
    AsciiValid(OriginText(e.origin));
    HexAscii(e.a);
    HexAscii(e.b);
    var p0: Octets := ['{' as int];
    var p1, p2, p3, p4 := Pair(ORIGIN, OriginText(e.origin)), Pair(KEY, e.key), Pair(A, Hex(e.a)), Pair(B, Hex(e.b));
    PairValid(ORIGIN, OriginText(e.origin));
    PairValid(KEY, e.key);
    PairValid(A, Hex(e.a));
    PairValid(B, Hex(e.b));
    AsciiValid(p0);
    AsciiValid(BETWEEN);
    AsciiValid(['}' as int]);
    AsciiValid([NEWLINE]);
    ConcatValid(p0, p1);
    ConcatValid(p0 + p1, BETWEEN);
    ConcatValid(p0 + p1 + BETWEEN, p2);
    ConcatValid(p0 + p1 + BETWEEN + p2, BETWEEN);
    ConcatValid(p0 + p1 + BETWEEN + p2 + BETWEEN, p3);
    ConcatValid(p0 + p1 + BETWEEN + p2 + BETWEEN + p3, BETWEEN);
    ConcatValid(p0 + p1 + BETWEEN + p2 + BETWEEN + p3 + BETWEEN, p4);
    ConcatValid(p0 + p1 + BETWEEN + p2 + BETWEEN + p3 + BETWEEN + p4, ['}' as int]);
    ConcatValid(Render(e), [NEWLINE]);
  }

  // ----- what every report keeps -----

  /** Distinct facts, all of them verified under their own identity, within both budgets. */
  ghost predicate Good(c: Checks, limits: Limits, entries: seq<LedgerEntry>) {
    && (forall i, j :: 0 <= i < j < |entries| ==> entries[i].key != entries[j].key)
    && (forall i :: 0 <= i < |entries| ==> Proves(c, entries[i]))
    && CountOf(entries, Detected) <= limits.detected && CountOf(entries, Received) <= limits.received
  }

  ghost predicate Proves(c: Checks, e: LedgerEntry) {
    c.isEvidence(e.a, e.b) && c.keyOf(e.a) == Some(e.key)
  }

  lemma {:induction false} CountStep(entries: seq<LedgerEntry>, e: LedgerEntry, origin: Origin)
    ensures CountOf(entries + [e], origin) == CountOf(entries, origin) + if e.origin == origin then 1 else 0
  {
    assert (entries + [e])[..|entries|] == entries;
  }

  /** The entries of one origin, by position. */
  ghost function OfOrigin(entries: seq<LedgerEntry>, origin: Origin): set<int> {
    set i | 0 <= i < |entries| && entries[i].origin == origin
  }

  lemma {:induction false} CountIs(entries: seq<LedgerEntry>, origin: Origin)
    ensures CountOf(entries, origin) == |OfOrigin(entries, origin)|
  {
    if |entries| > 0 {
      var n := |entries| - 1;
      CountIs(entries[..n], origin);
      assert OfOrigin(entries, origin)
          == OfOrigin(entries[..n], origin) + if entries[n].origin == origin then {n} else {};
    }
  }

  /** What becomes of a report, of either origin: one that does not verify is counted and dropped; one whose fact
      cannot be read is an error; a known fact is left alone; one beyond the budget of its origin, 1,024 or 256 or
      less, is counted and dropped; and any other is put at the end. Nothing else changes. */
  lemma {:induction false} AdmitIs(c: Checks, limits: Limits, s: State, a: Octets, b: Octets, origin: Origin)
    ensures var v := Admit(c, Clamped(limits), s, a, b, origin);
            var budget := if origin.Detected? then Min(limits.detected, 1_024) else Min(limits.received, 256);
            var r := s.refusals;
            if !c.isEvidence(a, b) then
              v == Verdict(State(s.entries, Refusals(r.unverified + 1, r.full, r.unreadable)), Ok(Unverified))
            else if c.keyOf(a).None? then v == Verdict(s, Err(Malformed))
            else if exists i :: 0 <= i < |s.entries| && s.entries[i].key == c.keyOf(a).value then
              v == Verdict(s, Ok(Duplicate))
            else if |OfOrigin(s.entries, origin)| >= budget then
              v == Verdict(State(s.entries, Refusals(r.unverified, r.full + 1, r.unreadable)), Ok(Full))
            else
              v == Verdict(State(s.entries + [LedgerEntry(origin, c.keyOf(a).value, a, b)], r), Ok(Recorded))
  {
    CountIs(s.entries, origin);
    hide OfOrigin, CountOf;
  }

  /** Keys stay distinct, entries verified, budgets kept, and entries only grow. */
  lemma {:induction false} AdmitKeeps(c: Checks, limits: Limits, s: State, a: Octets, b: Octets, origin: Origin)
    requires Good(c, limits, s.entries)
    ensures var v := Admit(c, limits, s, a, b, origin);
            && Good(c, limits, v.state.entries) && s.entries <= v.state.entries
            && (v.result != Ok(Recorded) ==> v.state.entries == s.entries)
            && (v.result == Ok(Recorded) ==>
                  exists key :: v.state.entries == s.entries + [LedgerEntry(origin, key, a, b)])
  {
    var v := Admit(c, limits, s, a, b, origin);
    if v.result == Ok(Recorded) {
      var e := LedgerEntry(origin, c.keyOf(a).value, a, b);
      assert v.state.entries == s.entries + [e];
      CountStep(s.entries, e, Detected);
      CountStep(s.entries, e, Received);
    }
  }

  datatype Report = Report(a: Octets, b: Octets, origin: Origin)

  /** A run of reports from a state; a report whose identity cannot be read changes nothing. */
  function RunAll(c: Checks, limits: Limits, s: State, reports: seq<Report>): State
  {
    if |reports| == 0 then s
    else
      var last := reports[|reports| - 1];
      Admit(c, limits, RunAll(c, limits, s, reports[..|reports| - 1]), last.a, last.b, last.origin).state
  }

  lemma {:induction false} RunKeeps(c: Checks, limits: Limits, s: State, reports: seq<Report>)
    requires Good(c, limits, s.entries)
    ensures Good(c, limits, RunAll(c, limits, s, reports).entries) && s.entries <= RunAll(c, limits, s, reports).entries
  {
    hide Admit, Good;
    if |reports| > 0 {
      var last := reports[|reports| - 1];
      RunKeeps(c, limits, s, reports[..|reports| - 1]);
      AdmitKeeps(c, limits, RunAll(c, limits, s, reports[..|reports| - 1]), last.a, last.b, last.origin);
    }
  }

  /** The detections of a run: what the ledger would have been told had nothing been received. */
  function Only(reports: seq<Report>): seq<Report>
  {
    if |reports| == 0 then []
    else
      var last := reports[|reports| - 1];
      Only(reports[..|reports| - 1]) + if last.origin.Detected? then [last] else []
  }

  /** Ahead of a ledger that received nothing: it holds whatever that one holds, and has spent no more of
      the budget for detections. */
  ghost predicate Ahead(entries: seq<LedgerEntry>, alone: seq<LedgerEntry>) {
    && (forall i :: 0 <= i < |alone| ==> Evidence.Holds(entries, alone[i].key))
    && CountOf(entries, Detected) <= CountOf(alone, Detected)
  }

  lemma {:induction false} HoldsMore(entries: seq<LedgerEntry>, e: LedgerEntry, key: Octets)
    ensures Evidence.Holds(entries + [e], key) <==> Evidence.Holds(entries, key) || e.key == key
  {
    var more := entries + [e];
    assert more[|entries|] == e;
    if Evidence.Holds(entries, key) {
      var i :| 0 <= i < |entries| && entries[i].key == key;
      assert more[i] == entries[i];
    }
  }

  lemma {:induction false} ReceivedStaysAhead(c: Checks, limits: Limits, s: State, alone: State, a: Octets, b: Octets)
    requires Ahead(s.entries, alone.entries)
    ensures Ahead(Admit(c, limits, s, a, b, Received).state.entries, alone.entries)
  {
    hide Evidence.Holds, CountOf;
    if Admit(c, limits, s, a, b, Received).result == Ok(Recorded) {
      var e := LedgerEntry(Received, c.keyOf(a).value, a, b);
      CountStep(s.entries, e, Detected);
      forall i | 0 <= i < |alone.entries| ensures Evidence.Holds(s.entries + [e], alone.entries[i].key) {
        HoldsMore(s.entries, e, alone.entries[i].key);
      }
    }
  }

  lemma {:induction false} DetectedStaysAhead(c: Checks, limits: Limits, s: State, alone: State, a: Octets, b: Octets)
    requires Ahead(s.entries, alone.entries)
    ensures Ahead(Admit(c, limits, s, a, b, Detected).state.entries,
                  Admit(c, limits, alone, a, b, Detected).state.entries)
  {
    hide CountOf;
    if c.isEvidence(a, b) && c.keyOf(a).Some? {
      var e := LedgerEntry(Detected, c.keyOf(a).value, a, b);
      CountStep(s.entries, e, Detected);
      CountStep(alone.entries, e, Detected);
      if Evidence.Holds(alone.entries, e.key) {
        HoldsInAhead(s.entries, alone.entries, e.key);
      }
      hide Evidence.Holds;
      forall key ensures Evidence.Holds(s.entries + [e], key) <==> Evidence.Holds(s.entries, key) || e.key == key {
        HoldsMore(s.entries, e, key);
      }
    }
  }

  lemma {:induction false} HoldsInAhead(entries: seq<LedgerEntry>, alone: seq<LedgerEntry>, key: Octets)
    requires Ahead(entries, alone) && Evidence.Holds(alone, key)
    ensures Evidence.Holds(entries, key)
  {
  }

  lemma {:induction false} RunStaysAhead(c: Checks, limits: Limits, s: State, reports: seq<Report>)
    ensures Ahead(RunAll(c, limits, s, reports).entries, RunAll(c, limits, s, Only(reports)).entries)
  {
    hide Admit, Ahead;
    if |reports| == 0 {
      AheadOfItself(s.entries);
    } else {
      var front, last := reports[..|reports| - 1], reports[|reports| - 1];
      RunStaysAhead(c, limits, s, front);
      var t, alone := RunAll(c, limits, s, front), RunAll(c, limits, s, Only(front));
      if last.origin.Detected? {
        assert Only(reports)[..|Only(front)|] == Only(front);
        DetectedStaysAhead(c, limits, t, alone, last.a, last.b);
      } else {
        assert Only(reports) == Only(front);
        ReceivedStaysAhead(c, limits, t, alone, last.a, last.b);
      }
    }
  }

  lemma {:induction false} AheadOfItself(entries: seq<LedgerEntry>)
    ensures Ahead(entries, entries)
  {
    forall i | 0 <= i < |entries| ensures Evidence.Holds(entries, entries[i].key) {
    }
  }

  /** No more detections are charged than were reported. */
  lemma {:induction false} DetectionsCharged(c: Checks, limits: Limits, s: State, reports: seq<Report>)
    ensures CountOf(RunAll(c, limits, s, reports).entries, Detected) <= CountOf(s.entries, Detected) + |Only(reports)|
  {
    hide CountOf, Evidence.Holds;
    if |reports| > 0 {
      var front, last := reports[..|reports| - 1], reports[|reports| - 1];
      DetectionsCharged(c, limits, s, front);
      var t := RunAll(c, limits, s, front);
      if Admit(c, limits, t, last.a, last.b, last.origin).result == Ok(Recorded) {
        CountStep(t.entries, LedgerEntry(last.origin, c.keyOf(last.a).value, last.a, last.b), Detected);
      }
    }
  }

  /** The budgets do not interfere. From any ledger and after any run, a verified detection is refused only
      because its fact is known or the budget for detections is spent; the run has spent no more of that
      budget than its detections alone would have, and knows every fact they would have put there. So a
      detection that would not have been refused for lack of room had nothing been received is not refused
      for it now, and none is while fewer were reported than there was room for. */
  lemma {:induction false} DetectionHasRoom(c: Checks, limits: Limits, s: State, reports: seq<Report>, a: Octets,
                                            b: Octets)
    requires c.isEvidence(a, b) && c.keyOf(a).Some?
    ensures var t, alone := RunAll(c, limits, s, reports), RunAll(c, limits, s, Only(reports));
            var result := Admit(c, limits, t, a, b, Detected).result;
            && result == Ok(if Evidence.Holds(t.entries, c.keyOf(a).value) then Duplicate
                            else if CountOf(t.entries, Detected) >= limits.detected then Full else Recorded)
            && Ahead(t.entries, alone.entries)
            && (Admit(c, limits, alone, a, b, Detected).result != Ok(Full) ==> result != Ok(Full))
            && (CountOf(s.entries, Detected) + |Only(reports)| < limits.detected ==> result != Ok(Full))
  {
    hide RunAll, CountOf;
    RunStaysAhead(c, limits, s, reports);
    DetectionsCharged(c, limits, s, reports);
    var t, alone := RunAll(c, limits, s, reports), RunAll(c, limits, s, Only(reports));
    if Evidence.Holds(alone.entries, c.keyOf(a).value) {
      HoldsInAhead(t.entries, alone.entries, c.keyOf(a).value);
    }
  }

  // ----- replaying a file -----

  lemma {:induction false} ReplayJoin(c: Checks, limits: Limits, s: State, xs: seq<Octets>, ys: seq<Octets>)
    ensures Replay(c, limits, s, xs + ys) == match Replay(c, limits, s, xs)
                                             case Err(e) => Err(e)
                                             case Ok(next) => Replay(c, limits, next, ys)
    decreases |xs|
  {
    hide ReplayLine;
    if |xs| == 0 {
      assert xs + ys == ys;
    } else {
      assert (xs + ys)[0] == xs[0] && (xs + ys)[1..] == xs[1..] + ys;
      if ReplayLine(c, limits, s, xs[0]).Ok? {
        ReplayJoin(c, limits, ReplayLine(c, limits, s, xs[0]).value, xs[1..], ys);
      }
    }
  }

  lemma {:induction false} ReplayOne(c: Checks, limits: Limits, s: State, line: Octets)
    ensures Replay(c, limits, s, [line]) == ReplayLine(c, limits, s, line)
  {
    hide ReplayLine;
    ReplayStep(c, limits, s, [line]);
    assert [line][1..] == [];
    if ReplayLine(c, limits, s, line).Ok? {
      ReplayDone(c, limits, ReplayLine(c, limits, s, line).value, []);
    }
  }

  /** A line keeps the ledger good; when it is not counted as unreadable, no counter moves. */
  lemma {:induction false} LineKeeps(c: Checks, limits: Limits, s: State, line: Octets)
    requires Good(c, limits, s.entries) && ReplayLine(c, limits, s, line).Ok?
    ensures var next := ReplayLine(c, limits, s, line).value;
            && Good(c, limits, next.entries) && s.entries <= next.entries
            && next.refusals.unreadable >= s.refusals.unreadable
            && (next.refusals.unreadable == s.refusals.unreadable ==> next.refusals == s.refusals)
  {
    hide Trim, ParseLine, Good;
    var report := ParseLine(Trim(line));
    if report.Some? {
      AdmitKeeps(c, limits, s, report.value.a, report.value.b, report.value.origin);
    }
  }

  lemma {:induction false} ReplayKeeps(c: Checks, limits: Limits, s: State, lines: seq<Octets>)
    requires Good(c, limits, s.entries) && Replay(c, limits, s, lines).Ok?
    ensures var next := Replay(c, limits, s, lines).value;
            && Good(c, limits, next.entries) && s.entries <= next.entries
            && next.refusals.unreadable >= s.refusals.unreadable
            && (next.refusals.unreadable == s.refusals.unreadable ==> next.refusals == s.refusals)
    decreases |lines|
  {
    hide ReplayLine, Good;
    if |lines| > 0 {
      LineKeeps(c, limits, s, lines[0]);
      ReplayKeeps(c, limits, ReplayLine(c, limits, s, lines[0]).value, lines[1..]);
    }
  }

  /** A line that was rendered from an entry the state can take puts that entry there. */
  lemma {:induction false} RenderedLine(c: Checks, limits: Limits, s: State, e: LedgerEntry)
    requires Good(c, limits, s.entries + [e])
    ensures ReplayLine(c, limits, s, Render(e)) == Ok(s.(entries := s.entries + [e]))
  {
    hide Trim, ParseLine, Render;
    RenderOneLined(e);
    RenderParses(e);
    var all := s.entries + [e];
    assert all[|s.entries|] == e && Proves(c, all[|s.entries|]);
    CountStep(s.entries, e, e.origin);
    assert !Evidence.Holds(s.entries, e.key) by {
      forall i | 0 <= i < |s.entries| ensures s.entries[i].key != e.key {
        assert all[i] == s.entries[i];
      }
    }
  }

  lemma {:induction false} BlankLine(c: Checks, limits: Limits, s: State, line: Octets)
    requires Blank(line)
    ensures ReplayLine(c, limits, s, line) == Ok(s)
  {
  }

  lemma {:induction false} EmptyIsBlank()
    ensures Blank([])
  {
  }

  // ----- white space at the end -----

  lemma {:induction false} WhiteShorter(s: Octets, n: nat)
    requires WhiteStart(s) == 0 && n <= |s|
    ensures WhiteStart(s[..n]) == 0
  {
  }

  lemma {:induction false} SomethingStays(s: Octets)
    requires WhiteStart(s) == 0 && s != []
    ensures TrimEnd(s) != []
    decreases |s|
  {
    var n := WhiteEnd(s);
    if n > 0 {
      WhiteShorter(s, |s| - n);
      if |s| != n {
        SomethingStays(s[..|s| - n]);
      }
    }
  }

  lemma {:induction false} TrimStartClean(s: Octets)
    ensures WhiteStart(TrimStart(s)) == 0
    decreases |s|
  {
    if WhiteStart(s) > 0 {
      TrimStartClean(s[WhiteStart(s)..]);
    }
  }

  lemma {:induction false} BlankIff(s: Octets)
    ensures Blank(s) <==> TrimStart(s) == []
  {
    TrimStartClean(s);
    if TrimStart(s) != [] {
      SomethingStays(TrimStart(s));
    }
  }

  // ----- appending a line -----

  /** The file ends with a newline, or with nothing but white space after the last one. */
  ghost predicate Terminated(text: FileText) {
    text.None? || Blank(Tail(text.value))
  }

  function OctetsOf(text: FileText): Octets {
    if text.Some? then text.value else []
  }

  lemma {:induction false} LinesSplit(text: Octets)
    ensures Lines(text) == Front(text) + [Tail(text)]
  {
  }

  /** Reading the file in two parts: up to the last newline, and what stands after it. */
  lemma {:induction false} ReplaySplit(c: Checks, limits: Limits, text: Octets)
    ensures Replay(c, limits, EMPTY, Lines(text)) == match Replay(c, limits, EMPTY, Front(text))
                                                     case Err(e) => Err(e)
                                                     case Ok(s) => ReplayLine(c, limits, s, Tail(text))
  {
    hide Replay, ReplayLine, Lines, Front, Tail;
    LinesSplit(text);
    ReplayJoin(c, limits, EMPTY, Front(text), [Tail(text)]);
    if Replay(c, limits, EMPTY, Front(text)).Ok? {
      ReplayOne(c, limits, Replay(c, limits, EMPTY, Front(text)).value, Tail(text));
    }
  }

  lemma {:induction false} ReplayAppended(c: Checks, limits: Limits, text: Octets, e: LedgerEntry)
    ensures Replay(c, limits, EMPTY, Lines(text + (Render(e) + [NEWLINE])))
         == match Replay(c, limits, EMPTY, Front(text))
            case Err(error) => Err(error)
            case Ok(s) => ReplayLine(c, limits, s, Tail(text) + Render(e))
    ensures Tail(text + (Render(e) + [NEWLINE])) == []
  {
    hide Replay, ReplayLine, Lines, Render, Blank;
    RenderOneLined(e);
    LinesAppend(text, Render(e));
    var joined := Tail(text) + Render(e);
    var front := Front(text);
    assert front + [joined, []] == front + ([joined] + [[]]);
    ReplayJoin(c, limits, EMPTY, front, [joined] + [[]]);
    if Replay(c, limits, EMPTY, front).Ok? {
      var s := Replay(c, limits, EMPTY, front).value;
      ReplayJoin(c, limits, s, [joined], [[]]);
      ReplayOne(c, limits, s, joined);
      if ReplayLine(c, limits, s, joined).Ok? {
        var next := ReplayLine(c, limits, s, joined).value;
        ReplayOne(c, limits, next, []);
        EmptyIsBlank();
        BlankLine(c, limits, next, []);
      }
    }
  }

  /** On a terminated file the new line is read on its own. */
  lemma {:induction false} AppendedAlone(c: Checks, limits: Limits, text: Octets, s: State, e: LedgerEntry)
    requires Blank(Tail(text)) && Replay(c, limits, EMPTY, Lines(text)) == Ok(s)
    requires Good(c, limits, s.entries + [e])
    ensures Replay(c, limits, EMPTY, Lines(text + (Render(e) + [NEWLINE]))) == Ok(s.(entries := s.entries + [e]))
  {
    hide Replay, Lines, Render, Front, Tail, Good, Blank, Trim, ParseLine, Admit;
    ReplaySplit(c, limits, text);
    ReplayAppended(c, limits, text, e);
    BlankIff(Tail(text));
    RenderOneLined(e);
    TrimJoined(Tail(text), Render(e));
    assert [] + Render(e) == Render(e);
    if Replay(c, limits, EMPTY, Front(text)).Ok? {
      BlankLine(c, limits, Replay(c, limits, EMPTY, Front(text)).value, Tail(text));
    }
    RenderedLine(c, limits, s, e);
    SameTrim(c, limits, s, Tail(text) + Render(e), Render(e));
  }

  lemma {:induction false} SameTrim(c: Checks, limits: Limits, s: State, line: Octets, other: Octets)
    requires Trim(line) == Trim(other)
    ensures ReplayLine(c, limits, s, line) == ReplayLine(c, limits, s, other)
  {
  }

  /** A line that parses says the same when more is written behind it. */
  lemma {:induction false} ParsedPrefix(line: Octets, more: Octets)
    requires ParseLine(line).Some?
    ensures ParseLine(line + more) == ParseLine(line)
  {
    hide Field, Unhex, ParseOrigin;
    FieldInPrefix(line, more, ORIGIN);
    FieldInPrefix(line, more, KEY);
    FieldInPrefix(line, more, A);
    FieldInPrefix(line, more, B);
  }

  /** On a file whose last line is a report without a newline, the new line disappears behind it. */
  lemma {:induction false} AppendedLost(c: Checks, limits: Limits, text: Octets, s: State, e: LedgerEntry)
    requires !Blank(Tail(text)) && Replay(c, limits, EMPTY, Lines(text)) == Ok(s)
    requires Good(c, limits, []) && s.refusals == NO_REFUSALS
    ensures Replay(c, limits, EMPTY, Lines(text + (Render(e) + [NEWLINE]))) == Ok(s)
  {
    hide Replay, Lines, Render, Front, Tail, Good, TrimStart, TrimEnd, ParseLine, Admit;
    ReplaySplit(c, limits, text);
    ReplayAppended(c, limits, text, e);
    RenderOneLined(e);
    var tail := Tail(text);
    TrimJoined(tail, Render(e));
    var s0 := Replay(c, limits, EMPTY, Front(text)).value;
    ReplayKeeps(c, limits, EMPTY, Front(text));
    assert ParseLine(Trim(tail)).Some?;
    var start, line := TrimStart(tail), Trim(tail);
    var more := start[|line|..] + Render(e);
    assert start == line + start[|line|..];
    assert Trim(tail + Render(e)) == line + more;
    ParsedPrefix(line, more);
  }

  // ----- reopening -----

  /** Opening this file gives these entries, refuses nothing, and leaves the file as it is. */
  ghost predicate Reproduces(c: Checks, limits: Limits, text: FileText, entries: seq<LedgerEntry>) {
    Open(c, limits, text) == Ok(Opened(State(entries, NO_REFUSALS), text))
  }

  lemma {:induction false} RenderAllReplays(c: Checks, limits: Limits, entries: seq<LedgerEntry>)
    requires Good(c, limits, entries)
    ensures Replay(c, limits, EMPTY, Lines(RenderAll(entries))) == Ok(State(entries, NO_REFUSALS))
    ensures Blank(Tail(RenderAll(entries))) && ValidUtf8(RenderAll(entries))
  {
    hide Replay, Render, Lines, Blank, Tail;
    EmptyIsBlank();
    if |entries| == 0 {
      EmptyFile(c, limits);
    } else {
      var front, last := entries[..|entries| - 1], entries[|entries| - 1];
      assert entries == front + [last];
      CountStep(front, last, Detected);
      CountStep(front, last, Received);
      RenderAllReplays(c, limits, front);
      AppendedAlone(c, limits, RenderAll(front), State(front, NO_REFUSALS), last);
      ReplayAppended(c, limits, RenderAll(front), last);
      RenderValid(last);
      ConcatValid(RenderAll(front), Render(last) + [NEWLINE]);
    }
  }

  lemma {:induction false} EmptyFile(c: Checks, limits: Limits)
    ensures Replay(c, limits, EMPTY, Lines([])) == Ok(EMPTY) && Tail([]) == [] && ValidUtf8([])
  {
    NewlineFreeIs([]);
    OneLine([]);
    ReplayOne(c, limits, EMPTY, []);
    EmptyIsBlank();
    BlankLine(c, limits, EMPTY, []);
  }

  lemma {:induction false} NothingGood(c: Checks, limits: Limits)
    ensures Good(c, limits, [])
  {
  }

  /** Opening is a repair: whatever the file holds, what an open leaves behind opens again to the same
      entries, with nothing refused and nothing rewritten. */
  lemma {:induction false} OpenRepairs(c: Checks, limits: Limits, text: FileText)
    requires Open(c, limits, text).Ok?
    ensures var view := Open(c, limits, text).value;
            && Good(c, limits, view.state.entries)
            && Reproduces(c, limits, view.text, view.state.entries)
  {
    hide Replay, RenderAll, Lines, Good;
    NothingGood(c, limits);
    if text.Some? {
      ReplayKeeps(c, limits, EMPTY, Lines(text.value));
      var state := Replay(c, limits, EMPTY, Lines(text.value)).value;
      RenderAllReplays(c, limits, state.entries);
    }
  }

  /** A report recorded in a ledger that its file reproduces is reproduced too exactly when the file was
      terminated; the file is terminated afterwards. */
  lemma {:induction false} RecordReproducesIff(c: Checks, limits: Limits, text: FileText, entries: seq<LedgerEntry>,
                                               e: LedgerEntry)
    requires Reproduces(c, limits, text, entries) && Good(c, limits, entries + [e])
    ensures Reproduces(c, limits, Appended(text, e), entries + [e]) <==> Terminated(text)
    ensures !Terminated(text) ==> Reproduces(c, limits, Appended(text, e), entries)
    ensures Terminated(Appended(text, e))
  {
    hide Replay, Render, Lines, Tail, Blank, Good;
    NothingGood(c, limits);
    RenderValid(e);
    var line := Render(e) + [NEWLINE];
    EmptyIsBlank();
    EmptyFile(c, limits);
    var octets := OctetsOf(text);
    ReplayAppended(c, limits, octets, e);
    ConcatValid(octets, line);
    assert Appended(text, e) == Some(octets + line);
    if Terminated(text) {
      AppendedAlone(c, limits, octets, State(entries, NO_REFUSALS), e);
    } else {
      AppendedLost(c, limits, octets, State(entries, NO_REFUSALS), e);
      assert |entries + [e]| != |entries|;
    }
  }

  // ----- a whole run, from one open to the next -----

  /** A ledger and its file. */
  datatype Session = Session(state: State, text: FileText)

  /** One report: what was recorded goes to the file as well. */
  function Persist(c: Checks, limits: Limits, s: Session, r: Report): Session {
    var v := Admit(c, limits, s.state, r.a, r.b, r.origin);
    Session(v.state, if v.result == Ok(Recorded) && |v.state.entries| > 0
                     then Appended(s.text, v.state.entries[|v.state.entries| - 1]) else s.text)
  }

  function RunSession(c: Checks, limits: Limits, s: Session, reports: seq<Report>): Session
  {
    if |reports| == 0 then s
    else Persist(c, limits, RunSession(c, limits, s, reports[..|reports| - 1]), reports[|reports| - 1])
  }

  lemma {:induction false} CountJoin(x: seq<LedgerEntry>, y: seq<LedgerEntry>, origin: Origin)
    ensures CountOf(x + y, origin) == CountOf(x, origin) + CountOf(y, origin)
  {
    if |y| == 0 {
      assert x + y == x;
    } else {
      assert (x + y)[..|x + y| - 1] == x + y[..|y| - 1];
      CountJoin(x, y[..|y| - 1], origin);
    }
  }

  function Without(entries: seq<LedgerEntry>, k: nat): seq<LedgerEntry>
    requires k < |entries|
  {
    entries[..k] + entries[k + 1..]
  }

  lemma {:induction false} GoodWithout(c: Checks, limits: Limits, entries: seq<LedgerEntry>, k: nat)
    requires Good(c, limits, entries) && k < |entries|
    ensures Good(c, limits, Without(entries, k))
  {
    var w := Without(entries, k);
    forall i | 0 <= i < |w| ensures w[i] == entries[if i < k then i else i + 1] {
    }
    forall i | 0 <= i < |w| ensures Proves(c, w[i]) {
      assert Proves(c, entries[if i < k then i else i + 1]);
    }
    hide CountOf, Proves, Without;
    CountWithout(entries, k, Detected);
    CountWithout(entries, k, Received);
  }

  lemma {:induction false} CountWithout(entries: seq<LedgerEntry>, k: nat, origin: Origin)
    requires k < |entries|
    ensures CountOf(Without(entries, k), origin) <= CountOf(entries, origin)
  {
    var x, y := entries[..k], entries[k + 1..];
    assert entries == x + ([entries[k]] + y);
    CountJoin(x, y, origin);
    CountJoin(x, [entries[k]] + y, origin);
    CountJoin([entries[k]], y, origin);
  }

  /** Where a session stands: its file reproduces it, or all of it but the one report that was appended
      to an unterminated line. */
  ghost predicate Whole(c: Checks, limits: Limits, s: Session) {
    Reproduces(c, limits, s.text, s.state.entries)
  }

  ghost predicate LostAt(c: Checks, limits: Limits, s: Session, k: nat) {
    && k < |s.state.entries| && Terminated(s.text)
    && Reproduces(c, limits, s.text, Without(s.state.entries, k))
  }

  lemma {:induction false} PersistCases(c: Checks, limits: Limits, s: Session, r: Report)
    requires Good(c, limits, s.state.entries)
    ensures var t := Persist(c, limits, s, r);
            && Good(c, limits, t.state.entries)
            && ((t.state.entries == s.state.entries && t.text == s.text)
                || exists e :: t.state.entries == s.state.entries + [e] && t.text == Appended(s.text, e))
  {
    hide Good, Admit, Render;
    AdmitKeeps(c, limits, s.state, r.a, r.b, r.origin);
    var v := Admit(c, limits, s.state, r.a, r.b, r.origin);
    if v.result == Ok(Recorded) {
      var key :| v.state.entries == s.state.entries + [LedgerEntry(r.origin, key, r.a, r.b)];
      var e := LedgerEntry(r.origin, key, r.a, r.b);
      assert v.state.entries[|v.state.entries| - 1] == e;
    }
  }

  lemma {:induction false} RunTerminated(c: Checks, limits: Limits, s: Session, reports: seq<Report>)
    requires Good(c, limits, s.state.entries) && Whole(c, limits, s) && Terminated(s.text)
    ensures var t := RunSession(c, limits, s, reports);
            Good(c, limits, t.state.entries) && Whole(c, limits, t) && Terminated(t.text)
  {
    hide Good, Persist, Reproduces, Terminated;
    if |reports| > 0 {
      var before := RunSession(c, limits, s, reports[..|reports| - 1]);
      RunTerminated(c, limits, s, reports[..|reports| - 1]);
      PersistCases(c, limits, before, reports[|reports| - 1]);
      var t := RunSession(c, limits, s, reports);
      if e :| t.state.entries == before.state.entries + [e] && t.text == Appended(before.text, e) {
        RecordReproducesIff(c, limits, before.text, before.state.entries, e);
      }
    }
  }

  lemma {:induction false} RunUnterminated(c: Checks, limits: Limits, s: Session, reports: seq<Report>)
    requires Good(c, limits, s.state.entries) && Whole(c, limits, s) && !Terminated(s.text)
    ensures var t := RunSession(c, limits, s, reports);
            && Good(c, limits, t.state.entries)
            && ((t.state.entries == s.state.entries && t.text == s.text) || LostAt(c, limits, t, |s.state.entries|))
  {
    hide Good, Persist, Reproduces, Terminated;
    if |reports| > 0 {
      var before := RunSession(c, limits, s, reports[..|reports| - 1]);
      RunUnterminated(c, limits, s, reports[..|reports| - 1]);
      PersistCases(c, limits, before, reports[|reports| - 1]);
      var t := RunSession(c, limits, s, reports);
      if e :| t.state.entries == before.state.entries + [e] && t.text == Appended(before.text, e) {
        UnterminatedStep(c, limits, s, before, t, e);
      }
    }
  }

  lemma {:induction false} UnterminatedStep(c: Checks, limits: Limits, s: Session, before: Session, t: Session,
                                            e: LedgerEntry)
    requires Whole(c, limits, s) && !Terminated(s.text)
    requires (before.state.entries == s.state.entries && before.text == s.text)
             || LostAt(c, limits, before, |s.state.entries|)
    requires t.state.entries == before.state.entries + [e] && t.text == Appended(before.text, e)
    requires Good(c, limits, t.state.entries)
    ensures LostAt(c, limits, t, |s.state.entries|)
  {
    hide Good, Reproduces, Terminated;
    var k := |s.state.entries|;
    if LostAt(c, limits, before, k) {
      var short := Without(before.state.entries, k);
      GoodWithout(c, limits, t.state.entries, k);
      assert Without(t.state.entries, k) == short + [e];
      RecordReproducesIff(c, limits, before.text, short, e);
    } else {
      assert Without(t.state.entries, k) == s.state.entries;
      RecordReproducesIff(c, limits, s.text, s.state.entries, e);
    }
  }

  lemma {:induction false} ReproducesOne(c: Checks, limits: Limits, text: FileText, entries: seq<LedgerEntry>,
                                         others: seq<LedgerEntry>)
    requires Reproduces(c, limits, text, entries) && Reproduces(c, limits, text, others)
    ensures entries == others
  {
  }

  /** Open any file, receive any reports, open again: the second open gives back exactly what the ledger
      held if and only if nothing was recorded or the file, as the first open left it, was terminated.
      Otherwise exactly the first report recorded is gone. */
  lemma {:induction false} ReopenIff(c: Checks, limits: Limits, text: FileText, reports: seq<Report>)
    requires Open(c, limits, text).Ok?
    ensures var view := Open(c, limits, text).value;
            var end := RunSession(c, limits, Session(view.state, view.text), reports);
            && (Reproduces(c, limits, end.text, end.state.entries)
                <==> (Terminated(view.text) || end.state.entries == view.state.entries))
            && (Reproduces(c, limits, end.text, end.state.entries)
                || LostAt(c, limits, end, |view.state.entries|))
  {
    hide Good, Open, Reproduces, Terminated, RunSession;
    OpenRepairs(c, limits, text);
    var view := Open(c, limits, text).value;
    var start := Session(view.state, view.text);
    var end := RunSession(c, limits, start, reports);
    if Terminated(view.text) {
      RunTerminated(c, limits, start, reports);
    } else {
      RunUnterminated(c, limits, start, reports);
      if LostAt(c, limits, end, |view.state.entries|) && Reproduces(c, limits, end.text, end.state.entries) {
        ReproducesOne(c, limits, end.text, end.state.entries, Without(end.state.entries, |view.state.entries|));
      }
    }
  }

  /** A file holding one genuine line without a newline: the next report recorded is not there after
      reopening. */
  lemma {:induction false} UnterminatedLosesReport(c: Checks, e: LedgerEntry, next: LedgerEntry)
    requires Proves(c, e) && Proves(c, next) && e.key != next.key && e.origin == next.origin == Detected
    ensures var limits := Limits(DETECTED_LIMIT, RECEIVED_LIMIT);
            var file: FileText := Some(Render(e));
            && Reproduces(c, limits, file, [e])
            && Admit(c, limits, State([e], NO_REFUSALS), next.a, next.b, Detected).state.entries == [e, next]
            && Reproduces(c, limits, Appended(file, next), [e])
  {
    hide Render, Reproduces, Terminated, Good, Admit, Appended;
    var limits := Limits(DETECTED_LIMIT, RECEIVED_LIMIT);
    TwoGood(c, limits, e, next);
    OneRendered(c, limits, e);
    RecordReproducesIff(c, limits, Some(Render(e)), [e], next);
  }

  lemma {:induction false} OneGood(c: Checks, limits: Limits, e: LedgerEntry)
    requires Proves(c, e) && e.origin == Detected && limits.detected >= 1
    ensures Good(c, limits, [e]) && CountOf([e], Detected) == 1
  {
    hide CountOf;
    NothingGood(c, limits);
    CountStep([], e, Detected);
    CountStep([], e, Received);
    assert [] + [e] == [e];
    NoneCounted();
  }

  lemma {:induction false} NoneCounted()
    ensures CountOf([], Detected) == 0 && CountOf([], Received) == 0
  {
  }

  lemma {:induction false} TwoGood(c: Checks, limits: Limits, e: LedgerEntry, next: LedgerEntry)
    requires Proves(c, e) && Proves(c, next) && e.key != next.key && e.origin == next.origin == Detected
    requires limits.detected >= 2
    ensures Good(c, limits, [e]) && [e] + [next] == [e, next] && Good(c, limits, [e] + [next])
    ensures Admit(c, limits, State([e], NO_REFUSALS), next.a, next.b, Detected).state.entries == [e, next]
  {
    OneGood(c, limits, e);
    hide CountOf, Good;
    AdmitKeeps(c, limits, State([e], NO_REFUSALS), next.a, next.b, Detected);
    assert LedgerEntry(Detected, next.key, next.a, next.b) == next;
  }

  lemma {:induction false} OneRendered(c: Checks, limits: Limits, e: LedgerEntry)
    requires Good(c, limits, [e])
    ensures Reproduces(c, limits, Some(Render(e)), [e]) && !Terminated(Some(Render(e)))
  {
    hide Render, Replay, ReplayLine, Trim;
    RenderOneLined(e);
    RenderValid(e);
    OneLine(Render(e));
    assert [] + [e] == [e];
    RenderedLine(c, limits, EMPTY, e);
    ReplayOne(c, limits, EMPTY, Render(e));
    RenderedText(e);
  }

  lemma {:induction false} RenderedText(e: LedgerEntry)
    ensures ValidUtf8(Render(e))
  {
    RenderValid(e);
    assert Render(e) + [NEWLINE] == Render(e) + [NEWLINE] + [];
    CutAtAscii(Render(e), NEWLINE, []);
  }
}
