/** The equivocation ledger (client/src/evidence.rs): a bounded, deduplicating record kept in a file that
    anybody may have written. Whether a pair is evidence, and which fact it is evidence of, are
    parameters. */
module Evidence {
  import opened Base
  import opened Utf8
  import opened EvidenceText

  datatype Origin = Detected | Received

  const DETECTED_LIMIT: nat := 1_024
  const RECEIVED_LIMIT: nat := 256

  /** The identity of a fact: text without a quote or a newline. */
  type FactKey = s: Str | QuoteFree(s) witness []

  /** The two functions of the verifier that the ledger calls. */
  datatype Checks = Checks(isEvidence: (Octets, Octets) -> bool, keyOf: Octets -> Option<FactKey>)

  datatype LedgerEntry = LedgerEntry(origin: Origin, key: FactKey, a: Octets, b: Octets)

  datatype Outcome = Recorded | Duplicate | Unverified | Full

  datatype Refusals = Refusals(unverified: nat, full: nat, unreadable: nat)

  datatype EvidenceError = Io | Malformed

  datatype Limits = Limits(detected: nat, received: nat) {
    function For(origin: Origin): nat {
      if origin.Detected? then detected else received
    }
  }

  /** Never looser than the protocol. */
  function Clamped(l: Limits): Limits {
    Limits(Min(l.detected, DETECTED_LIMIT), Min(l.received, RECEIVED_LIMIT))
  }

  // ----- one report -----

  /** What a ledger holds in memory. */
  datatype State = State(entries: seq<LedgerEntry>, refusals: Refusals)

  const NO_REFUSALS: Refusals := Refusals(0, 0, 0)
  const EMPTY: State := State([], NO_REFUSALS)

  function CountOf(entries: seq<LedgerEntry>, origin: Origin): (n: nat)
    ensures n <= |entries|
  {
    if |entries| == 0 then 0
    else CountOf(entries[..|entries| - 1], origin) + if entries[|entries| - 1].origin == origin then 1 else 0
  }

  predicate Holds(entries: seq<LedgerEntry>, key: Octets) {
    exists i :: 0 <= i < |entries| && entries[i].key == key
  }

  /** The state after a report, and what became of it. */
  datatype Verdict = Verdict(state: State, result: Result<Outcome, EvidenceError>)

  /** The one door: verify, identify, deduplicate, then charge a budget. */
  function Admit(c: Checks, limits: Limits, s: State, a: Octets, b: Octets, origin: Origin): Verdict {
    if !c.isEvidence(a, b) then
      Verdict(s.(refusals := s.refusals.(unverified := s.refusals.unverified + 1)), Ok(Unverified))
    else
      match c.keyOf(a)
      case None => Verdict(s, Err(Malformed))
      case Some(key) =>
        if Holds(s.entries, key) then Verdict(s, Ok(Duplicate))
        else if CountOf(s.entries, origin) >= limits.For(origin) then
          Verdict(s.(refusals := s.refusals.(full := s.refusals.full + 1)), Ok(Full))
        else Verdict(s.(entries := s.entries + [LedgerEntry(origin, key, a, b)]), Ok(Recorded))
  }

  // ----- the file -----

  const ORIGIN: Octets := Ascii("origin")
  const KEY: Octets := Ascii("key")
  const A: Octets := Ascii("a")
  const B: Octets := Ascii("b")

  function OriginText(origin: Origin): Octets {
    if origin.Detected? then Ascii("detected") else Ascii("received")
  }

  function ParseOrigin(text: Octets): Option<Origin> {
    if text == Ascii("detected") then Some(Detected)
    else if text == Ascii("received") then Some(Received)
    else None
  }

  function Render(e: LedgerEntry): Octets {
    ['{' as int] + Pair(ORIGIN, OriginText(e.origin)) + BETWEEN + Pair(KEY, e.key) + BETWEEN + Pair(A, Hex(e.a))
     + BETWEEN
    + Pair(B, Hex(e.b)) + ['}' as int]
  }

  /** A line as a report: the key it carries is read and not used. */
  datatype Line = Line(origin: Origin, key: Octets, a: Octets, b: Octets)

  function ParseLine(line: Octets): Option<Line> {
    match (Field(line, ORIGIN), Field(line, KEY), Field(line, A), Field(line, B))
    case (Some(origin), Some(key), Some(a), Some(b)) =>
      (match (ParseOrigin(origin), Unhex(a), Unhex(b))
       case (Some(o), Some(x), Some(y)) => Some(Line(o, key, x, y))
       case _ => None)
    case _ => None
  }

  function Unreadable(s: State): State {
    s.(refusals := s.refusals.(unreadable := s.refusals.unreadable + 1))
  }

  /** One line of the file through the same door; blank lines are passed over, anything not recorded is
      counted as unreadable. */
  function ReplayLine(c: Checks, limits: Limits, s: State, line: Octets): Result<State, EvidenceError> {
    var text := Trim(line);
    if text == [] then Ok(s)
    else
      match ParseLine(text)
      case None => Ok(Unreadable(s))
      case Some(report) =>
        var v := Admit(c, limits, s, report.a, report.b, report.origin);
        var outcome :- v.result;
        Ok(if outcome == Recorded then v.state else Unreadable(v.state))
  }

  function Replay(c: Checks, limits: Limits, s: State, lines: seq<Octets>): Result<State, EvidenceError>
    decreases |lines|
  {
    if |lines| == 0 then Ok(s)
    else
      var next :- ReplayLine(c, limits, s, lines[0]);
      Replay(c, limits, next, lines[1..])
  }

  function RenderAll(entries: seq<LedgerEntry>): Octets
  {
    if |entries| == 0 then [] else RenderAll(entries[..|entries| - 1]) + (Render(entries[|entries| - 1]) + [NEWLINE])
  }

  /** The file of a view: absent, or some octets. */
  type FileText = Option<Octets>

  datatype Opened = Opened(state: State, text: FileText)

  /** Opening: replay what is there, and write back what verified when anything did not. */
  function Open(c: Checks, limits: Limits, text: FileText): Result<Opened, EvidenceError> {
    match text
    case None => Ok(Opened(EMPTY, None))
    case Some(octets) =>
      if !ValidUtf8(octets) then Err(Io)
      else
        var state :- Replay(c, limits, EMPTY, Lines(octets));
        Ok(Opened(state, if state.refusals.unreadable > 0 then Some(RenderAll(state.entries)) else text))
  }

  /** Appending one line, to a file that is created when it is absent. */
  function Appended(text: FileText, e: LedgerEntry): FileText {
    Some((if text.Some? then text.value else []) + (Render(e) + [NEWLINE]))
  }

  // ----- the ledger as an object -----

  class LedgerFile {
    var text: FileText

    constructor (text: FileText)
      ensures this.text == text
    {
      this.text := text;
    }
  }

  class EvidenceLedger {
    const checks: Checks
    const limits: Limits
    const file: LedgerFile
    var entries: seq<LedgerEntry>
    var refusals: Refusals

    constructor (checks: Checks, limits: Limits, file: LedgerFile)
      ensures this.checks == checks && this.limits == Clamped(limits) && this.file == file
      ensures Holding() == EMPTY
    {
      this.checks := checks;
      this.limits := Clamped(limits);
      this.file := file;
      this.entries := [];
      this.refusals := NO_REFUSALS;
    }

    /** What the ledger holds, as a value. */
    function Holding(): State
      reads this
    {
      State(entries, refusals)
    }

    method Count(origin: Origin) returns (n: nat)
      ensures n == CountOf(entries, origin)
    {
      n := 0;
      for i := 0 to |entries|
        invariant n == CountOf(entries[..i], origin)
      {
        assert entries[..i + 1][..i] == entries[..i];
        if entries[i].origin == origin {
          n := n + 1;
        }
      }
      assert entries[..|entries|] == entries;
    }

    /** Whether the fact is recorded already, under either origin. */
    method Known(key: Octets) returns (known: bool)
      ensures known == Holds(entries, key)
    {
      for i := 0 to |entries|
        invariant forall j :: 0 <= j < i ==> entries[j].key != key
      {
        if entries[i].key == key {
          return true;
        }
      }
      known := false;
    }

    /** Nothing can be gained by looking for this fact's other half: it is recorded, or its budget is spent. */
    method Settled(key: Octets, origin: Origin) returns (settled: bool)
      ensures settled <==> Holds(entries, key) || CountOf(entries, origin) >= limits.For(origin)
    {
      var known := Known(key);
      var count := Count(origin);
      settled := known || count >= limits.For(origin);
    }

    method AdmitReport(a: Octets, b: Octets, origin: Origin, persist: bool) returns (r: Result<Outcome, EvidenceError>)
      modifies this, file
      ensures Verdict(Holding(), r) == Admit(checks, limits, old(Holding()), a, b, origin)
      ensures file.text == if persist && r == Ok(Recorded) then Appended(old(file.text), entries[|entries| - 1])
                           else old(file.text)
      ensures r == Ok(Recorded) ==> |entries| == |old(entries)| + 1
    {
      if !checks.isEvidence(a, b) {
        refusals := refusals.(unverified := refusals.unverified + 1);
        return Ok(Unverified);
      }
      var key := checks.keyOf(a);
      if key.None? {
        return Err(Malformed);
      }
      var known := Known(key.value);
      if known {
        return Ok(Duplicate);
      }
      var count := Count(origin);
      if count >= limits.For(origin) {
        refusals := refusals.(full := refusals.full + 1);
        return Ok(Full);
      }
      var entry := LedgerEntry(origin, key.value, a, b);
      if persist {
        file.text := Appended(file.text, entry);
      }
      entries := entries + [entry];
      r := Ok(Recorded);
    }

    /** Record a pair, if it is evidence and there is room. */
    method Record(a: Octets, b: Octets, origin: Origin) returns (r: Result<Outcome, EvidenceError>)
      modifies this, file
      ensures Verdict(Holding(), r) == Admit(checks, limits, old(Holding()), a, b, origin)
      ensures file.text == if r == Ok(Recorded) then Appended(old(file.text),
                                                              entries[|entries| - 1]) else old(file.text)
      ensures r == Ok(Recorded) ==> |entries| == |old(entries)| + 1
    {
      r := AdmitReport(a, b, origin, true);
    }

    /** Write the ledger out. */
    method Write()
      modifies file
      ensures file.text == Some(RenderAll(entries))
    {
      var text: Octets := [];
      for i := 0 to |entries|
        invariant text == RenderAll(entries[..i])
        invariant file.text == old(file.text)
      {
        assert entries[..i + 1][..i] == entries[..i];
        text := text + (Render(entries[i]) + [NEWLINE]);
      }
      assert entries[..|entries|] == entries;
      file.text := Some(text);
    }

    /** Replay the lines of the file. */
    method Load(lines: seq<Octets>) returns (r: Base.Outcome<EvidenceError>)
      modifies this, file
      ensures file.text == old(file.text)
      ensures match Replay(checks, limits, old(Holding()), lines)
              case Err(e) => r == Fail(e)
              case Ok(state) => r.Pass? && Holding() == state
    {
      hide Replay, Admit, Trim, ParseLine;
      assert lines[0..] == lines;
      for i := 0 to |lines|
        invariant file.text == old(file.text)
        invariant Replay(checks, limits, old(Holding()), lines) == Replay(checks, limits, Holding(), lines[i..])
      {
        assert lines[i..][1..] == lines[i + 1..];
        ReplayStep(checks, limits, Holding(), lines[i..]);
        var line := Trim(lines[i]);
        if line == [] {
          continue;
        }
        var report := ParseLine(line);
        if report.None? {
          refusals := refusals.(unreadable := refusals.unreadable + 1);
          continue;
        }
        var outcome := AdmitReport(report.value.a, report.value.b, report.value.origin, false);
        if outcome.Err? {
          return Fail(outcome.error);
        }
        if outcome.value != Recorded {
          refusals := refusals.(unreadable := refusals.unreadable + 1);
        }
      }
      ReplayDone(checks, limits, Holding(), lines[|lines|..]);
      r := Pass;
    }
  }

  lemma {:induction false} ReplayStep(c: Checks, limits: Limits, s: State, lines: seq<Octets>)
    requires |lines| > 0
    ensures Replay(c, limits, s, lines) == match ReplayLine(c, limits, s, lines[0])
                                           case Err(e) => Err(e)
                                           case Ok(next) => Replay(c, limits, next, lines[1..])
  {
  }

  lemma {:induction false} ReplayDone(c: Checks, limits: Limits, s: State, lines: seq<Octets>)
    requires |lines| == 0
    ensures Replay(c, limits, s, lines) == Ok(s)
  {
  }

  /** Open the ledger of a file, repairing the file when a line of it did not verify. */
  method OpenWithLimits(checks: Checks, limits: Limits, file: LedgerFile)
    returns (r: Result<EvidenceLedger, EvidenceError>)
    modifies file
    ensures match Open(checks, Clamped(limits), old(file.text))
            case Err(e) => r == Err(e) && file.text == old(file.text)
            case Ok(view) =>
              && r.Ok? && fresh(r.value) && r.value.file == file && r.value.checks == checks
              && r.value.limits == Clamped(limits) && r.value.Holding() == view.state && file.text == view.text
  {
    var ledger := new EvidenceLedger(checks, limits, file);
    if file.text.Some? {
      if !ValidUtf8(file.text.value) {
        return Err(Io);
      }
      var outcome := ledger.Load(Lines(file.text.value));
      if outcome.Fail? {
        return Err(outcome.error);
      }
    }
    if ledger.refusals.unreadable > 0 {
      ledger.Write();
    }
    r := Ok(ledger);
  }
}
