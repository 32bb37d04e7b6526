/**
 * The fallback ICS scanner: a line-by-line state machine that the import runs
 * when the structured parser fails or yields no usable event. It knows only
 * `BEGIN:VEVENT`, `END:VEVENT` and six property names, reads the value between
 * the first and second colon, and decodes dates by character position. It does
 * no unfolding, no parameter handling and no unescaping.
 */
module FallbackScanner {
  import opened Wrappers
  import opened JsString
  import opened JsDate
  import opened Seqs
  import opened Records

  const BeginEvent: string := "BEGIN:VEVENT"
  const EndEvent: string := "END:VEVENT"
  const UntitledTitle: string := "Untitled Event"

  /** The event being filled in (`currentEvent`); `start`/`end` are `None` until a line sets them. */
  datatype Draft = Draft(
    id: Text,
    title: Text,
    description: Text,
    location: Text,
    category: string,
    start: Option<Time>,
    end: Option<Time>)

  /** The draft opened by a `BEGIN:VEVENT` on line `i`. */
  function Opened(i: nat, env: Env): Draft {
    Draft(Str(env.freshId(i)), Str(UntitledTitle), Str(""), Str(""), RandomCategory(env, i), None, None)
  }

  /** Both a start and an end were set (a `Date`, even an invalid one, is truthy). */
  predicate Complete(d: Draft) {
    d.start.Some? && d.end.Some?
  }

  /** The record pushed onto the result at `END:VEVENT`; `allDay` is always false. */
  function Commit(d: Draft): Event
    requires Complete(d)
  {
    Event(d.id, d.title, d.start.value, d.end.value, d.description, d.location, d.category, false)
  }

  /** `key` in `const [key, value] = line.split(':')`. */
  function Key(line: string): string {
    Split(line, ':')[0]
  }

  /** `value` in `const [key, value] = line.split(':')`: `undefined` when the line has no colon. */
  function Value(line: string): Text {
    var parts := Split(line, ':');
    if |parts| >= 2 then Str(parts[1]) else Undefined
  }

  /** The property names the scanner recognises; every other key is `OtherKey`. */
  datatype Field = SummaryKey | DescriptionKey | LocationKey | UidKey | DtStartKey | DtEndKey | OtherKey

  /** The chain of exact, case-sensitive comparisons on the key. */
  function FieldOf(key: string): Field {
    if key == "SUMMARY" then SummaryKey
    else if key == "DESCRIPTION" then DescriptionKey
    else if key == "LOCATION" then LocationKey
    else if key == "UID" then UidKey
    else if key == "DTSTART" then DtStartKey
    else if key == "DTEND" then DtEndKey
    else OtherKey
  }

  /** What a trimmed line is to the scanner, whatever its state. */
  datatype Line = BeginLine | EndLine | Property(field: Field, value: Text, stamp: Option<Time>)

  /** The trimmed line compared with the two markers, otherwise split into key and value. */
  function Classify(raw: string): Line {
    var line := Trim(raw);
    if line == BeginEvent then BeginLine
    else if line == EndEvent then EndLine
    else Property(FieldOf(Key(line)), Value(line), Decode(Value(line)))
  }

  /** `Number(slice || 0)`: an empty slice stands for 0. */
  function OrZero(slice: string): Num {
    if slice == "" then N(0) else ToNumber(slice)
  }

  /** The five numeric arguments of `new Date(year, month, day, hour, minute)`. */
  datatype Stamp = Stamp(year: int, month: int, day: int, hour: int, minute: int)

  /**
   * The positional reading of a date value: characters 0-3 are the year, 4-5 the
   * month (decremented to 0-based), 6-7 the day, 9-10 the hour and 11-12 the
   * minute; `None` when any of them converts to NaN.
   */
  function StampFields(v: string): Option<Stamp> {
    var year := ToNumber(Substring(v, 0, 4));
    var month := Minus(ToNumber(Substring(v, 4, 6)), 1);
    var day := ToNumber(Substring(v, 6, 8));
    var hour := OrZero(Substring(v, 9, 11));
    var minute := OrZero(Substring(v, 11, 13));
    if year.NaN? || month.NaN? || day.NaN? || hour.NaN? || minute.NaN? then None
    else Some(Stamp(year.n, month.n, day.n, hour.n, minute.n))
  }

  /** `new Date(year, month, day, hour, minute)` on the positional reading; NaN gives `Invalid Date`. */
  function DecodeStamp(v: string): Time {
    match StampFields(v)
    case None => Invalid
    case Some(f) => MakeLocal(f.year, f.month, f.day, f.hour, f.minute)
  }

  /**
   * A property value read as a date: `None` when the value is `undefined`, where
   * `value.substring` throws and the scanner's `catch` branch runs instead.
   */
  function Decode(value: Text): Option<Time> {
    if value.Str? then Some(DecodeStamp(value.s)) else None
  }

  /**
   * One property line applied to the open draft, given its value and that value
   * read as a date. A `DTSTART` whose decode throws falls back to now; a `DTEND`
   * whose decode throws to one hour after the start, or after now when no start
   * is set yet. Unrecognised keys, including one carrying parameters such as
   * `DTSTART;VALUE=DATE`, are ignored.
   */
  function Assign(d: Draft, f: Field, value: Text, stamp: Option<Time>, now: Epoch): Draft {
    match f
    case SummaryKey => d.(title := value)
    case DescriptionKey => d.(description := value)
    case LocationKey => d.(location := value)
    case UidKey => d.(id := value)
    case DtStartKey =>
      d.(start := Some(if stamp.Some? then stamp.value else At(now)))
    case DtEndKey =>
      d.(end := Some(if stamp.Some? then stamp.value
                     else AddMs(if d.start.Some? then d.start.value else At(now), MsPerHour)))
    case OtherKey => d
  }

  /** The scanner's state between lines: the open draft, if any, and the events committed so far. */
  datatype ScanState = ScanState(open: Option<Draft>, committed: seq<Event>)

  /** The scanner's reaction to the `i`-th line of the file. */
  function Step(st: ScanState, l: Line, i: nat, env: Env): ScanState {
    match l
    case BeginLine => ScanState(Some(Opened(i, env)), st.committed)
    case EndLine =>
      if st.open.None? then st
      else ScanState(None, if Complete(st.open.value) then st.committed + [Commit(st.open.value)] else st.committed)
    case Property(f, value, stamp) =>
      if st.open.None? then st
      else ScanState(Some(Assign(st.open.value, f, value, stamp, env.now)), st.committed)
  }

  /** The state after the given classified lines, starting with nothing open and nothing committed. */
  function Machine(ls: seq<Line>, env: Env): ScanState
    decreases |ls|
  {
    if ls == [] then ScanState(None, [])
    else Step(Machine(ls[..|ls| - 1], env), ls[|ls| - 1], |ls| - 1, env)
  }

  /** Every line of a file, classified. */
  function ClassifyAll(lines: seq<string>): (ls: seq<Line>)
    ensures |ls| == |lines|
    decreases |lines|
  {
    if lines == [] then [] else ClassifyAll(lines[..|lines| - 1]) + [Classify(lines[|lines| - 1])]
  }

  /** `icsData.split('\n')`. */
  function Lines(data: string): seq<string> {
    Split(data, '\n')
  }

  /** The events the scanner returns for a whole file. */
  function Scan(data: string, env: Env): seq<Event> {
    Machine(ClassifyAll(Lines(data)), env).committed
  }

  /** The body of the `else if (currentEvent)` branch, once the key has been matched. */
  method ApplyProperty(draft: Draft, field: Field, value: Text, now: Epoch) returns (d: Draft)
    ensures d == Assign(draft, field, value, Decode(value), now)
  {
    d := draft;
    match field {
      case SummaryKey => d := d.(title := value);
      case DescriptionKey => d := d.(description := value);
      case LocationKey => d := d.(location := value);
      case UidKey => d := d.(id := value);
      case DtStartKey =>
        if value.Str? {
          d := d.(start := Some(DecodeStamp(value.s)));
        } else {
          d := d.(start := Some(At(now)));
        }
      case DtEndKey =>
        if value.Str? {
          d := d.(end := Some(DecodeStamp(value.s)));
        } else if d.start.Some? {
          d := d.(end := Some(AddMs(d.start.value, MsPerHour)));
        } else {
          d := d.(end := Some(AddMs(At(now), MsPerHour)));
        }
      case OtherKey =>
    }
  }

  /** The scanning loop, with `currentEvent` and `manuallyParsedEvents` updated line by line. */
  method ParseFallback(data: string, env: Env) returns (events: seq<Event>)
    ensures events == Scan(data, env)
  {
    var lines := Split(data, '\n');
    var current: Option<Draft> := None;
    var parsed: seq<Event> := [];
    for i := 0 to |lines|
      invariant ScanState(current, parsed) == Machine(ClassifyAll(lines[..i]), env)
    {
      assert lines[..i + 1][..i] == lines[..i];
      var kind := Classify(lines[i]);
      match kind {
        case BeginLine =>
          current := Some(Opened(i, env));
        case EndLine =>
          if current.Some? {
            if current.value.start.Some? && current.value.end.Some? {
              parsed := parsed + [Commit(current.value)];
            }
            current := None;
          }
        case Property(field, value, _) =>
          if current.Some? {
            var d := ApplyProperty(current.value, field, value, env.now);
            current := Some(d);
          }
      }
    }
    assert lines[..|lines|] == lines;
    events := parsed;
  }

  // ---------------------------------------------------------------------------
  // Key and value of a line

  /**
   * A line `key:value` followed by nothing or by a further colon yields exactly
   * that key and that value: the value stops at the second colon.
   */
  lemma KeyValueOfLine(key: string, value: string, rest: string)
    requires ':' !in key && ':' !in value
    requires rest == [] || rest[0] == ':'
    ensures Key(key + [':'] + value + rest) == key
    ensures Value(key + [':'] + value + rest) == Str(value)
  {
    var line := key + [':'] + value + rest;
    assert line == key + [':'] + (value + rest);
    IndexOfAfterFree(key, value + rest, ':');
    assert line[..|key|] == key;
    var tail := line[|key| + 1..];
    assert tail == value + rest;
    assert Split(line, ':') == [key] + Split(tail, ':');
    if rest == [] {
      assert tail == value;
      IndexOfFree(value, ':');
      assert Split(tail, ':') == [value];
    } else {
      assert tail == value + [':'] + rest[1..];
      IndexOfAfterFree(value, rest[1..], ':');
      assert tail[..|value|] == value;
      assert Split(tail, ':')[0] == value;
    }
  }

  /** A line without a colon is all key, and its value is `undefined`. */
  lemma KeyValueWithoutColon(line: string)
    requires ':' !in line
    ensures Key(line) == line
    ensures Value(line) == Undefined
  {
    IndexOfFree(line, ':');
  }

  /** Key matching is exact: parameters or lower case make a key unrecognised. */
  lemma KeyMatchingIsExact()
    ensures FieldOf("DTSTART") == DtStartKey && FieldOf("DTEND") == DtEndKey
    ensures FieldOf("DTSTART;VALUE=DATE") == OtherKey
    ensures FieldOf("DTSTART;TZID=Europe/Paris") == OtherKey
    ensures FieldOf("summary") == OtherKey
  {
  }

  /**
   * A property line without surrounding white space is classified by its key
   * and carries the text between its first and second colon.
   */
  lemma ClassifyProperty(key: string, value: string, rest: string)
    requires ':' !in key && ':' !in value
    requires rest == [] || rest[0] == ':'
    requires var line := key + [':'] + value + rest;
      Trim(line) == line && line != BeginEvent && line != EndEvent
    ensures Classify(key + [':'] + value + rest) == Property(FieldOf(key), Str(value), Some(DecodeStamp(value)))
  {
    KeyValueOfLine(key, value, rest);
  }

  /** A later line for the same key overwrites what an earlier one assigned. */
  lemma LaterAssignmentWins(d: Draft, f: Field, v1: Text, s1: Option<Time>, v2: Text, s2: Option<Time>, now: Epoch)
    ensures Assign(Assign(d, f, v1, s1, now), f, v2, s2, now) == Assign(d, f, v2, s2, now)
  {
  }

  /**
   * Lines for different keys may come in any order, except that a `DTEND`
   * without a value depends on whether `DTSTART` came before it.
   */
  lemma AssignmentsCommute(d: Draft, f1: Field, v1: Text, s1: Option<Time>, f2: Field, v2: Text, s2: Option<Time>, now: Epoch)
    requires f1 != f2
    requires !(f1 == DtStartKey && f2 == DtEndKey && s2.None?)
    requires !(f2 == DtStartKey && f1 == DtEndKey && s1.None?)
    ensures Assign(Assign(d, f1, v1, s1, now), f2, v2, s2, now) == Assign(Assign(d, f2, v2, s2, now), f1, v1, s1, now)
  {
  }

  /** Where the order does matter: the hour-long default follows whatever start is set by then. */
  lemma EndDefaultFollowsStart(d: Draft, v: Text, t: Time, now: Epoch)
    requires d.start.None?
    ensures Assign(Assign(d, DtStartKey, v, Some(t), now), DtEndKey, Undefined, None, now).end ==
      Some(AddMs(t, MsPerHour))
    ensures Assign(Assign(d, DtEndKey, Undefined, None, now), DtStartKey, v, Some(t), now).end ==
      Some(AddMs(At(now), MsPerHour))
  {
  }

  // ---------------------------------------------------------------------------
  // Date decoding

  /** A slice made only of digits converts to its value. */
  lemma SliceNumber(v: string, a: nat, b: nat)
    requires a <= b <= |v| && AllDigits(v[a..b])
    ensures ToNumber(Substring(v, a, b)) == N(DigitsValue(v[a..b]))
  {
    assert Substring(v, a, b) == v[a..b];
    ToNumberDigits(v[a..b]);
  }

  /**
   * A value whose first eight characters are the digits `YYYYMMDD` decodes to
   * that local date, the month taken 1-based in the text; when characters 9-12
   * are the digits `HHMM` they give the hour and minute, and a bare `YYYYMMDD`
   * is midnight.
   */
  lemma DecodeDigits(v: string)
    requires |v| >= 8 && AllDigits(v[0..4]) && AllDigits(v[4..6]) && AllDigits(v[6..8])
    requires |v| == 8 || (|v| >= 13 && AllDigits(v[9..11]) && AllDigits(v[11..13]))
    ensures StampFields(v) == Some(Stamp(
      DigitsValue(v[0..4]), DigitsValue(v[4..6]) - 1, DigitsValue(v[6..8]),
      if |v| == 8 then 0 else DigitsValue(v[9..11]),
      if |v| == 8 then 0 else DigitsValue(v[11..13])))
  {
    SliceNumber(v, 0, 4);
    SliceNumber(v, 4, 6);
    SliceNumber(v, 6, 8);
    if |v| == 8 {
      assert Substring(v, 9, 11) == [] && Substring(v, 11, 13) == [];
    } else {
      SliceNumber(v, 9, 11);
      SliceNumber(v, 11, 13);
    }
  }

  lemma DayOfExample()
    ensures MakeDay(2024, 5, 15) == 19889
  {
    assert (2024 - 1969) / 4 == 13 && (2024 - 1901) / 100 == 1 && (2024 - 1601) / 400 == 1;
    assert DayFromYear(2024) == 19723;
    DaysBeforeMonthTable(2024, 5);
    assert 5 / 12 == 0 && 5 % 12 == 5;
  }

  lemma DigitsExample()
    ensures DigitsValue("2024") == 2024 && DigitsValue("06") == 6 && DigitsValue("15") == 15
    ensures DigitsValue("14") == 14 && DigitsValue("30") == 30
  {
    assert "2024"[..3] == "202" && "202"[..2] == "20" && "20"[..1] == "2" && "2"[..0] == "";
    assert "06"[..1] == "0" && "0"[..0] == "";
    assert "15"[..1] == "1" && "1"[..0] == "";
    assert "14"[..1] == "1";
    assert "30"[..1] == "3" && "3"[..0] == "";
  }

  /** `20240615T143000` is 2024-06-15 14:30 naive local time. */
  lemma DecodeExample()
    ensures DecodeStamp("20240615T143000") == At(1_718_461_800_000)
  {
    var v := "20240615T143000";
    assert v[0..4] == "2024" && v[4..6] == "06" && v[6..8] == "15";
    assert v[9..11] == "14" && v[11..13] == "30";
    DecodeDigits(v);
    DigitsExample();
    assert StampFields(v) == Some(Stamp(2024, 5, 15, 14, 30));
    DayOfExample();
  }

  // ---------------------------------------------------------------------------
  // The state machine over whole files

  lemma MachineSnoc(ls: seq<Line>, l: Line, env: Env)
    ensures Machine(ls + [l], env) == Step(Machine(ls, env), l, |ls|, env)
  {
    assert (ls + [l])[..|ls|] == ls;
  }

  lemma ClassifyAllSnoc(lines: seq<string>, line: string)
    ensures ClassifyAll(lines + [line]) == ClassifyAll(lines) + [Classify(line)]
  {
    assert (lines + [line])[..|lines|] == lines;
  }

  /**
   * `BEGIN:VEVENT` opens a fresh draft whatever was open before: an unfinished
   * event is discarded, and nothing is committed.
   */
  lemma BeginDiscardsOpenDraft(ls: seq<Line>, env: Env)
    ensures Machine(ls + [BeginLine], env) == ScanState(Some(Opened(|ls|, env)), Machine(ls, env).committed)
  {
    MachineSnoc(ls, BeginLine, env);
  }

  /**
   * `END:VEVENT` with nothing open is ignored; with a draft open it closes the
   * draft, and commits it (at the end of the result) only if both start and end
   * were set.
   */
  lemma EndClosesDraft(ls: seq<Line>, env: Env)
    ensures var before := Machine(ls, env);
      Machine(ls + [EndLine], env) ==
        if before.open.None? then before
        else ScanState(None, before.committed + (if Complete(before.open.value) then [Commit(before.open.value)] else []))
  {
    MachineSnoc(ls, EndLine, env);
  }

  lemma StepKeepsCommitted(st: ScanState, l: Line, i: nat, env: Env)
    ensures st.committed <= Step(st, l, i, env).committed
  {
  }

  /** Committed events are never removed or reordered: later lines only append. */
  lemma {:induction false} CommittedOnlyGrows(ls: seq<Line>, more: seq<Line>, env: Env)
    ensures Machine(ls, env).committed <= Machine(ls + more, env).committed
    decreases |more|
  {
    if more == [] {
      assert ls + more == ls;
    } else {
      var init, last := more[..|more| - 1], more[|more| - 1];
      CommittedOnlyGrows(ls, init, env);
      assert ls + more == (ls + init) + [last];
      MachineSnoc(ls + init, last, env);
      StepKeepsCommitted(Machine(ls + init, env), last, |ls + init|, env);
    }
  }

  /** Lines while no event is open, none of them a `BEGIN:VEVENT`, change nothing. */
  lemma {:induction false} IdleLinesIgnored(ls: seq<Line>, more: seq<Line>, env: Env)
    requires Machine(ls, env).open.None?
    requires forall i :: 0 <= i < |more| ==> more[i] != BeginLine
    ensures Machine(ls + more, env) == Machine(ls, env)
    decreases |more|
  {
    if more == [] {
      assert ls + more == ls;
    } else {
      var init, last := more[..|more| - 1], more[|more| - 1];
      IdleLinesIgnored(ls, init, env);
      assert ls + more == (ls + init) + [last];
      MachineSnoc(ls + init, last, env);
    }
  }

  /** The draft after applying property lines in order. */
  function Fill(d: Draft, body: seq<Line>, now: Epoch): Draft
    requires forall i :: 0 <= i < |body| ==> body[i].Property?
    decreases |body|
  {
    if body == [] then d
    else
      var l := body[|body| - 1];
      Assign(Fill(d, body[..|body| - 1], now), l.field, l.value, l.stamp, now)
  }

  /** Property lines inside an open event only fill in the open draft. */
  lemma {:induction false} BodyFills(ls: seq<Line>, body: seq<Line>, env: Env)
    requires Machine(ls, env).open.Some?
    requires forall i :: 0 <= i < |body| ==> body[i].Property?
    ensures Machine(ls + body, env) ==
      ScanState(Some(Fill(Machine(ls, env).open.value, body, env.now)), Machine(ls, env).committed)
    decreases |body|
  {
    if body == [] {
      assert ls + body == ls;
    } else {
      var init, last := body[..|body| - 1], body[|body| - 1];
      BodyFills(ls, init, env);
      assert ls + body == (ls + init) + [last];
      MachineSnoc(ls + init, last, env);
    }
  }

  /**
   * A block `BEGIN:VEVENT`, property lines, `END:VEVENT` is scanned on its own:
   * whatever came before, it appends exactly the record its property lines
   * describe, provided they set a start and an end, and leaves nothing open.
   */
  lemma BlockScan(ls: seq<Line>, body: seq<Line>, env: Env)
    requires forall i :: 0 <= i < |body| ==> body[i].Property?
    ensures var d := Fill(Opened(|ls|, env), body, env.now);
      Machine(ls + [BeginLine] + body + [EndLine], env) ==
        ScanState(None, Machine(ls, env).committed + (if Complete(d) then [Commit(d)] else []))
  {
    var started := ls + [BeginLine];
    BeginDiscardsOpenDraft(ls, env);
    assert Machine(started, env).open == Some(Opened(|ls|, env));
    BodyFills(started, body, env);
    var d := Fill(Opened(|ls|, env), body, env.now);
    assert Machine(started + body, env) == ScanState(Some(d), Machine(ls, env).committed);
    EndClosesDraft(started + body, env);
  }

  /** At most one event is committed per `END:VEVENT` line. */
  lemma {:induction false} AtMostOnePerEnd(ls: seq<Line>, env: Env)
    ensures |Machine(ls, env).committed| <= Count(ls, (l: Line) => l.EndLine?)
    decreases |ls|
  {
    if ls != [] {
      var init, last := ls[..|ls| - 1], ls[|ls| - 1];
      AtMostOnePerEnd(init, env);
      CountSnoc(init, last, (l: Line) => l.EndLine?);
      assert ls == init + [last];
    }
  }

  lemma {:induction false} CountSnoc<T>(s: seq<T>, x: T, p: T -> bool)
    ensures Count(s + [x], p) == Count(s, p) + (if p(x) then 1 else 0)
    decreases |s|
  {
    if s != [] {
      assert (s + [x])[1..] == s[1..] + [x];
      CountSnoc(s[1..], x, p);
    }
  }

  /** The open draft's category, and every committed record's, is one of the palette's ids; no record is all-day. */
  lemma {:induction false} CommittedShape(ls: seq<Line>, env: Env)
    requires ValidEnv(env)
    ensures forall e :: e in Machine(ls, env).committed ==> !e.allDay && IsCategoryId(e.category)
    ensures Machine(ls, env).open.Some? ==> IsCategoryId(Machine(ls, env).open.value.category)
    decreases |ls|
  {
    if ls != [] {
      CommittedShape(ls[..|ls| - 1], env);
    }
  }

  /** `Fill` never sets a start or an end that no line of the body names. */
  lemma {:induction false} FillKeepsDates(d: Draft, body: seq<Line>, now: Epoch)
    requires forall i :: 0 <= i < |body| ==> body[i].Property?
    ensures (forall i :: 0 <= i < |body| ==> body[i].field != DtStartKey) ==> Fill(d, body, now).start == d.start
    ensures (forall i :: 0 <= i < |body| ==> body[i].field != DtEndKey) ==> Fill(d, body, now).end == d.end
    decreases |body|
  {
    if body != [] {
      FillKeepsDates(d, body[..|body| - 1], now);
    }
  }

  /**
   * A block without a `DTSTART` line, or without a `DTEND` line, is dropped: it
   * commits nothing, whatever its other lines say.
   */
  lemma BlockWithoutDatesDropped(ls: seq<Line>, body: seq<Line>, env: Env)
    requires forall i :: 0 <= i < |body| ==> body[i].Property?
    requires (forall i :: 0 <= i < |body| ==> body[i].field != DtStartKey)
          || (forall i :: 0 <= i < |body| ==> body[i].field != DtEndKey)
    ensures Machine(ls + [BeginLine] + body + [EndLine], env) == ScanState(None, Machine(ls, env).committed)
  {
    BlockScan(ls, body, env);
    FillKeepsDates(Opened(|ls|, env), body, env.now);
  }

  /**
   * A block whose last line is a `DTEND` without a value ends one hour after the
   * start set before it, while one whose last line is a dated `DTEND` ends there.
   */
  lemma BlockEndDefault(ls: seq<Line>, body: seq<Line>, end: Line, env: Env)
    requires forall i :: 0 <= i < |body| ==> body[i].Property?
    requires end.Property? && end.field == DtEndKey
    requires Fill(Opened(|ls|, env), body, env.now).start.Some?
    ensures var d := Fill(Opened(|ls|, env), body, env.now);
      Machine(ls + [BeginLine] + (body + [end]) + [EndLine], env).committed ==
        Machine(ls, env).committed +
          [Commit(d.(end := Some(if end.stamp.Some? then end.stamp.value else AddMs(d.start.value, MsPerHour))))]
  {
    var full := body + [end];
    assert full[..|full| - 1] == body;
    BlockScan(ls, full, env);
  }

  /** A line that trims to a property without a colon carries no value and no date. */
  lemma ClassifyBareKey(raw: string)
    requires ':' !in Trim(raw) && Trim(raw) != BeginEvent && Trim(raw) != EndEvent
    ensures Classify(raw) == Property(FieldOf(Trim(raw)), Undefined, None)
  {
    KeyValueWithoutColon(Trim(raw));
  }
}
