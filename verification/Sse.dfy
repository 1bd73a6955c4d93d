/** `internal/sse/sse.go`: cutting an event stream into lines as its bytes arrive, and interpreting the
    lines as sections 9.2.5 and 9.2.6 of the WHATWG HTML Standard say. */
module Sse {
  import opened Text

  // ----- lines -----

  predicate IsBreak(c: char) { c == '\n' || c == '\r' }

  /** Index of the first line break in s, or |s|. */
  function FirstBreak(s: string): (i: nat)
    ensures i <= |s|
    ensures forall k :: 0 <= k < i ==> !IsBreak(s[k])
    ensures i < |s| ==> IsBreak(s[i])
  {
    if s == "" || IsBreak(s[0]) then 0 else 1 + FirstBreak(s[1..])
  }

  /** What a split function tells the scanner: read more, or here is a line and what it used up. */
  datatype Cut = NeedMore | Line(advance: nat, token: string)

  function CutLine(data: string, atEOF: bool): (c: Cut)
    ensures c.Line? ==> 0 < c.advance <= |data|
  {
    var i := FirstBreak(data);
    if data == "" then NeedMore
    else if i == |data| then if atEOF then Line(|data|, data) else NeedMore
    else if data[i] == '\n' then Line(i + 1, data[..i])
    else if i + 1 < |data| then Line(if data[i + 1] == '\n' then i + 2 else i + 1, data[..i])
    else if atEOF then Line(i + 1, data[..i])
    else NeedMore
  }

  lemma FirstBreakAt(s: string, i: nat)
    requires i <= |s|
    requires forall k :: 0 <= k < i ==> !IsBreak(s[k])
    requires i < |s| ==> IsBreak(s[i])
    ensures FirstBreak(s) == i
  {
  }

  /** `scanLines`. */
  method ScanLines(data: string, atEOF: bool) returns (c: Cut)
    ensures c == CutLine(data, atEOF)
  {
    if atEOF && |data| == 0 {
      return NeedMore;
    }
    for i := 0 to |data|
      invariant forall k :: 0 <= k < i ==> !IsBreak(data[k])
    {
      if data[i] == '\n' {
        FirstBreakAt(data, i);
        return Line(i + 1, data[..i]);
      }
      if data[i] == '\r' {
        FirstBreakAt(data, i);
        if i + 1 < |data| {
          if data[i + 1] == '\n' {
            return Line(i + 2, data[..i]);
          }
          return Line(i + 1, data[..i]);
        }
        if atEOF {
          return Line(i + 1, data[..i]);
        }
        return NeedMore;
      }
    }
    FirstBreakAt(data, |data|);
    if atEOF {
      return Line(|data|, data);
    }
    return NeedMore;
  }

  /** A line cut off a prefix of the stream stays the same line however the stream goes on. */
  lemma CutIsStable(data: string, more: string, atEOF: bool)
    requires CutLine(data, false).Line?
    ensures CutLine(data + more, atEOF) == CutLine(data, false)
  {
    var i := FirstBreak(data);
    FirstBreakAt(data + more, i);
  }

  /** The lines of a whole stream. */
  function Lines(s: string): seq<string> {
    if s == "" then []
    else
      var c := CutLine(s, true);
      [c.token] + Lines(After(s))
  }

  /** The stream after its first line. */
  function After(s: string): (rest: string)
    requires s != ""
    ensures |rest| < |s|
  {
    s[CutLine(s, true).advance..]
  }

  /** Every CR LF pair and every lone CR turned into LF. */
  function Normalize(s: string): string {
    if s == "" then ""
    else if s[0] == '\r' then "\n" + Normalize(if |s| > 1 && s[1] == '\n' then s[2..] else s[1..])
    else [s[0]] + Normalize(s[1..])
  }

  lemma {:induction false} NormalizeUpToBreak(s: string, i: nat)
    requires i <= |s|
    requires forall k :: 0 <= k < i ==> !IsBreak(s[k])
    ensures Normalize(s) == s[..i] + Normalize(s[i..])
  {
    if i > 0 {
      NormalizeUpToBreak(s[1..], i - 1);
      assert s[1..][..i - 1] == s[1..i] && s[1..][i - 1..] == s[i..];
      assert s[..i] == [s[0]] + s[1..i];
    } else {
      assert s[0..] == s;
    }
  }

  /** Without the empty piece that a final terminator leaves behind. */
  function Closed(pieces: seq<string>): seq<string>
    requires pieces != []
  {
    if pieces[|pieces| - 1] == "" then pieces[..|pieces| - 1] else pieces
  }

  lemma NormalizeBreak(t: string)
    requires t != "" && IsBreak(t[0])
    ensures Normalize(t) == "\n" + Normalize(After(t))
  {
    assert FirstBreak(t) == 0;
  }

  lemma AfterBreak(s: string, i: nat)
    requires s != "" && FirstBreak(s) == i < |s|
    ensures After(s) == After(s[i..])
  {
    var t := s[i..];
    FirstBreakAt(t, 0);
    assert t[0] == s[i] && (i + 1 < |s| ==> t[1] == s[i + 1]);
    assert t[1..] == s[i + 1..];
    if i + 1 < |s| {
      assert t[2..] == s[i + 2..];
    }
  }

  lemma NormalizeLine(s: string)
    requires s != "" && FirstBreak(s) < |s|
    ensures Normalize(s) == s[..FirstBreak(s)] + ['\n'] + Normalize(After(s))
  {
    hide Normalize, After;
    var i := FirstBreak(s);
    NormalizeUpToBreak(s, i);
    NormalizeBreak(s[i..]);
    AfterBreak(s, i);
  }

  /** The lines are what normalizing the line breaks and splitting at LF gives. */
  lemma {:induction false} LinesAreSplit(s: string)
    ensures Lines(s) == Closed(Split(Normalize(s), '\n'))
    decreases |s|
  {
    hide CutLine, Normalize, Split, After;
    if s == "" {
      assert Split(Normalize(""), '\n') == [""] by { NormalizeEmpty(); }
    } else {
      var i := FirstBreak(s);
      assert '\n' !in s[..i];
      if i == |s| {
        LastLine(s);
        SplitFree(s, '\n');
      } else {
        var rest := After(s);
        NormalizeLine(s);
        SplitCons(s[..i], '\n', Normalize(rest));
        LinesAreSplit(rest);
        LineToken(s);
      }
    }
  }

  lemma NormalizeEmpty()
    ensures Split(Normalize(""), '\n') == [""]
  {
  }

  lemma LastLine(s: string)
    requires s != "" && FirstBreak(s) == |s|
    ensures Lines(s) == [s] && Normalize(s) == s
  {
    NormalizeUpToBreak(s, |s|);
    assert s[|s|..] == "" && s[..|s|] == s;
  }

  lemma LineToken(s: string)
    requires s != "" && FirstBreak(s) < |s|
    ensures CutLine(s, true).token == s[..FirstBreak(s)]
  {
  }

  // ----- the scanner -----

  function Concat(chunks: seq<string>): string {
    if chunks == [] then "" else chunks[0] + Concat(chunks[1..])
  }

  /** `bufio.Scanner` over a reader that hands out its bytes in arbitrary chunks and may end in an
      error. */
  class Scanner {
    var buffer: string
    var pending: seq<string>
    var atEOF: bool
    const fails: bool

    constructor (chunks: seq<string>, fails: bool)
      ensures Valid() && Remaining() == Concat(chunks) && this.fails == fails
    {
      buffer, pending, atEOF := "", chunks, false;
      this.fails := fails;
    }

    ghost predicate Valid()
      reads this
    {
      atEOF ==> pending == []
    }

    /** The part of the stream no line has been taken from. */
    ghost function Remaining(): string
      reads this
    {
      buffer + Concat(pending)
    }

    /** `Scan`: the next line of the stream, whatever chunks it arrives in. */
    method Scan() returns (ok: bool, line: string)
      requires Valid()
      modifies this
      ensures Valid()
      ensures ok <==> old(Remaining()) != ""
      ensures ok ==> Lines(old(Remaining())) == [line] + Lines(Remaining()) && |Remaining()| < |old(Remaining())|
      ensures !ok ==> Remaining() == ""
    {
      ghost var all := Remaining();
      while true
        invariant Valid() && Remaining() == all
        decreases |pending|, !atEOF
      {
        var c := ScanLines(buffer, atEOF);
        if c.Line? {
          if atEOF {
            assert buffer == all;
          } else {
            CutIsStable(buffer, Concat(pending), true);
          }
          assert all[c.advance..] == buffer[c.advance..] + Concat(pending);
          buffer := buffer[c.advance..];
          return true, c.token;
        }
        if atEOF {
          return false, "";
        }
        if pending == [] {
          atEOF := true;
        } else {
          assert Concat(pending) == pending[0] + Concat(pending[1..]);
          buffer, pending := buffer + pending[0], pending[1..];
        }
      }
    }
  }

  // ----- fields -----

  datatype Event = Event(id: string, typ: string, data: string, retry: int)

  /** `splitField`. */
  function SplitField(line: string): (string, string) {
    var i := IndexOf(line, ':');
    if i == |line| then (line, "")
    else
      var value := line[i + 1..];
      (line[..i], if value != "" && value[0] == ' ' then value[1..] else value)
  }

  predicate AllDigits(s: string) { s != "" && forall c <- s :: IsDigit(c) }

  const MAX_INT: int := 0x7FFF_FFFF_FFFF_FFFF

  /** `strconv.Atoi` on a 64-bit platform. */
  function Atoi(s: string): Option<int> {
    var signed := s != "" && (s[0] == '+' || s[0] == '-');
    var digits := if signed then s[1..] else s;
    if !AllDigits(digits) then None
    else
      var n: int := DigitsValue(digits);
      if s[0] == '-' then if n <= MAX_INT + 1 then Some(-n) else None
      else if n <= MAX_INT then Some(n) else None
  }

  /** The rule of the standard: a value of ASCII digits only. */
  function DigitRule(s: string): Option<int> {
    if AllDigits(s) then Some(DigitsValue(s)) else None
  }

  /** A value on which the code and the standard part: a signed number in range, or digits out of it. */
  predicate OddRetry(s: string) {
    || (s != "" && (s[0] == '+' || s[0] == '-') && AllDigits(s[1..])
        && DigitsValue(s[1..]) <= if s[0] == '-' then MAX_INT + 1 else MAX_INT)
    || (AllDigits(s) && DigitsValue(s) > MAX_INT)
  }

  /** The code reads a retry value as the standard does exactly when it is not odd. */
  lemma RetryAgrees(s: string)
    ensures Atoi(s) == DigitRule(s) <==> !OddRetry(s)
  {
    if s != "" && (s[0] == '+' || s[0] == '-') {
      assert s[0] in s && !IsDigit(s[0]);
    } else if AllDigits(s) {
      assert s[0] in s;
    }
  }

  // ----- interpreting lines -----

  /** The buffers of section 9.2.6, with the events dispatched so far. */
  datatype State = State(data: string, typ: string, id: string, retry: int, out: seq<Event>)

  function Idle(id: string, retry: int): State { State("", "", id, retry, []) }

  /** `strings.TrimSuffix` with a line feed. */
  function TrimFeed(s: string): string {
    if HasSuffix(s, "\n") then s[..|s| - 1] else s
  }

  /** What the code does with one line; with `strict` it reads a retry value as the standard does. */
  function Process(st: State, line: string, strict: bool): State {
    if line == "" then
      if st.data == "" then st.(typ := "")
      else
        var ev := Event(st.id, if st.typ == "" then "message" else st.typ, TrimFeed(st.data), st.retry);
        State("", "", st.id, st.retry, st.out + [ev])
    else if line[0] == ':' then st
    else
      var (field, value) := SplitField(line);
      if field == "event" then st.(typ := value)
      else if field == "data" then st.(data := st.data + value + "\n")
      else if field == "id" then if '\0' in value then st else st.(id := value)
      else if field == "retry" then st.(retry := (if strict then DigitRule(value) else Atoi(value)).GetOr(st.retry))
      else st
  }

  function Interpret(lines: seq<string>, st: State, strict: bool): State {
    if lines == [] then st
    else Process(Interpret(lines[..|lines| - 1], st, strict), lines[|lines| - 1], strict)
  }

  lemma {:induction false} InterpretAppend(a: seq<string>, b: seq<string>, st: State, strict: bool)
    ensures Interpret(a + b, st, strict) == Interpret(b, Interpret(a, st, strict), strict)
  {
    hide Process;
    if b == [] {
      assert a + b == a;
    } else {
      assert (a + b)[..|a + b| - 1] == a + b[..|b| - 1];
      InterpretAppend(a, b[..|b| - 1], st, strict);
    }
  }

  /** Events already dispatched do not influence later ones. */
  lemma {:induction false} InterpretOut(lines: seq<string>, st: State, strict: bool)
    ensures Interpret(lines, st, strict) ==
            Interpret(lines, st.(out := []), strict).(out := st.out + Interpret(lines, st.(out := []), strict).out)
  {
    if lines != [] {
      InterpretOut(lines[..|lines| - 1], st, strict);
    }
  }

  // ----- the parser -----

  datatype Next = Dispatched(event: Event) | EndOfStream | ReadFailed

  class Parser {
    const sc: Scanner
    var lastID: string
    var retry: int

    constructor (chunks: seq<string>, fails: bool)
      ensures fresh(sc) && sc.Valid() && sc.Remaining() == Concat(chunks) && sc.fails == fails
      ensures lastID == "" && retry == 0
    {
      sc := new Scanner(chunks, fails);
      lastID, retry := "", 0;
    }

    ghost function Unread(): seq<string>
      reads this, sc
    {
      Lines(sc.Remaining())
    }

    /** `Next`: reads lines up to the next event the interpretation dispatches; at the end of the stream
        whatever is incomplete is dropped. `read` are the lines it used. */
    method Next() returns (r: Next, ghost read: seq<string>)
      requires sc.Valid()
      modifies this, sc
      ensures sc.Valid() && old(Unread()) == read + Unread()
      ensures |sc.Remaining()| <= |old(sc.Remaining())|
      ensures r.Dispatched? ==> |sc.Remaining()| < |old(sc.Remaining())|
      ensures r.Dispatched? ==>
        Interpret(read, Idle(old(lastID), old(retry)), false) == Idle(lastID, retry).(out := [r.event])
      ensures !r.Dispatched? ==> Unread() == [] && (r.ReadFailed? <==> sc.fails)
      ensures !r.Dispatched? ==> Interpret(read, Idle(old(lastID), old(retry)), false).out == []
    {
      hide SplitField, Atoi, Lines, Interpret;
      ghost var start := Idle(lastID, retry);
      InterpretNothing(start);
      var data, eventType, hasData := "", "", false;
      read := [];
      var ok, line := sc.Scan();
      while ok
        invariant sc.Valid() && |sc.Remaining()| <= |old(sc.Remaining())|
        invariant ok ==> |sc.Remaining()| < |old(sc.Remaining())|
        invariant old(Unread()) == read + (if ok then [line] else []) + Unread()
        invariant !ok ==> sc.Remaining() == ""
        invariant hasData <==> data != ""
        invariant Interpret(read, start, false) == State(data, eventType, lastID, retry, [])
        decreases |sc.Remaining()| + (if ok then 1 else 0)
      {
        InterpretNext(read, line, start, false);
        read := read + [line];
        if line == "" {
          if hasData {
            var payload := TrimFeed(data);
            return Dispatched(Event(lastID, if eventType == "" then "message" else eventType, payload, retry)), read;
          }
          eventType, data := "", "";
        } else if line[0] != ':' {
          var (field, value) := SplitField(line);
          if field == "event" {
            eventType := value;
          } else if field == "data" {
            data, hasData := data + value + "\n", true;
          } else if field == "id" {
            if '\0' !in value {
              lastID := value;
            }
          } else if field == "retry" {
            var n := Atoi(value);
            if n.Some? {
              retry := n.value;
            }
          }
        }
        ok, line := sc.Scan();
      }
      NoLines();
      r := if sc.fails then ReadFailed else EndOfStream;
    }
  }

  lemma InterpretNothing(st: State)
    ensures Interpret([], st, false) == st
  {
  }

  lemma NoLines()
    ensures Lines("") == []
  {
  }

  lemma InterpretNext(lines: seq<string>, line: string, st: State, strict: bool)
    ensures Interpret(lines + [line], st, strict) == Process(Interpret(lines, st, strict), line, strict)
  {
    assert (lines + [line])[..|lines|] == lines;
  }

  // ----- the standard -----

  /** Section 9.2.6: the field is what stands before the first colon, the value what stands after it
      less one leading space; a line without a colon is a field with an empty value. */
  function StandardField(line: string): (string, string) {
    var pieces := Split(line, ':');
    var value := Join(pieces[1..], ":");
    (pieces[0], if [' '] <= value then value[1..] else value)
  }

  /** Section 9.2.6, dispatching the event: without data the buffers are cleared and nothing is sent;
      otherwise one line feed at the end of the data goes, and the type is "message" unless one was set. */
  function StandardDispatch(st: State): (r: State) {
    if st.data == "" then st.(typ := "")
    else
      var ends := st.data[|st.data| - 1] == '\n';
      var message := Event(st.id, "message", if ends then st.data[..|st.data| - 1] else st.data, st.retry);
      var event := if st.typ != "" then message.(typ := st.typ) else message;
      State("", "", st.id, st.retry, st.out + [event])
  }

  /** Section 9.2.6 on one line. */
  function StandardLine(st: State, line: string): State {
    if line == "" then StandardDispatch(st)
    else if [':'] <= line then st
    else
      var (field, value) := StandardField(line);
      match field
      case "event" => st.(typ := value)
      case "data" => st.(data := st.data + value + ['\n'])
      case "id" => if forall c <- value :: c != '\0' then st.(id := value) else st
      case "retry" =>
        if value != "" && forall c <- value :: '0' <= c <= '9' then st.(retry := DigitsValue(value)) else st
      case _ => st
  }

  function StandardRun(lines: seq<string>, st: State): State {
    if lines == [] then st else StandardRun(lines[1..], StandardLine(st, lines[0]))
  }

  /** The code splits every line into the field and the value of the standard. */
  lemma FieldIsStandard(line: string)
    ensures SplitField(line) == StandardField(line)
  {
    var i := IndexOf(line, ':');
    if i == |line| {
      assert line[..i] == line;
      SplitFree(line, ':');
    } else {
      var rest := line[i + 1..];
      assert line == line[..i] + [':'] + rest;
      SplitCons(line[..i], ':', rest);
      JoinOfSplit(rest, ':');
    }
  }

  /** A field written as section 9.2.5 allows is read as it was written: the space after the colon is
      not part of the value, a second one is. */
  lemma FieldsRead(field: string, value: string)
    requires ':' !in field
    ensures SplitField(field + ": " + value) == (field, value)
    ensures [' '] <= value || SplitField(field + ":" + value) == (field, value)
    ensures SplitField(field) == (field, "")
  {
    FieldAt(field + ": " + value, field, " " + value);
    FieldAt(field + ":" + value, field, value);
    assert (" " + value)[0] == ' ' && (" " + value)[1..] == value;
    IndexOfIs(field, ':', |field|);
  }

  lemma FieldAt(line: string, field: string, rest: string)
    requires ':' !in field && line == field + ":" + rest
    ensures SplitField(line) == (field, if rest != "" && rest[0] == ' ' then rest[1..] else rest)
  {
    assert line[..|field|] == field && line[|field|] == ':' && line[|field| + 1..] == rest;
    IndexOfIs(line, ':', |field|);
  }

  /** But for the values of retry, the code does with every line what the standard does. */
  lemma ProcessIsStandard(st: State, line: string)
    ensures Process(st, line, true) == StandardLine(st, line)
  {
    hide SplitField, StandardField;
    FieldIsStandard(line);
    if line == "" && st.data != "" {
      assert HasSuffix(st.data, "\n") <==> st.data[|st.data| - 1] == '\n';
    }
  }

  lemma {:induction false} InterpretIsStandard(lines: seq<string>, st: State)
    ensures Interpret(lines, st, true) == StandardRun(lines, st)
    decreases |lines|
  {
    hide Process, StandardLine;
    if lines != [] {
      assert lines == [lines[0]] + lines[1..];
      assert [lines[0]][..0] == [];
      InterpretAppend([lines[0]], lines[1..], st, true);
      ProcessIsStandard(st, lines[0]);
      InterpretIsStandard(lines[1..], StandardLine(st, lines[0]));
    }
  }

  // ----- the whole stream -----

  /** The events of a stream, as the code reads it. */
  function Events(stream: string): seq<Event> {
    Interpret(Lines(stream), Idle("", 0), false).out
  }

  /** Calling `Next` until it stops yields the same events however the stream is cut into chunks. */
  method Drain(chunks: seq<string>, fails: bool) returns (events: seq<Event>, last: Next)
    ensures events == Events(Concat(chunks))
    ensures last == if fails then ReadFailed else EndOfStream
  {
    hide Interpret, Lines;
    var p := new Parser(chunks, fails);
    events := [];
    ghost var all := p.Unread();
    var r, read := p.Next();
    NextStep(all, Idle("", 0), read, p.Unread(), p.lastID, p.retry, r);
    while r.Dispatched?
      invariant p.sc.Valid() && p.sc.fails == fails && fresh(p) && fresh(p.sc)
      invariant r.Dispatched? ==>
        Interpret(all, Idle("", 0), false).out == events + [r.event] + Interpret(p.Unread(), Idle(p.lastID, p.retry), false).out
      invariant !r.Dispatched? ==> Interpret(all, Idle("", 0), false).out == events && (r.ReadFailed? <==> fails)
      decreases |p.sc.Remaining()| + (if r.Dispatched? then 1 else 0)
    {
      events := events + [r.event];
      ghost var st, rest := Idle(p.lastID, p.retry), p.Unread();
      r, read := p.Next();
      NextStep(rest, st, read, p.Unread(), p.lastID, p.retry, r);
    }
    last := r;
  }

  /** What one call of `Next` contributes to the events of the lines before it. */
  lemma NextStep(lines: seq<string>, st: State, read: seq<string>, rest: seq<string>, id: string, retry: int, r: Next)
    requires lines == read + rest && st.out == []
    requires r.Dispatched? ==> Interpret(read, st, false) == Idle(id, retry).(out := [r.event])
    requires !r.Dispatched? ==> rest == [] && Interpret(read, st, false).out == []
    ensures r.Dispatched? ==> Interpret(lines, st, false).out == [r.event] + Interpret(rest, Idle(id, retry), false).out
    ensures !r.Dispatched? ==> Interpret(lines, st, false).out == []
  {
    hide Process;
    if r.Dispatched? {
      InterpretAppend(read, rest, st, false);
      InterpretOut(rest, Idle(id, retry).(out := [r.event]), false);
    } else {
      assert read + rest == read;
    }
  }

  /** A retry line whose value the code and the standard read differently. */
  predicate OddLine(line: string) {
    line != "" && line[0] != ':' && SplitField(line).0 == "retry" && OddRetry(SplitField(line).1)
  }

  /** A line is processed as the standard says, whatever was read before it, exactly when it is not a
      retry line with an odd value. */
  lemma LineIsStandard(line: string)
    ensures (forall st: State :: Process(st, line, false) == StandardLine(st, line)) <==> !OddLine(line)
  {
    hide SplitField, Atoi, DigitRule, OddRetry, StandardLine;
    forall st: State ensures Process(st, line, true) == StandardLine(st, line) {
      ProcessIsStandard(st, line);
    }
    var value := SplitField(line).1;
    RetryAgrees(value);
    if OddLine(line) {
      var other := Atoi(value).GetOr(0) + DigitRule(value).GetOr(0) + 1;
      OddIsOneSided(value);
      assert Process(Idle("", other), line, false).retry != Process(Idle("", other), line, true).retry;
    }
  }

  lemma OddIsOneSided(s: string)
    requires OddRetry(s)
    ensures Atoi(s).Some? <==> DigitRule(s).None?
  {
    if s[0] == '+' || s[0] == '-' {
      assert s[0] in s && !IsDigit(s[0]);
    } else {
      assert s[0] in s;
    }
  }

  /** The lines the standard sees: only those that end in a line break. */
  function TerminatedLines(stream: string): seq<string> {
    var pieces := Split(Normalize(stream), '\n');
    pieces[..|pieces| - 1]
  }

  /** A last line without a line break dispatches nothing. */
  lemma UnterminatedIsSilent(stream: string, st: State, strict: bool)
    ensures Interpret(Lines(stream), st, strict).out == Interpret(TerminatedLines(stream), st, strict).out
  {
    hide Lines, Normalize, Split, SplitField;
    LinesAreSplit(stream);
  }

  /** An event without its retry time, and a state without any. */
  function Timeless(e: Event): Event { e.(retry := 0) }

  function TimelessAll(es: seq<Event>): (out: seq<Event>)
    ensures |out| == |es|
  {
    seq(|es|, i requires 0 <= i < |es| => Timeless(es[i]))
  }

  function TimelessState(st: State): State { st.(retry := 0, out := TimelessAll(st.out)) }

  lemma TimelessStep(a: State, b: State, line: string)
    requires TimelessState(a) == TimelessState(b)
    ensures TimelessState(Process(a, line, false)) == TimelessState(Process(b, line, true))
  {
    hide SplitField, Atoi, DigitRule;
    var x, y := Process(a, line, false), Process(b, line, true);
    assert |a.out| == |TimelessAll(a.out)| == |TimelessAll(b.out)| == |b.out|;
    forall i | 0 <= i < |x.out|
      ensures |y.out| == |x.out| && Timeless(x.out[i]) == Timeless(y.out[i])
    {
      if i < |a.out| {
        assert TimelessAll(a.out)[i] == TimelessAll(b.out)[i];
      }
    }
    assert TimelessAll(x.out) == TimelessAll(y.out);
  }

  lemma {:induction false} InterpretTimeless(lines: seq<string>, st: State)
    ensures TimelessState(Interpret(lines, st, false)) == TimelessState(Interpret(lines, st, true))
  {
    hide Process, TimelessState;
    if lines != [] {
      InterpretTimeless(lines[..|lines| - 1], st);
      TimelessStep(Interpret(lines[..|lines| - 1], st, false), Interpret(lines[..|lines| - 1], st, true), lines[|lines| - 1]);
    }
  }

  /** The events of the standard for a stream. */
  function StandardEvents(stream: string): seq<Event> {
    StandardRun(TerminatedLines(stream), Idle("", 0)).out
  }

  /** On every stream the code dispatches the events of the standard, one for one and equal but for their
      retry times: an incomplete one at the end is dropped, IDs persist from event to event. */
  lemma {:induction false} EventsButRetry(stream: string)
    ensures TimelessAll(Events(stream)) == TimelessAll(StandardEvents(stream))
  {
    hide Lines, Interpret, TerminatedLines, StandardRun;
    UnterminatedIsSilent(stream, Idle("", 0), false);
    InterpretIsStandard(TerminatedLines(stream), Idle("", 0));
    InterpretTimeless(TerminatedLines(stream), Idle("", 0));
  }

  /** The value of the last retry line that is read as a number. */
  function LastRetry(lines: seq<string>, strict: bool): int {
    if lines == [] then 0
    else
      var line := lines[|lines| - 1];
      var rest := LastRetry(lines[..|lines| - 1], strict);
      if line == "" || line[0] == ':' || SplitField(line).0 != "retry" then rest
      else (if strict then DigitRule(SplitField(line).1) else Atoi(SplitField(line).1)).GetOr(rest)
  }

  lemma {:induction false} RetryIsLast(lines: seq<string>, strict: bool)
    ensures Interpret(lines, Idle("", 0), strict).retry == LastRetry(lines, strict)
  {
    hide SplitField, Atoi, DigitRule;
    if lines != [] {
      RetryIsLast(lines[..|lines| - 1], strict);
    }
  }

  /** The line at i ends an event. */
  predicate EndsEvent(lines: seq<string>, i: nat)
    requires i < |lines|
  {
    lines[i] == "" && Interpret(lines[..i], Idle("", 0), true).data != ""
  }

  /** Where an event ends, the last retry line that the code reads as a number and the last that the
      standard does have the same value. */
  ghost predicate RetriesAgree(lines: seq<string>) {
    forall i: nat | i < |lines| && EndsEvent(lines, i) :: LastRetry(lines[..i], false) == LastRetry(lines[..i], true)
  }

  lemma {:induction false} RetriesSnoc(lines: seq<string>)
    requires lines != []
    ensures var n := |lines| - 1;
            RetriesAgree(lines) <==> RetriesAgree(lines[..n])
                                     && (EndsEvent(lines, n) ==> LastRetry(lines[..n], false) == LastRetry(lines[..n], true))
  {
    hide Interpret, LastRetry;
    var n := |lines| - 1;
    forall i: nat | i < n
      ensures lines[..n][..i] == lines[..i] && (EndsEvent(lines[..n], i) <==> EndsEvent(lines, i))
    {
    }
    if RetriesAgree(lines) {
      forall i: nat | i < n && EndsEvent(lines[..n], i)
        ensures LastRetry(lines[..n][..i], false) == LastRetry(lines[..n][..i], true)
      {
        assert EndsEvent(lines, i);
      }
    }
    if RetriesAgree(lines[..n]) && (EndsEvent(lines, n) ==> LastRetry(lines[..n], false) == LastRetry(lines[..n], true)) {
      forall i: nat | i < |lines| && EndsEvent(lines, i)
        ensures LastRetry(lines[..i], false) == LastRetry(lines[..i], true)
      {
        if i < n {
          assert EndsEvent(lines[..n], i) && lines[..n][..i] == lines[..i];
        }
      }
    }
  }

  lemma {:induction false} SameOut(lines: seq<string>)
    ensures Interpret(lines, Idle("", 0), false).out == Interpret(lines, Idle("", 0), true).out <==> RetriesAgree(lines)
  {
    if lines != [] {
      var n := |lines| - 1;
      var a, b := Interpret(lines[..n], Idle("", 0), false), Interpret(lines[..n], Idle("", 0), true);
      SameOut(lines[..n]);
      RetriesSnoc(lines);
      RetryIsLast(lines[..n], false);
      RetryIsLast(lines[..n], true);
      InterpretTimeless(lines[..n], Idle("", 0));
      SameOutStep(a, b, lines[n]);
    }
  }

  lemma SameOutStep(a: State, b: State, line: string)
    requires TimelessState(a) == TimelessState(b)
    ensures Process(a, line, false).out == Process(b, line, true).out
       <==> a.out == b.out && (line == "" && b.data != "" ==> a.retry == b.retry)
  {
    hide SplitField, Atoi, DigitRule;
    assert |a.out| == |TimelessAll(a.out)| == |TimelessAll(b.out)| == |b.out|;
    if line == "" && b.data != "" {
      var x, y := Process(a, line, false).out, Process(b, line, true).out;
      assert x[..|a.out|] == a.out && y[..|b.out|] == b.out;
      assert x[|a.out|].retry == a.retry && y[|b.out|].retry == b.retry;
    }
  }

  /** The code dispatches exactly the events of the standard, retry times included, exactly when the two
      readings of the retry lines agree wherever an event ends. */
  lemma {:induction false} EventsAreStandard(stream: string)
    ensures Events(stream) == StandardEvents(stream) <==> RetriesAgree(TerminatedLines(stream))
  {
    hide Lines, Interpret, TerminatedLines, RetriesAgree, StandardRun;
    UnterminatedIsSilent(stream, Idle("", 0), false);
    InterpretIsStandard(TerminatedLines(stream), Idle("", 0));
    SameOut(TerminatedLines(stream));
  }

  /** The least stream that says something: its data, whatever it is, in one message. */
  lemma {:induction false} OneMessage(x: string)
    requires '\n' !in x && '\r' !in x
    ensures Events("data: " + x + "\n\n") == [Event("", "message", x, 0)]
  {
    var line := "data: " + x;
    MessageLines(line);
    hide Process, Lines;
    InterpretNext([line], "", Idle("", 0), false);
    InterpretNext([], line, Idle("", 0), false);
    assert [line] + [""] == [line, ""] && [] + [line] == [line];
    DataLine(x);
    Dispatches(x);
  }

  lemma DataLine(x: string)
    ensures Process(Idle("", 0), "data: " + x, false) == State(x + "\n", "", "", 0, [])
  {
    FieldsRead("data", x);
    hide SplitField, Atoi;
    assert "data: " + x == "data" + ": " + x;
    assert "" + x + "\n" == x + "\n";
  }

  lemma Dispatches(x: string)
    ensures Process(State(x + "\n", "", "", 0, []), "", false).out == [Event("", "message", x, 0)]
  {
    hide SplitField, Atoi;
    assert HasSuffix(x + "\n", "\n") && (x + "\n")[..|x|] == x;
  }

  lemma {:induction false} MessageLines(line: string)
    requires '\n' !in line && '\r' !in line
    ensures Lines(line + "\n\n") == [line, ""]
  {
    var stream := line + "\n\n";
    FirstBreakAt(stream, |line|);
    assert stream[..|line|] == line && stream[|line| + 1..] == "\n";
    assert Lines("\n") == [""] by {
      assert "\n"[..0] == "" && "\n"[1..] == "";
      NoLines();
    }
    assert Lines(stream) == [CutLine(stream, true).token] + Lines(After(stream));
  }

  /** A stream without an odd retry line is one of those. */
  lemma {:induction false} PlainRetriesAgree(lines: seq<string>)
    requires forall l <- lines :: !OddLine(l)
    ensures RetriesAgree(lines) && LastRetry(lines, false) == LastRetry(lines, true)
  {
    hide SplitField, Atoi, DigitRule, OddRetry;
    if lines != [] {
      PlainRetriesAgree(lines[..|lines| - 1]);
      RetriesSnoc(lines);
      RetryAgrees(SplitField(lines[|lines| - 1]).1);
      assert !OddLine(lines[|lines| - 1]);
    }
  }

  /** A signed value is one such: the code reads 5 where the standard ignores the line. */
  lemma SignedRetry()
    ensures Atoi("+5") == Some(5) && DigitRule("+5") == None
  {
    assert "+5"[1..] == "5" && DigitsValue("5") == 5;
    assert "+5"[0] in "+5" && !IsDigit('+');
  }

  /** Before an event it shows: the code gives the event a retry time of 5 and the standard none. */
  lemma {:induction false} SignedRetryShows()
    ensures !RetriesAgree(["retry:+5", "data:x", ""])
  {
    hide Atoi, DigitRule, IndexOf;
    var lines := ["retry:+5", "data:x", ""];
    IndexOfIs("retry:+5", ':', 5);
    IndexOfIs("data:x", ':', 4);
    assert "retry:+5"[..5] == "retry" && "retry:+5"[6..] == "+5" && "data:x"[..4] == "data" && "data:x"[5..] == "x";
    assert SplitField("retry:+5") == ("retry", "+5") && SplitField("data:x") == ("data", "x");
    SignedRetry();
    assert lines[..2][..1] == lines[..1] && lines[..1][..0] == [];
    assert lines[..1][0] == "retry:+5" && lines[..2][1] == "data:x";
    assert LastRetry([], false) == LastRetry([], true) == 0;
    assert LastRetry(lines[..1], false) == 5 && LastRetry(lines[..1], true) == 0;
    assert LastRetry(lines[..2], false) == 5 && LastRetry(lines[..2], true) == 0;
    DataIsKept(lines[..1]);
    assert EndsEvent(lines, 2);
  }

  lemma DataIsKept(lines: seq<string>)
    requires SplitField("data:x") == ("data", "x")
    ensures Interpret(lines + ["data:x"], Idle("", 0), true).data != ""
  {
    hide SplitField;
    InterpretNext(lines, "data:x", Idle("", 0), true);
  }
}
