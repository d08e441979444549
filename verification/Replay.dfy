/** Reading a recording back and replaying it at a chosen speed. */
module Replay {
  import opened Wrappers
  import opened Decimal
  import opened Text
  import opened Timestamps
  import opened Recording

  /** A line of this length or longer does not fit the scanner's buffer and ends the scan. */
  const LINE_LIMIT: nat := 16 * 1024 * 1024

  datatype Message = Message(timestamp: Stamp, payload: string)

  // ---- the lines of a file ----

  function DropCR(line: string): string {
    if line != "" && line[|line| - 1] == '\r' then line[..|line| - 1] else line
  }

  /** bufio.Scanner over lines, up to the first one that is too long. */
  function ScanLines(file: string): seq<string> {
    if file == "" then []
    else
      var i := IndexOf(file, '\n');
      if i >= LINE_LIMIT then []
      else if i == |file| then [DropCR(file)]
      else [DropCR(file[..i])] + ScanLines(file[i + 1..])
  }

  predicate LooksLikeJson(s: string) {
    HasPrefix(s, "{") || HasPrefix(s, "[")
  }

  function ParseLogLine(text: string): (r: Result<Message>)
    ensures r.Ok? ==> LooksLikeJson(r.value.payload) && Timestamps.Valid(r.value.timestamp)
  {
    var line := TrimSpace(text);
    if |line| == 0 || !HasPrefix(line, "[") then Err
    else
      var end := IndexOf(line, ']');
      if end == |line| || end + 1 >= |line| then Err
      else
        IndexPastBracket(line);
        var payload := TrimSpace(line[end + 1..]);
        var timestamp := Timestamps.Parse(line[1..end]);
        if |payload| == 0 || !LooksLikeJson(payload) || timestamp.None? then Err
        else Ok(Message(timestamp.value, payload))
  }

  /** The text, without blank ends, is a bracketed timestamp and a payload that begins like JSON. */
  predicate LineReads(text: string, ts: string, rest: string, m: Message) {
    && TrimSpace(text) == "[" + ts + "]" + rest && ']' !in ts && Timestamps.Parse(ts) == Some(m.timestamp)
    && m.payload == TrimSpace(rest) && m.payload != "" && (m.payload[0] == '{' || m.payload[0] == '[')
  }

  /** Exactly these lines parse, and to these messages. */
  lemma ParsedIff(text: string, m: Message)
    ensures ParseLogLine(text) == Ok(m) <==> exists ts, rest :: LineReads(text, ts, rest, m)
  {
    hide TrimSpace, Timestamps.Parse;
    var line := TrimSpace(text);
    if ParseLogLine(text) == Ok(m) {
      var end := IndexOf(line, ']');
      IndexPastBracket(line);
      assert line == "[" + line[1..end] + "]" + line[end + 1..];
      assert LineReads(text, line[1..end], line[end + 1..], m);
    }
    if ts, rest :| LineReads(text, ts, rest, m) {
      ReadLineParses(text, ts, rest, m);
    }
  }

  lemma ReadLineParses(text: string, ts: string, rest: string, m: Message)
    requires LineReads(text, ts, rest, m)
    ensures ParseLogLine(text) == Ok(m)
  {
    hide TrimSpace, Timestamps.Parse;
    var line := TrimSpace(text);
    assert line == ("[" + ts) + [']'] + rest;
    IndexAt("[" + ts, ']', rest);
    assert line[1..|ts| + 1] == ts && line[|ts| + 2..] == rest;
    if rest == "" { NothingTrimmed(); }
  }

  lemma NothingTrimmed()
    ensures TrimSpace("") == ""
  {
  }

  lemma IndexPastBracket(line: string)
    requires HasPrefix(line, "[")
    ensures IndexOf(line, ']') >= 1
  {
    assert line[0] == '[';
  }

  function Parsed(lines: seq<string>): seq<Message> {
    if lines == [] then []
    else
      var n := |lines| - 1;
      var m := ParseLogLine(lines[n]);
      Parsed(lines[..n]) + if m.Ok? then [m.value] else []
  }

  // ---- trimming ----

  lemma {:induction false} TrimRightBehind(a: string, b: string)
    ensures TrimRight(b) != "" ==> TrimRight(a + b) == a + TrimRight(b)
    ensures TrimRight(b) == "" ==> TrimRight(a + b) == TrimRight(a)
  {
    if b == "" {
      assert a + b == a;
    } else {
      var n := |b| - 1;
      assert (a + b)[..|a| + n] == a + b[..n];
      TrimRightBehind(a, b[..n]);
    }
  }

  lemma {:induction false} TrimRightLeaves(s: string)
    ensures TrimRight(TrimRight(s)) == TrimRight(s)
    ensures TrimRight(s) <= s
  {
    if s != "" && IsSpace(s[|s| - 1]) {
      TrimRightLeaves(s[..|s| - 1]);
    }
  }

  /** The order in which the two ends are trimmed does not matter. */
  lemma {:induction false} TrimsCommute(s: string)
    ensures TrimRight(TrimLeft(s)) == TrimLeft(TrimRight(s))
  {
    if s != "" && IsSpace(s[0]) {
      TrimsCommute(s[1..]);
      assert s == [s[0]] + s[1..];
      TrimRightBehind([s[0]], s[1..]);
      if TrimRight(s[1..]) != "" {
        assert TrimRight(s)[1..] == TrimRight(s[1..]);
      } else {
        assert TrimRight([s[0]]) == "" by { assert [s[0]][..0] == ""; }
      }
    } else {
      TrimRightLeaves(s);
    }
  }

  lemma TrimmedLine(ts: string, payload: string)
    ensures var line := "[" + ts + "] " + payload;
            TrimSpace(line) == if TrimRight(payload) == "" then "[" + ts + "]" else "[" + ts + "] " + TrimRight(payload)
  {
    hide TrimRight;
    var bracketed := "[" + ts + "]";
    var head := bracketed + " ";
    assert "[" + ts + "] " == head;
    TrimRightBehind(head, payload);
    TrimmedHead(bracketed);
    assert bracketed[|bracketed| - 1] == ']' && bracketed[0] == '[';
    assert (head + payload)[0] == '[';
  }

  lemma TrimmedHead(bracketed: string)
    requires bracketed != "" && bracketed[|bracketed| - 1] == ']'
    ensures TrimRight(bracketed + " ") == bracketed
  {
    var head := bracketed + " ";
    assert head[..|head| - 1] == bracketed && head[|head| - 1] == ' ';
  }

  lemma TrimmedPayload(payload: string)
    ensures TrimSpace(" " + TrimRight(payload)) == TrimSpace(payload)
  {
    var right := TrimRight(payload);
    assert (" " + right)[1..] == right;
    TrimsCommute(payload);
    TrimsCommute(right);
    TrimRightLeaves(payload);
  }

  lemma TrimDroppedCR(line: string)
    ensures TrimSpace(DropCR(line)) == TrimSpace(line)
  {
    TrimsCommute(line);
    TrimsCommute(DropCR(line));
  }

  // ---- one line ----

  lemma IndexAt(a: string, c: char, b: string)
    requires c !in a
    ensures IndexOf(a + [c] + b, c) == |a|
  {
    var s := a + [c] + b;
    assert s[|a|] == c;
    assert forall k :: 0 <= k < |a| ==> s[k] == a[k];
  }

  predicate StampChar(c: char) {
    IsDigit(c) || c == '-' || c == 'T' || c == ':' || c == '+' || c == 'Z'
  }

  lemma FieldChars(n: nat, w: nat)
    ensures forall c :: c in Field(n, w) ==> StampChar(c)
  {
    PadKeepsValue(PrintNat(n), w);
  }

  lemma FormatChars(t: Stamp)
    requires Timestamps.Valid(t)
    ensures forall c :: c in Timestamps.Format(t) ==> StampChar(c)
  {
    hide Field, StampChar;
    FieldChars(t.year, 4);
    FieldChars(t.month, 2);
    FieldChars(t.day, 2);
    FieldChars(t.hour, 2);
    FieldChars(t.minute, 2);
    FieldChars(t.second, 2);
    var a: nat := if t.offset < 0 then -t.offset else t.offset;
    FieldChars(a / 60, 2);
    FieldChars(a % 60, 2);
    MarkChars();
  }

  lemma MarkChars()
    ensures StampChar('-') && StampChar('T') && StampChar(':') && StampChar('+') && StampChar('Z')
  {
  }

  /** What becomes of a recorded entry when its line is read back: the payload without outer white space, or
      nothing when that does not begin like JSON. */
  lemma ParsedEntry(t: Stamp, payload: string)
    requires Timestamps.Valid(t)
    ensures ParseLogLine(Entry(t, payload))
            == if LooksLikeJson(TrimSpace(payload)) then Ok(Message(t, TrimSpace(payload))) else Err
    ensures ParseLogLine(DropCR(Entry(t, payload))) == ParseLogLine(Entry(t, payload))
  {
    hide Timestamps.Format, Timestamps.Parse, TrimLeft, TrimRight, TrimSpace;
    var ts, right := Timestamps.Format(t), TrimRight(payload);
    FormatChars(t);
    ParseOfFormat(t);
    TrimmedLine(ts, payload);
    TrimmedPayload(payload);
    TrimDroppedCR(Entry(t, payload));
    var line := TrimSpace(Entry(t, payload));
    var tail := if right == "" then "" else " " + right;
    assert line == "[" + ts + "]" + tail;
    assert "[" + ts + "]" + tail == ("[" + ts) + [']'] + tail;
    IndexAt("[" + ts, ']', tail);
    assert line[1..|ts| + 1] == ts && line[|ts| + 2..] == tail;
    if right == "" {
      BlankPayload(payload);
    }
  }

  lemma BlankPayload(payload: string)
    requires TrimRight(payload) == ""
    ensures TrimSpace(payload) == ""
  {
    TrimsCommute(payload);
  }

  // ---- a whole file ----

  function Dropped(lines: seq<string>): (r: seq<string>)
    ensures |r| == |lines|
  {
    seq(|lines|, i requires 0 <= i < |lines| => DropCR(lines[i]))
  }

  predicate IsLine(s: string) {
    '\n' !in s
  }

  /** Lines that the scan can read. */
  predicate Readable(lines: seq<string>) {
    forall i :: 0 <= i < |lines| ==> IsLine(lines[i]) && |lines[i]| < LINE_LIMIT
  }

  /** The scan gives back the lines of a file one by one. */
  lemma {:induction false} ScanFile(lines: seq<string>, rest: string)
    requires Readable(lines)
    ensures ScanLines(FileText(lines) + rest) == Dropped(lines) + ScanLines(rest)
  {
    hide DropCR, ScanLines, IsLine, FileText, Dropped;
    if lines == [] {
      NothingScanned(rest);
    } else {
      var front, last := lines[..|lines| - 1], lines[|lines| - 1];
      assert lines == front + [last];
      FileTextMore(front, last, rest);
      ScanFile(front, last + "\n" + rest);
      ScanOne(last, rest);
      DroppedMore(front, last, ScanLines(rest));
    }
  }

  lemma NothingScanned(rest: string)
    ensures FileText([]) + rest == rest && Dropped([]) + ScanLines(rest) == ScanLines(rest)
  {
    hide ScanLines;
    assert Dropped([]) == [];
  }

  lemma FileTextMore(front: seq<string>, last: string, rest: string)
    ensures FileText(front + [last]) + rest == FileText(front) + (last + "\n" + rest)
  {
    assert (front + [last])[..|front|] == front;
    Regroup(FileText(front), last, "\n", rest);
  }

  lemma DroppedMore(front: seq<string>, last: string, rest: seq<string>)
    ensures Dropped(front + [last]) + rest == Dropped(front) + ([DropCR(last)] + rest)
  {
    hide DropCR;
    assert Dropped(front + [last]) == Dropped(front) + [DropCR(last)];
  }

  lemma ScanOne(line: string, rest: string)
    requires IsLine(line)
    ensures ScanLines(line + "\n" + rest) == if |line| < LINE_LIMIT then [DropCR(line)] + ScanLines(rest) else []
  {
    hide DropCR;
    var text := line + "\n" + rest;
    IndexAt(line, '\n', rest);
    assert text == line + ['\n'] + rest;
    assert text[..|line|] == line && text[|line| + 1..] == rest;
  }

  /** An entry whose line the scan can read. */
  predicate Recordable(e: Message) {
    Timestamps.Valid(e.timestamp) && IsLine(e.payload) && |Entry(e.timestamp, e.payload)| < 16_777_216
  }

  predicate AllRecordable(es: seq<Message>) {
    forall i :: 0 <= i < |es| ==> Recordable(es[i])
  }

  function Lines(es: seq<Message>): (ls: seq<string>)
    requires AllRecordable(es)
    ensures |ls| == |es|
  {
    seq(|es|, i requires 0 <= i < |es| => Entry(es[i].timestamp, es[i].payload))
  }

  /** The entries a replay can use. */
  function Usable(es: seq<Message>): seq<Message> {
    if es == [] then []
    else
      var n := |es| - 1;
      var payload := TrimSpace(es[n].payload);
      Usable(es[..n]) + if LooksLikeJson(payload) then [Message(es[n].timestamp, payload)] else []
  }

  lemma {:induction false} ParsedLines(es: seq<Message>)
    requires AllRecordable(es)
    ensures Parsed(Dropped(Lines(es))) == Usable(es)
  {
    hide DropCR, ParseLogLine, TrimSpace, LooksLikeJson, Entry;
    if es != [] {
      var n := |es| - 1;
      ParsedLines(es[..n]);
      var lines := Dropped(Lines(es));
      assert lines[..n] == Dropped(Lines(es[..n]));
      ParsedEntry(es[n].timestamp, es[n].payload);
    }
  }

  lemma EntryIsLine(e: Message)
    requires Recordable(e)
    ensures IsLine(Entry(e.timestamp, e.payload))
  {
    hide Timestamps.Format;
    FormatChars(e.timestamp);
  }

  lemma LinesAreReadable(es: seq<Message>)
    requires AllRecordable(es)
    ensures Readable(Lines(es))
  {
    hide Entry;
    forall i | 0 <= i < |es|
      ensures IsLine(Lines(es)[i]) && |Lines(es)[i]| < LINE_LIMIT
    {
      assert Recordable(es[i]);
      EntryIsLine(es[i]);
    }
  }

  /** Replaying a recorded file gives back the entries in order, their payloads trimmed, without those that do not
      begin like JSON. */
  lemma ReplayOfRecording(es: seq<Message>)
    requires AllRecordable(es)
    ensures Parsed(ScanLines(FileText(Lines(es)))) == Usable(es)
  {
    hide Entry, DropCR, ParseLogLine;
    var lines := Lines(es);
    LinesAreReadable(es);
    ScanFile(lines, "");
    assert FileText(lines) + "" == FileText(lines);
    assert ScanLines("") == [];
    assert Dropped(lines) + ScanLines("") == Dropped(lines);
    ParsedLines(es);
  }

  /** A payload that begins with a brace or a bracket and does not end in white space. */
  predicate Faithful(e: Message) {
    && e.payload != "" && (e.payload[0] == '{' || e.payload[0] == '[')
    && !IsBlank(e.payload[|e.payload| - 1..])
  }

  /** Those are the payloads that trimming leaves alone and that look like JSON. */
  lemma FaithfulIff(e: Message)
    ensures Faithful(e) <==> TrimSpace(e.payload) == e.payload && LooksLikeJson(e.payload)
  {
    var p := e.payload;
    if Faithful(e) {
      assert !IsSpace(p[0]);
      assert p[|p| - 1..] == [p[|p| - 1]] && p[|p| - 1..][0] == p[|p| - 1];
      assert !IsSpace(p[|p| - 1]);
    }
    if TrimSpace(p) == p && LooksLikeJson(p) {
      var a, b := TrimSpaceCuts(p);
    }
  }

  lemma {:induction false} UsableIsAll(es: seq<Message>)
    ensures Usable(es) == es <==> forall e :: e in es ==> Faithful(e)
    ensures |Usable(es)| <= |es|
  {
    hide TrimSpace, LooksLikeJson, Faithful;
    if es != [] {
      var n := |es| - 1;
      UsableIsAll(es[..n]);
      assert es == es[..n] + [es[n]];
      assert forall e :: e in es <==> e in es[..n] || e == es[n];
      var front, payload := Usable(es[..n]), TrimSpace(es[n].payload);
      FaithfulIff(es[n]);
      if Usable(es) == es {
        assert LooksLikeJson(payload);
        assert Usable(es) == front + [Message(es[n].timestamp, payload)];
        assert Usable(es)[..n] == front == es[..n];
        assert es[n] == Message(es[n].timestamp, payload);
        assert Faithful(es[n]);
      }
      if forall e :: e in es ==> Faithful(e) {
        assert Faithful(es[n]) && forall e :: e in es[..n] ==> Faithful(e);
        assert front == es[..n];
      }
    }
  }

  /** A file text of entries reads back as the entries exactly for payloads without outer white space that begin like
      JSON. */
  lemma TextReadsBackIff(es: seq<Message>)
    requires AllRecordable(es)
    ensures Parsed(ScanLines(FileText(Lines(es)))) == es <==> forall e :: e in es ==> Faithful(e)
  {
    hide AllRecordable, Faithful, ScanLines, Parsed;
    ReplayOfRecording(es);
    UsableIsAll(es);
  }

  /** A carriage return before the newline is not part of the line; and a last line without a newline is read too. */
  lemma LineEnds(lines: seq<string>, line: string)
    requires Readable(lines) && IsLine(line) && line != "" && |line| < 16_777_216
    ensures ScanLines(FileText(lines) + (line + "\n"))
            == Dropped(lines) + [if line[|line| - 1] == '\r' then line[..|line| - 1] else line]
    ensures ScanLines(FileText(lines) + line) == ScanLines(FileText(lines) + (line + "\n"))
  {
    hide FileText, Dropped, ScanLines, Readable, IsLine;
    assert line + "\n" == line + "\n" + "";
    ScanFile(lines, line + "\n");
    ScanOne(line, "");
    ScanFile(lines, line);
    LastLineRead(line);
    assert [DropCR(line)] + [] == [DropCR(line)];
  }

  lemma LastLineRead(line: string)
    requires IsLine(line) && line != "" && |line| < LINE_LIMIT
    ensures ScanLines(line) == [DropCR(line)] && ScanLines("") == []
  {
    assert forall k :: 0 <= k < |line| ==> line[k] != '\n';
  }

  /** Behind a line that is too long nothing is read. */
  lemma OverlongLineEndsReplay(es: seq<Message>, long: string, rest: string)
    requires AllRecordable(es)
    requires IsLine(long) && |long| >= 16_777_216
    ensures Parsed(ScanLines(FileText(Lines(es)) + long + "\n" + rest)) == Usable(es)
  {
    hide Entry, DropCR, ParseLogLine, ScanLines;
    var lines, tail := Lines(es), long + "\n" + rest;
    LinesAreReadable(es);
    ScanFile(lines, tail);
    assert FileText(lines) + long + "\n" + rest == FileText(lines) + tail;
    ScanOne(long, rest);
    assert Dropped(lines) + ScanLines(tail) == Dropped(lines);
    ParsedLines(es);
  }

  /** Writes that reach a file in the order of their swaps come back from it in that order. */
  lemma RecordingReplays(evs: seq<Event>, path: string, es: seq<Message>)
    requires Run(START, evs).Some? && AllRecordable(es)
    requires var s := Run(START, evs).value;
             InSwapOrder(s, path) && LinesOf(s.batches, SwapsTo(s.batches, path)) == Lines(es)
    ensures Parsed(ScanLines(Content(Run(START, evs).value.files, path))) == Usable(es)
  {
    hide Run, AllRecordable, ScanLines, Parsed, Usable, LinesOf, Ascending, LinesIn, Entries, WrittenOnce;
    EveryRunKeeps(evs);
    AscendingWritesKeepOrder(Run(START, evs).value, path);
    ReplayOfRecording(es);
  }

  lemma {:induction false} AtMostOnePerLine(lines: seq<string>)
    ensures |Parsed(lines)| <= |lines|
  {
    hide ParseLogLine;
    if lines != [] {
      AtMostOnePerLine(lines[..|lines| - 1]);
    }
  }

  /** A replay finds no more messages than the file has lines. */
  lemma NoMoreThanWritten(lines: seq<string>)
    requires Readable(lines)
    ensures |Parsed(ScanLines(FileText(lines)))| <= |lines|
  {
    hide Readable, FileText, DropCR, Parsed;
    ScanFile(lines, "");
    assert FileText(lines) + "" == FileText(lines) && ScanLines("") == [];
    assert Dropped(lines) + ScanLines("") == Dropped(lines);
    AtMostOnePerLine(Dropped(lines));
  }

  lemma ReadableParts(all: seq<string>, some: seq<string>)
    requires Readable(all) && forall l :: l in some ==> l in all
    ensures Readable(some)
  {
    assert forall i :: 0 <= i < |some| ==> some[i] in some;
  }

  /** Record, then replay. When the writes of a file landed in order, the replay finds exactly the recorded messages
      if and only if every entry left the buffer, every batch reached that file, and the payloads begin like JSON and
      have no outer white space. */
  lemma RecordThenReplayInOrder(evs: seq<Event>, path: string, es: seq<Message>)
    requires Run(START, evs).Some? && AllRecordable(es)
    requires var s := Run(START, evs).value; InSwapOrder(s, path) && Accepted(evs) == Lines(es)
    ensures var s := Run(START, evs).value;
            Parsed(ScanLines(Content(s.files, path))) == es
            <==> s.buffer == [] && AllWritten(s.batches, path) && forall e :: e in es ==> Faithful(e)
  {
    hide Run, Accepted, AllRecordable, Faithful, ScanLines, Parsed, LinesOf, LinesIn, Ascending, Entries, WrittenOnce, FileText,
         AllWritten, Lines, Readable;
    EveryRunKeeps(evs);
    var s := Run(START, evs).value;
    var kept := LinesOf(s.batches, SwapsTo(s.batches, path));
    AscendingWritesKeepOrder(s, path);
    if s.buffer == [] && AllWritten(s.batches, path) {
      AllLines(s.batches, path);
      assert Entries(s.batches) + [] == Entries(s.batches);
      TextReadsBackIff(es);
    } else if Parsed(ScanLines(Content(s.files, path))) == es {
      LinesAreReadable(es);
      LinesAreRecorded(s.batches, SwapsTo(s.batches, path));
      ReadableParts(s.recorded, kept);
      NoMoreThanWritten(kept);
      SomeLines(s.batches, path);
      assert false;
    }
  }

  /** The same for every run in which no flush starts while another one writes. */
  lemma RecordThenReplay(evs: seq<Event>, path: string, es: seq<Message>)
    requires Run(START, evs).Some? && Serial(START, evs) && AllRecordable(es)
    requires Accepted(evs) == Lines(es)
    ensures var s := Run(START, evs).value;
            Parsed(ScanLines(Content(s.files, path))) == es
            <==> s.buffer == [] && AllWritten(s.batches, path) && forall e :: e in es ==> Faithful(e)
  {
    hide Run, Accepted, Serial, AllRecordable, Faithful, ScanLines, Parsed, AllWritten, Lines;
    SerialRunsAreInOrder(evs);
    SomeWritesAscend(Run(START, evs).value.batches, Run(START, evs).value.writes, path);
    RecordThenReplayInOrder(evs, path, es);
  }

  // ---- pacing ----

  const SECOND: int := 1_000_000_000

  /** Time.Sub: the difference in nanoseconds, saturated to 64 bits. */
  function Sub(a: int, b: int): (d: int)
    ensures InInt64(d)
  {
    if a - b > MAX_INT64 then MAX_INT64 else if a - b < MIN_INT64 then MIN_INT64 else a - b
  }

  function At(m: Message): int {
    Instant(m.timestamp) * SECOND
  }

  /** The positive gap before message k + 1. */
  function Gap(ms: seq<Message>, k: nat): (g: nat)
    requires k + 1 < |ms|
  {
    var d := Sub(At(ms[k + 1]), At(ms[k]));
    if d < 0 then 0 else d
  }

  /** The gap is the time between the two messages in nanoseconds, at most the largest int64, and nothing when it goes back. */
  lemma GapIs(ms: seq<Message>, k: nat)
    requires k + 1 < |ms|
    ensures var d := (Instant(ms[k + 1].timestamp) - Instant(ms[k].timestamp)) * 1_000_000_000;
            Gap(ms, k) == if d < 0 then 0 else if d > 9_223_372_036_854_775_807 then 9_223_372_036_854_775_807 else d
  {
    hide Instant;
  }

  /** The recorded time between the first k gaps, and the time slept for it. */
  function Recorded(ms: seq<Message>, k: nat): nat
    requires k == 0 || k < |ms|
  {
    if k == 0 then 0 else Recorded(ms, k - 1) + Gap(ms, k - 1)
  }

  function Sleep(gap: nat, speed: real): (s: int)
    requires speed > 0.0
  {
    (gap as real / speed).Floor
  }

  function Slept(ms: seq<Message>, speed: real, k: nat): int
    requires speed > 0.0 && (k == 0 || k < |ms|)
  {
    if k == 0 then 0 else Slept(ms, speed, k - 1) + Sleep(Gap(ms, k - 1), speed)
  }

  lemma SumDivided(a: real, b: real, f: real)
    requires f > 0.0
    ensures (a + b) / f == a / f + b / f
  {
    assert (a / f + b / f) * f == (a / f) * f + (b / f) * f;
  }

  /** After k gaps the replay has slept the recorded time divided by the speed, short by less than k nanoseconds. */
  lemma {:induction false} PacingIsExact(ms: seq<Message>, speed: real, k: nat)
    requires speed > 0.0 && (k == 0 || k < |ms|)
    ensures Slept(ms, speed, k) as real <= Recorded(ms, k) as real / speed
    ensures k > 0 ==> Slept(ms, speed, k) as real > Recorded(ms, k) as real / speed - k as real
  {
    if k > 0 {
      PacingIsExact(ms, speed, k - 1);
      var before, gap := Recorded(ms, k - 1) as real, Gap(ms, k - 1) as real;
      SumDivided(before, gap, speed);
      var s := Sleep(Gap(ms, k - 1), speed) as real;
      assert s <= gap / speed < s + 1.0;
      assert Recorded(ms, k) as real == before + gap;
    }
  }

  /** Going back in time costs nothing: the recorded time is at least what lies between the first message and any other. */
  lemma {:induction false} RecordedCoversSpan(ms: seq<Message>, k: nat, i: nat)
    requires i <= k < |ms|
    requires forall j :: 0 <= j < k ==> At(ms[j + 1]) - At(ms[j]) <= MAX_INT64
    ensures Recorded(ms, k) >= At(ms[i]) - At(ms[0])
    decreases k
  {
    if k > 0 {
      RecordedCoversSpan(ms, k - 1, if i == k then k - 1 else i);
    }
  }

  /** For timestamps in order the recorded time is the time from the first message to the last, while no gap is longer
      than an int64 can say. */
  lemma {:induction false} RecordedIsSpan(ms: seq<Message>, k: nat)
    requires k < |ms|
    requires forall j :: 0 <= j < k ==>
                           0 <= (Instant(ms[j + 1].timestamp) - Instant(ms[j].timestamp)) * 1_000_000_000
                             <= 9_223_372_036_854_775_807
    ensures Recorded(ms, k) == (Instant(ms[k].timestamp) - Instant(ms[0].timestamp)) * 1_000_000_000
  {
    hide Instant, Gap;
    if k > 0 {
      RecordedIsSpan(ms, k - 1);
      GapIs(ms, k - 1);
    }
  }

  class Replayer {
    const speedFactor: real

    /** A speed that is not positive means normal speed. */
    constructor (speedFactor: real)
      ensures this.speedFactor == if speedFactor <= 0.0 then 1.0 else speedFactor
      ensures this.speedFactor > 0.0
    {
      this.speedFactor := if speedFactor <= 0.0 then 1.0 else speedFactor;
    }

    /** The first half of Start: the lines that parse. */
    method Load(file: string) returns (messages: seq<Message>)
      ensures messages == Parsed(ScanLines(file))
    {
      hide ParseLogLine, ScanLines;
      var lines := ScanLines(file);
      messages := [];
      for i := 0 to |lines|
        invariant messages == Parsed(lines[..i])
      {
        assert lines[..i + 1][..i] == lines[..i];
        var message := ParseLogLine(lines[i]);
        if message.Ok? {
          messages := messages + [message.value];
        }
      }
      assert lines[..|lines|] == lines;
    }

    /** The replay loop: what is emitted, and the pauses requested in between. */
    method Pace(messages: seq<Message>) returns (emitted: seq<string>, total: int)
      requires speedFactor > 0.0 && messages != []
      ensures |emitted| == |messages| && forall k :: 0 <= k < |messages| ==> emitted[k] == messages[k].payload
      ensures total == Slept(messages, speedFactor, |messages| - 1)
    {
      emitted, total := [messages[0].payload], 0;
      var previous := At(messages[0]);
      for i := 1 to |messages|
        invariant previous == At(messages[i - 1])
        invariant |emitted| == i && forall k :: 0 <= k < i ==> emitted[k] == messages[k].payload
        invariant total == Slept(messages, speedFactor, i - 1)
      {
        var delay := Sub(At(messages[i]), previous);
        if delay < 0 {
          delay := 0;
        }
        assert delay == Gap(messages, i - 1);
        if delay > 0 {
          delay := (delay as real / speedFactor).Floor;
          total := total + delay;
        } else {
          NoGapNoSleep(speedFactor);
        }
        assert total == Slept(messages, speedFactor, i);
        emitted := emitted + [messages[i].payload];
        previous := At(messages[i]);
      }
    }

    /** Start: the messages of the file, paced. */
    method Start(file: string) returns (emitted: seq<string>, total: int)
      requires speedFactor > 0.0
      ensures var messages := Parsed(ScanLines(file));
              && |emitted| == |messages|
              && (forall k :: 0 <= k < |messages| ==> emitted[k] == messages[k].payload)
              && total == if messages == [] then 0 else Slept(messages, speedFactor, |messages| - 1)
    {
      hide ScanLines, Parsed;
      var messages := Load(file);
      if |messages| == 0 {
        return [], 0;
      }
      emitted, total := Pace(messages);
    }
  }

  lemma NoGapNoSleep(speed: real)
    requires speed > 0.0
    ensures Sleep(0, speed) == 0
  {
  }
}
