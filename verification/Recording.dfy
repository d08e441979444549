/** The session recorder: Record, the ticker's flush and the flushes of Stop and FinalizeSessionRecording interleave; the
    buffer is swapped under the lock, the batch is written outside it. */
module Recording {
  import opened Wrappers
  import Text
  import Timestamps

  datatype Fate = InFlight | Written | Lost

  /** The entries of one swap and the file they are meant for. */
  datatype Batch = Batch(path: string, entries: seq<string>, fate: Fate)

  /** recorded remembers every entry Record appended, batches those swapped out, in the order of the swaps, writes
      the numbers of the batches in the order they reached their files. */
  datatype State = State(
    recorded: seq<string>, buffer: seq<string>, batches: seq<Batch>, writes: seq<nat>, files: map<string, string>)

  /** Record; the locked part of a flush with the path found for it; its write, or the failure to open or write. */
  datatype Event = Record(entry: string, finished: bool) | Swap(path: string) | Write(batch: nat) | Fail(batch: nat)

  const START: State := State([], [], [], [], map[])

  /** One line of a recording. */
  function Entry(t: Timestamps.Stamp, payload: string): string
    requires Timestamps.Valid(t)
  {
    "[" + Timestamps.Format(t) + "] " + payload
  }

  /** What stands where in a line. */
  lemma EntryFields(t: Timestamps.Stamp, payload: string)
    requires Timestamps.Valid(t)
    ensures var s, ts := Entry(t, payload), Timestamps.Format(t);
            && |s| == |ts| + 3 + |payload| && s[0] == '[' && s[1..|ts| + 1] == ts
            && s[|ts| + 1] == ']' && s[|ts| + 2] == ' ' && s[|ts| + 3..] == payload
  {
    hide Timestamps.Format;
  }

  function FileText(lines: seq<string>): string {
    if lines == [] then "" else FileText(lines[..|lines| - 1]) + lines[|lines| - 1] + "\n"
  }

  function Content(files: map<string, string>, path: string): string {
    if path in files then files[path] else ""
  }

  predicate Pending(s: State, i: nat) {
    i < |s.batches| && s.batches[i].fate.InFlight?
  }

  predicate Enabled(s: State, ev: Event) {
    match ev
    case Record(_, _) => true
    case Swap(_) => true
    case Write(i) => Pending(s, i)
    case Fail(i) => Pending(s, i)
  }

  function Next(s: State, ev: Event): State
    requires Enabled(s, ev)
  {
    match ev
    case Record(entry, finished) =>
      if finished then s else s.(recorded := s.recorded + [entry], buffer := s.buffer + [entry])
    case Swap(path) =>
      if path == "" || s.buffer == [] then s
      else s.(batches := s.batches + [Batch(path, s.buffer, InFlight)], buffer := [])
    case Write(i) =>
      var b := s.batches[i];
      s.(batches := s.batches[i := b.(fate := Written)], writes := s.writes + [i],
         files := s.files[b.path := Content(s.files, b.path) + Text.Join(b.entries, '\n') + "\n"])
    case Fail(i) => s.(batches := s.batches[i := s.batches[i].(fate := Lost)])
  }

  function Run(s: State, evs: seq<Event>): Option<State> {
    if evs == [] then Some(s)
    else
      var n := |evs| - 1;
      var mid := Run(s, evs[..n]);
      if mid.Some? && Enabled(mid.value, evs[n]) then Some(Next(mid.value, evs[n])) else None
  }

  // ---- conservation ----

  function Entries(batches: seq<Batch>): seq<string> {
    if batches == [] then [] else Entries(batches[..|batches| - 1]) + batches[|batches| - 1].entries
  }

  function EntriesWith(batches: seq<Batch>, fate: Fate): multiset<string> {
    if batches == [] then multiset{}
    else
      var last := batches[|batches| - 1];
      EntriesWith(batches[..|batches| - 1], fate) + if last.fate == fate then multiset(last.entries) else multiset{}
  }

  ghost predicate InRange(ws: seq<nat>, n: nat) {
    forall k :: 0 <= k < |ws| ==> ws[k] < n
  }

  /** The lines of the batches written to a file, in the order of the writes. */
  ghost function LinesIn(batches: seq<Batch>, writes: seq<nat>, path: string): seq<string>
    requires InRange(writes, |batches|)
  {
    if writes == [] then []
    else
      var n := |writes| - 1;
      var b := batches[writes[n]];
      LinesIn(batches, writes[..n], path) + if b.path == path then b.entries else []
  }

  /** writes lists the written batches, each once. */
  ghost predicate WrittenOnce(s: State) {
    && InRange(s.writes, |s.batches|)
    && (forall i: nat :: i in s.writes <==> i < |s.batches| && s.batches[i].fate.Written?)
    && forall j, k :: 0 <= j < k < |s.writes| ==> s.writes[j] != s.writes[k]
  }

  /** The order of the entries and the list of writes. */
  ghost predicate Ordered(s: State) {
    s.recorded == Entries(s.batches) + s.buffer && (forall b :: b in s.batches ==> b.entries != []) && WrittenOnce(s)
  }

  /** Every entry is in the buffer or in exactly one batch, in the order of recording, and each file holds exactly
      the lines of the batches written to it. */
  ghost predicate Kept(s: State) {
    && Ordered(s)
    && forall path :: Content(s.files, path) == FileText(LinesIn(s.batches, s.writes, path))
  }

  lemma {:induction false} FileTextJoined(a: seq<string>, b: seq<string>)
    ensures FileText(a + b) == FileText(a) + FileText(b)
  {
    if b == [] {
      assert a + b == a;
    } else {
      var n := |b| - 1;
      FileTextJoined(a, b[..n]);
      assert (a + b)[..|a| + n] == a + b[..n] && (a + b)[|a| + n] == b[n];
      Regroup(FileText(a), FileText(b[..n]), b[n], "\n");
    }
  }

  lemma Regroup<T>(a: seq<T>, b: seq<T>, c: seq<T>, d: seq<T>)
    ensures a + b + c + d == a + (b + c + d)
  {
  }

  /** A batch is written as its lines, each with its newline. */
  lemma {:induction false} BatchIsLines(entries: seq<string>)
    requires entries != []
    ensures Text.Join(entries, '\n') + "\n" == FileText(entries)
  {
    if |entries| == 1 {
      assert entries[..0] == [];
    } else {
      BatchIsLines(entries[1..]);
      assert entries == [entries[0]] + entries[1..];
      FileTextJoined([entries[0]], entries[1..]);
      assert [entries[0]][..0] == [];
      assert FileText([entries[0]]) == entries[0] + "\n";
    }
  }

  lemma {:induction false} SameEntries(batches: seq<Batch>, i: nat, fate: Fate)
    requires i < |batches|
    ensures Entries(batches[i := batches[i].(fate := fate)]) == Entries(batches)
  {
    var n := |batches| - 1;
    var after := batches[i := batches[i].(fate := fate)];
    if i < n {
      SameEntries(batches[..n], i, fate);
      assert after[..n] == batches[..n][i := batches[i].(fate := fate)];
    } else {
      assert after[..n] == batches[..n];
    }
  }

  lemma {:induction false} SameLines(batches: seq<Batch>, batches': seq<Batch>, writes: seq<nat>, path: string)
    requires |batches| <= |batches'| && InRange(writes, |batches|)
    requires forall i :: 0 <= i < |batches| ==>
                           batches[i].path == batches'[i].path && batches[i].entries == batches'[i].entries
    ensures LinesIn(batches', writes, path) == LinesIn(batches, writes, path)
  {
    if writes != [] {
      var n := |writes| - 1;
      SameLines(batches, batches', writes[..n], path);
    }
  }

  lemma WriteKeepsFiles(s: State, i: nat, path: string)
    requires Kept(s) && Pending(s, i)
    ensures var s' := Next(s, Write(i));
            && InRange(s'.writes, |s'.batches|)
            && Content(s'.files, path) == FileText(LinesIn(s'.batches, s'.writes, path))
  {
    hide Text.Join, FileText, Entries;
    var s' := Next(s, Write(i));
    var b := s.batches[i];
    assert s'.writes[..|s.writes|] == s.writes;
    SameLines(s.batches, s'.batches, s.writes, path);
    if b.path == path {
      BatchIsLines(b.entries);
      FileTextJoined(LinesIn(s.batches, s.writes, path), b.entries);
      assert Content(s.files, path) + Text.Join(b.entries, '\n') + "\n"
          == Content(s.files, path) + (Text.Join(b.entries, '\n') + "\n");
    } else {
      assert LinesIn(s.batches, s.writes, path) + [] == LinesIn(s.batches, s.writes, path);
    }
  }

  lemma SwapKeepsFiles(s: State, path: string, p: string)
    requires Kept(s)
    ensures var s' := Next(s, Swap(path));
            && InRange(s'.writes, |s'.batches|)
            && Content(s'.files, p) == FileText(LinesIn(s'.batches, s'.writes, p))
  {
    hide FileText, LinesIn, Entries;
    SameLines(s.batches, Next(s, Swap(path)).batches, s.writes, p);
  }

  lemma FailKeepsFiles(s: State, i: nat, p: string)
    requires Kept(s) && Pending(s, i)
    ensures var s' := Next(s, Fail(i));
            && InRange(s'.writes, |s'.batches|)
            && Content(s'.files, p) == FileText(LinesIn(s'.batches, s'.writes, p))
  {
    hide FileText, LinesIn, Entries;
    SameLines(s.batches, Next(s, Fail(i)).batches, s.writes, p);
  }

  lemma SwapKeepsOrdered(s: State, path: string)
    requires Ordered(s)
    ensures Ordered(Next(s, Swap(path)))
  {
    var added := s.batches + [Batch(path, s.buffer, InFlight)];
    assert added[..|s.batches|] == s.batches;
    assert Entries(added) == Entries(s.batches) + s.buffer;
  }

  lemma StepKeepsOrdered(s: State, ev: Event)
    requires Ordered(s) && Enabled(s, ev)
    ensures Ordered(Next(s, ev))
  {
    hide Text.Join, Content;
    match ev {
      case Record(_, _) =>
      case Swap(path) => SwapKeepsOrdered(s, path);
      case Write(i) => SameEntries(s.batches, i, Written);
      case Fail(i) => SameEntries(s.batches, i, Lost);
    }
  }

  lemma StepKeeps(s: State, ev: Event)
    requires Kept(s) && Enabled(s, ev)
    ensures Kept(Next(s, ev))
  {
    hide Text.Join, FileText, LinesIn, Content, Entries;
    StepKeepsOrdered(s, ev);
    forall p
      ensures Content(Next(s, ev).files, p) == FileText(LinesIn(Next(s, ev).batches, Next(s, ev).writes, p))
    {
      match ev {
        case Record(_, _) =>
        case Swap(path) => SwapKeepsFiles(s, path, p);
        case Write(i) => WriteKeepsFiles(s, i, p);
        case Fail(i) => FailKeepsFiles(s, i, p);
      }
    }
  }

  /** The entries of the messages that came while the session had not finished, read off the events alone. */
  function Accepted(evs: seq<Event>): seq<string> {
    if evs == [] then []
    else
      var ev := evs[|evs| - 1];
      Accepted(evs[..|evs| - 1]) + if ev.Record? && !ev.finished then [ev.entry] else []
  }

  lemma StepAccepts(s: State, ev: Event)
    requires Enabled(s, ev)
    ensures Next(s, ev).recorded == s.recorded + if ev.Record? && !ev.finished then [ev.entry] else []
  {
    hide Text.Join, Content;
  }

  /** Whatever the interleaving, nothing vanishes, nothing is written twice, and order is kept within a batch. */
  lemma {:induction false} EveryRunKeeps(evs: seq<Event>)
    requires Run(START, evs).Some?
    ensures Kept(Run(START, evs).value)
    ensures Run(START, evs).value.recorded == Accepted(evs)
  {
    hide Kept, Next;
    if evs == [] {
      NothingRecorded();
    } else {
      EveryRunKeeps(evs[..|evs| - 1]);
      StepKeeps(Run(START, evs[..|evs| - 1]).value, evs[|evs| - 1]);
      StepAccepts(Run(START, evs[..|evs| - 1]).value, evs[|evs| - 1]);
    }
  }

  lemma NothingRecorded()
    ensures Kept(START)
  {
  }

  lemma {:induction false} EntriesByFate(batches: seq<Batch>)
    ensures multiset(Entries(batches))
            == EntriesWith(batches, InFlight) + EntriesWith(batches, Written) + EntriesWith(batches, Lost)
  {
    if batches != [] {
      EntriesByFate(batches[..|batches| - 1]);
    }
  }

  /** Recorded entries are those in the buffer, in flight, written and lost, as multisets. */
  lemma RecordedAreAccounted(evs: seq<Event>)
    requires Run(START, evs).Some?
    ensures var s := Run(START, evs).value;
            multiset(Accepted(evs)) == multiset(s.buffer) + EntriesWith(s.batches, InFlight)
                                    + EntriesWith(s.batches, Written) + EntriesWith(s.batches, Lost)
  {
    hide Run, WrittenOnce, Accepted;
    EveryRunKeeps(evs);
    EntriesByFate(Run(START, evs).value.batches);
  }

  /** Only a failed open or write loses entries; a flush without a session path does not. */
  lemma {:induction false} OnlyFailuresLose(evs: seq<Event>)
    requires Run(START, evs).Some?
    requires forall k :: 0 <= k < |evs| ==> !evs[k].Fail?
    ensures forall i :: 0 <= i < |Run(START, evs).value.batches| ==> !Run(START, evs).value.batches[i].fate.Lost?
  {
    if evs != [] {
      OnlyFailuresLose(evs[..|evs| - 1]);
    }
  }

  // ---- the order in a file ----

  /** No flush starts while another one is writing. */
  predicate Serial(s: State, evs: seq<Event>) {
    evs == [] ||
    var n := |evs| - 1;
    && Serial(s, evs[..n])
    && (evs[n].Swap? && Run(s, evs[..n]).Some? ==>
          forall i :: 0 <= i < |Run(s, evs[..n]).value.batches| ==> !Pending(Run(s, evs[..n]).value, i))
  }

  ghost predicate InOrder(s: State) {
    && (forall i: nat :: Pending(s, i) ==> i == |s.batches| - 1)
    && InRange(s.writes, |s.batches|)
    && (forall i: nat :: i in s.writes ==> s.batches[i].fate.Written?)
    && forall j, k :: 0 <= j < k < |s.writes| ==> s.writes[j] < s.writes[k]
  }

  lemma {:induction false} SerialRunsAreInOrder(evs: seq<Event>)
    requires Run(START, evs).Some? && Serial(START, evs)
    ensures InOrder(Run(START, evs).value)
  {
    if evs != [] {
      var n := |evs| - 1;
      SerialRunsAreInOrder(evs[..n]);
      StepKeepsOrder(Run(START, evs[..n]).value, evs[n]);
    }
  }

  lemma StepKeepsOrder(s: State, ev: Event)
    requires InOrder(s) && Enabled(s, ev)
    requires ev.Swap? ==> forall i :: 0 <= i < |s.batches| ==> !Pending(s, i)
    ensures InOrder(Next(s, ev))
  {
    hide Text.Join, Content;
    var s' := Next(s, ev);
    match ev {
      case Write(i) =>
        forall k: nat | Pending(s', k)
          ensures k == |s'.batches| - 1
        {
          assert Pending(s, k);
        }
        forall w: nat | w in s.writes
          ensures w < i
        {
          assert w != i;
        }
        forall j, k | 0 <= j < k < |s'.writes|
          ensures s'.writes[j] < s'.writes[k]
        {
          assert s.writes[j] in s.writes;
        }
      case Swap(_) =>
        forall i: nat | Pending(s', i)
          ensures i == |s'.batches| - 1
        {
          assert !Pending(s, i);
        }
      case Fail(_) =>
        forall i: nat | Pending(s', i)
          ensures i == |s'.batches| - 1
        {
          assert Pending(s, i);
        }
      case Record(_, _) =>
        forall i: nat | Pending(s', i)
          ensures i == |s'.batches| - 1
        {
          assert Pending(s, i);
        }
    }
  }

  ghost predicate Ascending(ws: seq<nat>) {
    forall j, k :: 0 <= j < k < |ws| ==> ws[j] < ws[k]
  }

  /** The batches written to a file, in the order of the writes. */
  ghost function WritesTo(batches: seq<Batch>, writes: seq<nat>, path: string): (ws: seq<nat>)
    requires InRange(writes, |batches|)
    ensures InRange(ws, |batches|)
    ensures forall i :: i in ws <==> i in writes && batches[i].path == path
  {
    if writes == [] then []
    else
      var n := |writes| - 1;
      WritesTo(batches, writes[..n], path) + if batches[writes[n]].path == path then [writes[n]] else []
  }

  /** The same batches, in the order of the swaps. */
  ghost function SwapsTo(batches: seq<Batch>, path: string): (ws: seq<nat>)
    ensures forall i: nat :: i in ws <==> i < |batches| && batches[i].fate.Written? && batches[i].path == path
    ensures Ascending(ws) && InRange(ws, |batches|)
  {
    if batches == [] then []
    else
      var n := |batches| - 1;
      var front := SwapsTo(batches[..n], path);
      assert forall k :: 0 <= k < |front| ==> front[k] in front;
      front + if batches[n].fate.Written? && batches[n].path == path then [n] else []
  }

  ghost function LinesOf(batches: seq<Batch>, ws: seq<nat>): seq<string>
    requires InRange(ws, |batches|)
  {
    if ws == [] then []
    else
      var n := |ws| - 1;
      LinesOf(batches, ws[..n]) + batches[ws[n]].entries
  }

  lemma {:induction false} LinesOfWrites(batches: seq<Batch>, writes: seq<nat>, path: string)
    requires InRange(writes, |batches|)
    ensures LinesIn(batches, writes, path) == LinesOf(batches, WritesTo(batches, writes, path))
  {
    hide LinesOf;
    if writes == [] {
      NoLinesOf(batches);
    }
    if writes != [] {
      var n := |writes| - 1;
      LinesOfWrites(batches, writes[..n], path);
      if batches[writes[n]].path == path {
        LinesOfMore(batches, WritesTo(batches, writes[..n], path), writes[n]);
      } else {
        assert WritesTo(batches, writes[..n], path) + [] == WritesTo(batches, writes[..n], path);
        assert LinesIn(batches, writes[..n], path) + [] == LinesIn(batches, writes[..n], path);
      }
    }
  }

  lemma NoLinesOf(batches: seq<Batch>)
    ensures LinesOf(batches, []) == []
  {
  }

  lemma LinesOfMore(batches: seq<Batch>, ws: seq<nat>, i: nat)
    requires i < |batches| && InRange(ws, |batches|)
    ensures LinesOf(batches, ws + [i]) == LinesOf(batches, ws) + batches[i].entries
  {
    assert (ws + [i])[..|ws|] == ws;
  }

  lemma FirstIsIn(ws: seq<nat>)
    ensures ws != [] ==> ws[0] in ws
  {
  }

  lemma {:induction false} AscendingIsUnique(a: seq<nat>, b: seq<nat>)
    requires Ascending(a) && Ascending(b) && forall i: nat :: i in a <==> i in b
    ensures a == b
  {
    if a == [] {
      FirstIsIn(b);
    } else {
      var m, n := |a| - 1, |b| - 1;
      assert a[m] in a && a[m] in b;
      LastOfAscending(a);
      LastOfAscending(b);
      assert b[n] in a;
      assert a[m] == b[n];
      forall i: nat
        ensures i in a[..m] <==> i in b[..n]
      {
        assert i in a <==> i in b;
      }
      AscendingIsUnique(a[..m], b[..n]);
      assert a == a[..m] + [a[m]] && b == b[..n] + [b[n]];
    }
  }

  lemma LastOfAscending(a: seq<nat>)
    requires Ascending(a) && a != []
    ensures a[|a| - 1] in a && forall i: nat :: i in a ==> i <= a[|a| - 1]
    ensures Ascending(a[..|a| - 1])
    ensures forall i: nat :: i in a[..|a| - 1] <==> i in a && i != a[|a| - 1]
  {
  }

  /** Writes that reach a file in the order of their swaps leave its lines in the order of recording. */
  lemma AscendingWritesKeepOrder(s: State, path: string)
    requires Kept(s) && Ascending(WritesTo(s.batches, s.writes, path))
    ensures Content(s.files, path) == FileText(LinesOf(s.batches, SwapsTo(s.batches, path)))
  {
    hide FileText, LinesIn, LinesOf, Entries;
    LinesOfWrites(s.batches, s.writes, path);
    AscendingIsUnique(WritesTo(s.batches, s.writes, path), SwapsTo(s.batches, path));
  }

  // ---- and no other order does ----

  predicate AreLines(lines: seq<string>) {
    forall l :: l in lines ==> '\n' !in l
  }

  ghost predicate PairwiseDistinct(lines: seq<string>) {
    forall j, k :: 0 <= j < k < |lines| ==> lines[j] != lines[k]
  }

  lemma LastLine(x: string, a: string, y: string, b: string)
    requires x == "" || x[|x| - 1] == '\n'
    requires y == "" || y[|y| - 1] == '\n'
    requires '\n' !in a && '\n' !in b && x + a + "\n" == y + b + "\n"
    ensures x == y && a == b
  {
    var p, q := x + a, y + b;
    assert p == (p + "\n")[..|p|] && q == (q + "\n")[..|q|];
    assert p == q;
    assert forall k :: |x| <= k < |p| ==> p[k] == a[k - |x|];
    assert forall k :: |y| <= k < |q| ==> q[k] == b[k - |y|];
    assert x != "" ==> p[|x| - 1] == '\n';
    assert y != "" ==> q[|y| - 1] == '\n';
    assert |x| == |y|;
    assert x == p[..|x|] && y == q[..|x|] && a == p[|x|..] && b == q[|x|..];
  }

  /** A text determines its lines. */
  lemma {:induction false} FileTextIsInjective(a: seq<string>, b: seq<string>)
    requires AreLines(a) && AreLines(b) && FileText(a) == FileText(b)
    ensures a == b
  {
    if a != [] && b != [] {
      var m, n := |a| - 1, |b| - 1;
      assert a[m] in a && b[n] in b;
      assert (forall l :: l in a[..m] ==> l in a) && forall l :: l in b[..n] ==> l in b;
      LastLine(FileText(a[..m]), a[m], FileText(b[..n]), b[n]);
      FileTextIsInjective(a[..m], b[..n]);
      assert a == a[..m] + [a[m]] && b == b[..n] + [b[n]];
    }
  }

  lemma {:induction false} InEntries(batches: seq<Batch>, i: nat, a: nat) returns (k: nat)
    requires i < |batches| && a < |batches[i].entries|
    ensures k < |Entries(batches)| && Entries(batches)[k] == batches[i].entries[a]
  {
    var n := |batches| - 1;
    if i == n {
      k := |Entries(batches[..n])| + a;
    } else {
      k := InEntries(batches[..n], i, a);
    }
  }

  /** No entry is in two batches. */
  ghost predicate NoneShared(batches: seq<Batch>) {
    forall i, j, x :: 0 <= i < j < |batches| && x in batches[i].entries ==> x !in batches[j].entries
  }

  lemma {:induction false} DistinctAreNotShared(batches: seq<Batch>)
    requires PairwiseDistinct(Entries(batches))
    ensures NoneShared(batches)
  {
    if batches != [] {
      var n := |batches| - 1;
      var front := Entries(batches[..n]);
      assert Entries(batches) == front + batches[n].entries;
      assert forall j, k :: 0 <= j < k < |front| ==> front[j] == Entries(batches)[j] && front[k] == Entries(batches)[k];
      DistinctAreNotShared(batches[..n]);
      forall i, x | 0 <= i < n && x in batches[i].entries
        ensures x !in batches[n].entries
      {
        var a :| 0 <= a < |batches[i].entries| && batches[i].entries[a] == x;
        var k := InEntries(batches[..n], i, a);
        forall b | 0 <= b < |batches[n].entries|
          ensures batches[n].entries[b] != x
        {
          assert Entries(batches)[k] == x && Entries(batches)[|front| + b] == batches[n].entries[b];
        }
      }
    }
  }

  /** The lines of a file tell in which order its batches were written. */
  lemma {:induction false} LinesDetermineOrder(batches: seq<Batch>, ws: seq<nat>, vs: seq<nat>)
    requires InRange(ws, |batches|) && InRange(vs, |batches|)
    requires NoneShared(batches) && forall b :: b in batches ==> b.entries != []
    requires LinesOf(batches, ws) == LinesOf(batches, vs)
    ensures ws == vs
  {
    hide NoneShared, LinesOf;
    if ws == [] || vs == [] {
      NonemptyLines(batches, ws);
      NonemptyLines(batches, vs);
    } else {
      var ws', vs', i, j := ws[..|ws| - 1], vs[..|vs| - 1], ws[|ws| - 1], vs[|vs| - 1];
      assert ws == ws' + [i] && vs == vs' + [j];
      var x, y := batches[i].entries, batches[j].entries;
      assert batches[i] in batches && batches[j] in batches;
      LinesOfMore(batches, ws', i);
      LinesOfMore(batches, vs', j);
      SharedEnd(LinesOf(batches, ws'), x, LinesOf(batches, vs'), y);
      OneBatch(batches, i, j, x[|x| - 1]);
      LinesDetermineOrder(batches, ws', vs');
    }
  }

  lemma SharedEnd(x: seq<string>, a: seq<string>, y: seq<string>, b: seq<string>)
    requires x + a == y + b && a != [] && b != []
    ensures a[|a| - 1] in a && a[|a| - 1] in b
    ensures a == b ==> x == y
  {
    var all := x + a;
    assert all[|all| - 1] == a[|a| - 1] && (y + b)[|all| - 1] == b[|b| - 1];
    if a == b {
      assert x == all[..|x|] && y == (y + b)[..|x|];
    }
  }

  lemma OneBatch(batches: seq<Batch>, i: nat, j: nat, x: string)
    requires NoneShared(batches) && i < |batches| && j < |batches|
    requires x in batches[i].entries && x in batches[j].entries
    ensures i == j
  {
  }

  lemma NonemptyLines(batches: seq<Batch>, ws: seq<nat>)
    requires InRange(ws, |batches|) && forall b :: b in batches ==> b.entries != []
    ensures LinesOf(batches, ws) == [] <==> ws == []
  {
    if ws != [] {
      assert ws[|ws| - 1] in ws;
      assert batches[ws[|ws| - 1]] in batches;
    }
  }

  lemma {:induction false} LinesAreRecorded(batches: seq<Batch>, ws: seq<nat>)
    requires InRange(ws, |batches|)
    ensures forall l :: l in LinesOf(batches, ws) ==> l in Entries(batches)
  {
    if ws != [] {
      var n := |ws| - 1;
      LinesAreRecorded(batches, ws[..n]);
      forall a | 0 <= a < |batches[ws[n]].entries|
        ensures batches[ws[n]].entries[a] in Entries(batches)
      {
        var k := InEntries(batches, ws[n], a);
      }
    }
  }

  /** When all entries are different lines, the file of a path holds its batches in the order of recording exactly
      when their writes landed in the order of their swaps. */
  lemma FileInOrderIff(evs: seq<Event>, path: string)
    requires Run(START, evs).Some?
    requires PairwiseDistinct(Accepted(evs)) && AreLines(Accepted(evs))
    ensures Kept(Run(START, evs).value)
    ensures var s := Run(START, evs).value;
            Content(s.files, path) == FileText(LinesOf(s.batches, SwapsTo(s.batches, path)))
            <==> Ascending(WritesTo(s.batches, s.writes, path))
  {
    hide Run, Accepted, FileText, LinesIn, LinesOf, Entries, Ascending, NoneShared;
    EveryRunKeeps(evs);
    var s := Run(START, evs).value;
    var ws, vs := WritesTo(s.batches, s.writes, path), SwapsTo(s.batches, path);
    if Ascending(ws) {
      AscendingWritesKeepOrder(s, path);
    }
    if Content(s.files, path) == FileText(LinesOf(s.batches, vs)) {
      LinesOfWrites(s.batches, s.writes, path);
      LinesAreRecorded(s.batches, ws);
      LinesAreRecorded(s.batches, vs);
      assert forall l :: l in Entries(s.batches) ==> l in s.recorded;
      FileTextIsInjective(LinesOf(s.batches, ws), LinesOf(s.batches, vs));
      DistinctPrefix(Entries(s.batches), s.buffer);
      DistinctAreNotShared(s.batches);
      LinesDetermineOrder(s.batches, ws, vs);
    }
  }

  lemma DistinctPrefix(a: seq<string>, b: seq<string>)
    requires PairwiseDistinct(a + b)
    ensures PairwiseDistinct(a)
  {
    forall j, k | 0 <= j < k < |a|
      ensures a[j] != a[k]
    {
      assert (a + b)[j] == a[j] && (a + b)[k] == a[k];
    }
  }

  lemma {:induction false} SomeWritesAscend(batches: seq<Batch>, writes: seq<nat>, path: string)
    requires InRange(writes, |batches|) && Ascending(writes)
    ensures Ascending(WritesTo(batches, writes, path))
  {
    if writes != [] {
      var n := |writes| - 1;
      SomeWritesAscend(batches, writes[..n], path);
      var front := WritesTo(batches, writes[..n], path);
      forall k | 0 <= k < |front|
        ensures front[k] < writes[n]
      {
        assert front[k] in front && front[k] in writes[..n];
      }
    }
  }

  /** When no flush starts while another one writes, every file is in the order of recording, whatever the split into
      batches, the changes of path and the batches that were lost. */
  lemma SerialFlushesKeepOrder(evs: seq<Event>, path: string)
    requires Run(START, evs).Some? && Serial(START, evs)
    ensures var s := Run(START, evs).value;
            Content(s.files, path) == FileText(LinesOf(s.batches, SwapsTo(s.batches, path)))
  {
    hide Run, Serial, FileText, LinesIn, LinesOf, Entries;
    EveryRunKeeps(evs);
    SerialRunsAreInOrder(evs);
    var s := Run(START, evs).value;
    SomeWritesAscend(s.batches, s.writes, path);
    AscendingWritesKeepOrder(s, path);
  }

  /** The writes to a file landed in the order of their swaps. */
  ghost predicate InSwapOrder(s: State, path: string) {
    InRange(s.writes, |s.batches|) && Ascending(WritesTo(s.batches, s.writes, path))
  }

  ghost predicate AllWritten(batches: seq<Batch>, path: string) {
    forall b :: b in batches ==> b.fate.Written? && b.path == path
  }

  lemma {:induction false} AllLines(batches: seq<Batch>, path: string)
    requires AllWritten(batches, path)
    ensures |SwapsTo(batches, path)| == |batches| && LinesOf(batches, SwapsTo(batches, path)) == Entries(batches)
  {
    if batches != [] {
      var n := |batches| - 1;
      AllLines(batches[..n], path);
      var front := SwapsTo(batches[..n], path);
      assert batches[n] in batches;
      assert SwapsTo(batches, path) == front + [n] && (front + [n])[..|front|] == front;
      SameLinesOf(batches[..n], batches, front);
    }
  }

  lemma {:induction false} SameLinesOf(batches: seq<Batch>, batches': seq<Batch>, ws: seq<nat>)
    requires batches <= batches' && InRange(ws, |batches|)
    ensures LinesOf(batches', ws) == LinesOf(batches, ws)
  {
    if ws != [] {
      var n := |ws| - 1;
      SameLinesOf(batches, batches', ws[..n]);
    }
  }

  /** When every batch reached one file in order, the file and the buffer are the whole recording. */
  lemma WholeRecordingInOrder(evs: seq<Event>, path: string)
    requires Run(START, evs).Some?
    requires var s := Run(START, evs).value; InSwapOrder(s, path) && AllWritten(s.batches, path)
    ensures var s := Run(START, evs).value; Content(s.files, path) + FileText(s.buffer) == FileText(Accepted(evs))
  {
    hide Run, Accepted, FileText, LinesIn, LinesOf, Ascending, WrittenOnce;
    EveryRunKeeps(evs);
    var s := Run(START, evs).value;
    AscendingWritesKeepOrder(s, path);
    AllLines(s.batches, path);
    FileTextJoined(Entries(s.batches), s.buffer);
  }

  /** A file misses lines of the recording exactly when a batch did not reach it. */
  lemma {:induction false} SomeLines(batches: seq<Batch>, path: string)
    requires forall b :: b in batches ==> b.entries != []
    ensures var lines := LinesOf(batches, SwapsTo(batches, path));
            |lines| <= |Entries(batches)| && (|lines| == |Entries(batches)| ==> AllWritten(batches, path))
  {
    hide LinesOf, SwapsTo, Entries;
    if batches == [] {
      NoBatches(path);
    } else {
      var earlier, b := batches[..|batches| - 1], batches[|batches| - 1];
      assert batches == earlier + [b] && b in batches;
      SomeLines(earlier, path);
      SwapsToMore(earlier, b, path);
      SameLinesOf(earlier, batches, SwapsTo(earlier, path));
      LinesOfMore(batches, SwapsTo(earlier, path), |earlier|);
      assert AllWritten(earlier, path) && b.fate.Written? && b.path == path ==> AllWritten(batches, path);
    }
  }

  lemma NoBatches(path: string)
    ensures SwapsTo([], path) == [] && LinesOf([], []) == [] && Entries([]) == [] && AllWritten([], path)
  {
  }

  lemma SwapsToMore(earlier: seq<Batch>, b: Batch, path: string)
    ensures SwapsTo(earlier + [b], path)
            == if b.fate.Written? && b.path == path then SwapsTo(earlier, path) + [|earlier|] else SwapsTo(earlier, path)
    ensures Entries(earlier + [b]) == Entries(earlier) + b.entries
  {
    assert (earlier + [b])[..|earlier|] == earlier;
  }

  /** Two flushes that overlap may swap their batches in the file. */
  lemma OverlappingFlushesMayReorder(a: string, b: string, path: string)
    requires path != ""
    ensures var evs := [Record(a, false), Swap(path), Record(b, false), Swap(path), Write(1), Write(0)];
            var s := Run(START, evs);
            s.Some? && s.value.recorded == [a, b] && Content(s.value.files, path) == FileText([b, a])
  {
    hide Text.Join, Next, Run, FileText;
    var evs, s := TwoInFlight(a, b, path);
    WriteStep(s, 1, b);
    evs, s := RunMore(evs, s, Write(1));
    WriteStep(s, 0, a);
    evs, s := RunMore(evs, s, Write(0));
    TwoLines(b, a);
    assert evs == [Record(a, false), Swap(path), Record(b, false), Swap(path), Write(1), Write(0)];
  }

  lemma TwoInFlight(a: string, b: string, path: string) returns (evs: seq<Event>, s: State)
    requires path != ""
    ensures evs == [Record(a, false), Swap(path), Record(b, false), Swap(path)] && Run(START, evs) == Some(s)
    ensures s == State([a, b], [], [Batch(path, [a], InFlight), Batch(path, [b], InFlight)], [], map[])
  {
    hide Text.Join, Next, Run, Content;
    evs, s := [], START;
    NoEvents();
    RecordStep(s, a);
    evs, s := RunMore(evs, s, Record(a, false));
    assert s.buffer == [a];
    SwapStep(s, path);
    evs, s := RunMore(evs, s, Swap(path));
    RecordStep(s, b);
    evs, s := RunMore(evs, s, Record(b, false));
    assert s.buffer == [b];
    assert s.batches == [Batch(path, [a], InFlight)];
    SwapStep(s, path);
    evs, s := RunMore(evs, s, Swap(path));
  }

  lemma NoEvents()
    ensures Run(START, []) == Some(START)
  {
  }

  lemma RunMore(evs: seq<Event>, s: State, ev: Event) returns (evs': seq<Event>, s': State)
    requires Run(START, evs) == Some(s) && Enabled(s, ev)
    ensures evs' == evs + [ev] && s' == Next(s, ev) && Run(START, evs') == Some(s')
  {
    hide Next;
    evs', s' := evs + [ev], Next(s, ev);
    assert evs'[..|evs|] == evs;
  }

  lemma RecordStep(s: State, entry: string)
    ensures Next(s, Record(entry, false)) == s.(recorded := s.recorded + [entry], buffer := s.buffer + [entry])
  {
  }

  lemma SwapStep(s: State, path: string)
    requires path != "" && s.buffer != []
    ensures Next(s, Swap(path)) == s.(batches := s.batches + [Batch(path, s.buffer, InFlight)], buffer := [])
  {
  }

  lemma WriteStep(s: State, i: nat, entry: string)
    requires Pending(s, i) && s.batches[i].entries == [entry]
    ensures var b := s.batches[i];
            Next(s, Write(i)) == s.(batches := s.batches[i := b.(fate := Written)], writes := s.writes + [i],
                                    files := s.files[b.path := Content(s.files, b.path) + entry + "\n"])
  {
  }

  lemma TwoLines(a: string, b: string)
    ensures FileText([a, b]) == "" + a + "\n" + b + "\n"
  {
    assert [a, b][..1] == [a] && [a][..0] == [];
    assert FileText([a]) == "" + a + "\n";
    assert FileText([a, b]) == FileText([a]) + b + "\n";
  }

  // ---- the recorder object ----

  /** A flush that nothing interrupts: the swap and, if it took a batch, the write or its failure. */
  function Flushed(s: State, path: string, fails: bool): State {
    var swapped := Next(s, Swap(path));
    if swapped == s then s
    else Next(swapped, if fails then Fail(|s.batches|) else Write(|s.batches|))
  }

  /** A flush that does not fail leaves nothing in the buffer and puts it into the file; without a path it does nothing. */
  lemma FlushEmptiesBuffer(s: State, path: string)
    requires Kept(s)
    ensures path == "" ==> Flushed(s, path, false) == s
    ensures path != "" ==> Flushed(s, path, false).buffer == []
    ensures path != "" ==> Content(Flushed(s, path, false).files, path) == Content(s.files, path) + FileText(s.buffer)
  {
    hide FileText, Entries, LinesIn, Text.Join;
    if path != "" && s.buffer != [] {
      BatchIsLines(s.buffer);
      var t := Text.Join(s.buffer, '\n');
      assert Content(s.files, path) + t + "\n" == Content(s.files, path) + (t + "\n");
    } else {
      NoLines();
    }
  }

  lemma NoLines()
    ensures FileText([]) == ""
  {
  }

  class Recorder {
    const recordingEnabled: bool
    var buffer: seq<string>
    var stopped: bool
    /** The text of the recording files. */
    var files: map<string, string>
    ghost var state: State

    ghost predicate Valid()
      reads this
    {
      buffer == state.buffer && files == state.files
    }

    constructor (enabled: bool)
      ensures Valid() && state == START && recordingEnabled == enabled && !stopped
    {
      recordingEnabled := enabled;
      buffer, stopped, files, state := [], false, map[], START;
    }

    method Record(t: Timestamps.Stamp, payload: string, finished: bool)
      requires Valid() && Timestamps.Valid(t)
      modifies this
      ensures Valid() && stopped == old(stopped)
      ensures state == if recordingEnabled then Next(old(state), Event.Record(Entry(t, payload), finished)) else old(state)
    {
      if recordingEnabled && !finished {
        buffer := buffer + [Entry(t, payload)];
        state := Next(state, Event.Record(Entry(t, payload), finished));
      }
    }

    /** flush up to the unlock: the buffer is taken, unless there is no path or nothing to take. */
    method TakeBatch(path: string) returns (taken: bool, toWrite: seq<string>)
      requires Valid()
      modifies this`buffer, this`state
      ensures Valid() && state == Next(old(state), Swap(path))
      ensures taken <==> state != old(state)
      ensures taken ==> state.batches == old(state).batches + [Batch(path, toWrite, InFlight)]
    {
      toWrite := buffer;
      taken := path != "" && |buffer| > 0;
      if taken {
        buffer := [];
      }
      state := Next(state, Swap(path));
    }

    /** The rest of flush for the batch numbered i. */
    method WriteBatch(path: string, toWrite: seq<string>, fails: bool, ghost i: nat)
      requires Valid() && i < |state.batches| && state.batches[i] == Batch(path, toWrite, InFlight)
      modifies this`files, this`state
      ensures Valid() && state == Next(old(state), if fails then Fail(i) else Write(i))
    {
      if !fails {
        var content := if path in files then files[path] else "";
        files := files[path := content + Text.Join(toWrite, '\n') + "\n"];
      }
      state := Next(state, if fails then Fail(i) else Write(i));
    }

    /** flush, with its two halves one after the other; FinalizeSessionRecording is one of its callers. */
    method Flush(path: string, fails: bool)
      requires Valid()
      modifies this`buffer, this`files, this`state
      ensures Valid() && state == Flushed(old(state), path, fails)
    {
      hide Text.Join;
      var taken, toWrite := TakeBatch(path);
      if taken {
        WriteBatch(path, toWrite, fails, |old(state).batches|);
      }
    }

    /** Stop: the last flush, once. */
    method Stop(path: string, fails: bool)
      requires Valid()
      modifies this
      ensures Valid() && stopped == (recordingEnabled || old(stopped))
      ensures state == if recordingEnabled && !old(stopped) then Flushed(old(state), path, fails) else old(state)
    {
      hide Text.Join;
      if recordingEnabled && !stopped {
        stopped := true;
        Flush(path, fails);
      }
    }
  }
}
