/** HandleNewStreamMessage as a step relation on values, and what holds over whole runs of it. */
module Relay {
  import opened Wrappers
  import opened Decimal
  import opened SliceMerge
  import opened Sectors
  import opened MergeLaws
  import opened Collections
  import opened LapHistory
  import opened Roster
  import opened Incidents

  /** How many feed updates may be skipped before the client is told to reconnect. */
  const SKIP_LIMIT: nat := 50

  /** The parts of GlobalState that carry history or feed it. base counts the race-control messages that came
      with the snapshot. */
  datatype State = State(
    key: int, lines: map<string, Driver>, laps: map<string, seq<Lap>>, drivers: Drivers,
    messages: seq<Message>, base: nat, incidents: map<string, seq<Incident>>,
    stints: map<string, seq<Fields>>, statusSeries: seq<Fields>)

  const EMPTY: State := State(0, map[], map[], map[], [], 0, map[], map[], [])

  /** GlobalState (None: nil) and the SkippedFeedUpdates counter. */
  datatype RelayState = RelayState(state: Option<State>, skipped: nat)

  /** A message whose R field is there: it does not decode, R is spelled r, or it decodes to these parts. */
  datatype Snapshot =
    | Malformed
    | WithoutR
    | Decoded(key: int, lines: map<string, Driver>, drivers: Drivers, messages: seq<Message>,
              stints: map<string, seq<Fields>>, statusSeries: seq<Fields>)

  /** A decoded feed update. */
  datatype FeedUpdate =
    | TimingData(timing: map<string, DriverPatch>)
    | SessionInfo(key: Option<int>)
    | TimingAppData(stints: map<string, Option<SliceUpdate<Fields, Fields>>>)
    | DriverList(list: ListUpdate)
    | RaceControlMessages(control: Incidents.Update)
    | SessionData(status: Option<SliceUpdate<Fields, Fields>>)
    | Other

  /** A snapshot, a feed message (None when its topic or payload does not decode), a message of neither form,
      the session manager's reset, or a browser that connects. */
  datatype Event = Snapshot(snapshot: Snapshot) | Feed(update: Option<FeedUpdate>) | Unknown | Reset | BrowserJoins

  // ---- one step ----

  /** The carry-over of NewGlobalState: a snapshot of the same session. */
  predicate SameSession(before: Option<State>, s: Snapshot) {
    s.Decoded? && before.Some? && before.value.key == s.key
  }

  function Loaded(before: Option<State>, s: Snapshot): State
    requires s.Decoded?
  {
    var same := SameSession(before, s);
    State(s.key, s.lines, if same then before.value.laps else map[],
          if same then CarriedOver(before.value.drivers, SnapshotList(s.drivers)) else SnapshotList(s.drivers),
          s.messages, |s.messages|, map[], s.stints, s.statusSeries)
  }

  /** What a decoded snapshot makes of the state: the session, lines, messages, stints and statuses are its own, there are
      no incidents, and with the same session key as before the laps and the known starting positions are kept. */
  lemma SnapshotState(before: Option<State>, s: Snapshot, d: string)
    requires s.Decoded?
    ensures var now := Loaded(before, s);
            && now.key == s.key && now.lines == s.lines && now.messages == s.messages && now.base == |now.messages|
            && now.stints == s.stints && now.statusSeries == s.statusSeries && now.incidents == map[]
            && LapsOf(now.laps, d) == (if before.Some? && before.value.key == s.key then LapsOf(before.value.laps, d) else [])
            && (d in now.drivers <==> d in s.drivers && d != "_kf")
            && (d in now.drivers ==>
                  var info := s.drivers[d];
                  var start := if before.Some? && before.value.key == s.key && d in before.value.drivers
                                  && before.value.drivers[d].startingPosition != ""
                               then before.value.drivers[d].startingPosition else info.startingPosition;
                  now.drivers[d]
                  == DriverInfo(info.line, if start == "" && info.line != 0 then Itoa(info.line) else start, info.rest))
  {
    hide CarriedOver, SnapshotList;
    SnapshotStart(if SameSession(before, s) then Some(before.value.drivers) else None, s.drivers, d);
  }

  ghost predicate StintsStep(stints: map<string, seq<Fields>>, u: map<string, Option<SliceUpdate<Fields, Fields>>>,
                             stints': map<string, seq<Fields>>)
  {
    && stints'.Keys == stints.Keys + u.Keys
    && forall d :: d in stints' ==>
                     if d in u && u[d].Some? then SliceUpdated(StintsOf(stints, d), u[d].value, stints'[d])
                     else stints'[d] == StintsOf(stints, d)
  }

  /** ApplyFeedUpdate. */
  ghost predicate Fed(parse: Parser, s: State, u: FeedUpdate, s': State) {
    match u
    case TimingData(timing) =>
      && s' == s.(lines := s'.lines, laps := s'.laps)
      && TimingStep(s.lines, s.laps, timing, s.stints, s'.lines, s'.laps)
    case SessionInfo(key) => s' == s.(key := Or(key, s.key))
    case TimingAppData(stints) => s' == s.(stints := s'.stints) && StintsStep(s.stints, stints, s'.stints)
    case DriverList(list) => s' == s.(drivers := ListAfter(s.drivers, list))
    case RaceControlMessages(control) =>
      && s' == s.(messages := s'.messages, incidents := s'.incidents)
      && exists added :: Appends(control, added) && Logged(parse, s, added, s')
    case SessionData(status) =>
      && s' == s.(statusSeries := s'.statusSeries)
      && if status.Some? then SliceUpdated(s.statusSeries, status.value, s'.statusSeries)
         else s'.statusSeries == s.statusSeries
    case Other => s' == s
  }

  ghost predicate Logged(parse: Parser, s: State, added: seq<Message>, s': State) {
    && s'.messages == s.messages + added
    && forall d :: EntryOf(s'.incidents, d) == After(parse, EntryOf(s.incidents, d), added, d)
  }

  function Skip(skipped: nat): nat {
    if skipped + 1 >= SKIP_LIMIT then 0 else skipped + 1
  }

  /** The step that tells the client to reconnect. */
  predicate ForcesReconnect(r: RelayState, ev: Event) {
    ev.Feed? && r.state.None? && r.skipped + 1 >= SKIP_LIMIT
  }

  ghost predicate Step(parse: Parser, r: RelayState, ev: Event, r': RelayState) {
    match ev
    case Snapshot(s) =>
      if s.Malformed? then r' == r.(state := None)
      else r' == RelayState(Some(if s.WithoutR? then EMPTY else Loaded(r.state, s)), 0)
    case Feed(u) =>
      if r.state.None? then r' == r.(skipped := Skip(r.skipped))
      else if u.None? then r' == r
      else r'.state.Some? && r'.skipped == 0 && Fed(parse, r.state.value, u.value, r'.state.value)
    case Unknown => r' == r
    case Reset => r' == r.(state := Some(EMPTY))
    case BrowserJoins => if r.state.None? then r' == r.(state := Some(EMPTY)) else r' == r
  }

  ghost predicate IsRun(parse: Parser, rs: seq<RelayState>, evs: seq<Event>) {
    && |rs| == |evs| + 1
    && forall k :: 0 <= k < |evs| ==> Step(parse, rs[k], evs[k], rs[k + 1])
  }

  lemma ShorterRun(parse: Parser, rs: seq<RelayState>, evs: seq<Event>)
    requires IsRun(parse, rs, evs) && evs != []
    ensures IsRun(parse, rs[..|evs|], evs[..|evs| - 1])
    ensures Step(parse, rs[|evs| - 1], evs[|evs| - 1], rs[|evs|])
  {
    hide Step;
    var shorter, fewer := rs[..|evs|], evs[..|evs| - 1];
    forall k | 0 <= k < |fewer|
      ensures Step(parse, shorter[k], fewer[k], shorter[k + 1])
    {
      assert Step(parse, rs[k], evs[k], rs[k + 1]);
    }
  }

  lemma LongerRun(parse: Parser, rs: seq<RelayState>, evs: seq<Event>, ev: Event, r': RelayState)
    requires IsRun(parse, rs, evs) && Step(parse, rs[|evs|], ev, r')
    ensures IsRun(parse, rs + [r'], evs + [ev])
  {
    hide Step;
    var longer, more := rs + [r'], evs + [ev];
    forall k | 0 <= k < |more|
      ensures Step(parse, longer[k], more[k], longer[k + 1])
    {
      if k < |evs| {
        assert longer[k] == rs[k] && longer[k + 1] == rs[k + 1] && more[k] == evs[k];
      }
    }
  }

  // ---- what every reachable state satisfies ----

  ghost predicate SoundLaps(laps: seq<Lap>) {
    forall k :: 0 <= k < |laps| ==> Sound(laps[k]) && laps[k].lap == k + 1
  }

  /** Every lap is sound, the laps are numbered 1, 2, 3 and so on, and the incident index agrees with the log. */
  ghost predicate Good(parse: Parser, s: State) {
    && (forall d :: SoundLaps(LapsOf(s.laps, d)))
    && s.base <= |s.messages|
    && forall d :: EntryOf(s.incidents, d) == Index(parse, s.messages[s.base..], d)
  }

  lemma EmptyIsGood(parse: Parser, s: State)
    requires s.laps == map[] && s.incidents == map[] && s.base == |s.messages|
    ensures Good(parse, s)
  {
    assert s.messages[s.base..] == [];
  }

  lemma TimingKeepsSound(
    lines: map<string, Driver>, laps: map<string, seq<Lap>>, u: map<string, DriverPatch>,
    stints: map<string, seq<Fields>>, lines': map<string, Driver>, laps': map<string, seq<Lap>>, d: string)
    requires TimingStep(lines, laps, u, stints, lines', laps')
    requires SoundLaps(LapsOf(laps, d))
    ensures SoundLaps(LapsOf(laps', d)) && LapsOf(laps, d) <= LapsOf(laps', d)
    ensures |LapsOf(laps', d)|
            == |LapsOf(laps, d)| + if d in u && d in lines && "2" in u[d].sectors && u[d].sectors["2"].value.Some?
                                      && u[d].sectors["2"].value.value != "" then 1 else 0
  {
    hide Sound, Recorded, DeeplyLinearizes, ShownBy, DeepExecute, LapsOf, Patched;
    assert DriverTimed(lines, laps, u, stints, lines', laps', d);
    if d in u {
      var base, before, after := LineOrNew(lines, d), LapsOf(laps, d), LapsOf(laps', d);
      var trace :| DeeplyLinearizes(trace, u[d].sectors)
        && TimedBy(base, d in lines, u[d], trace, StintsOf(stints, d), before, lines'[d], after);
      if d in lines && CompletesLap(u[d]) {
        var shown :| ShownBy(base.sectors, u[d].sectors, trace, shown)
          && after == before + [Recorded(base.(sectors := shown), StintsOf(stints, d), |before| + 1)];
        RecordedLapIsSound(base.(sectors := shown), StintsOf(stints, d), |before| + 1);
      }
    }
  }

  /** What a stints update leaves of each driver's stints. */
  lemma StintsFed(parse: Parser, s: State, u: map<string, Option<SliceUpdate<Fields, Fields>>>, s': State, d: string)
    requires Fed(parse, s, TimingAppData(u), s')
    ensures s' == s.(stints := s'.stints)
    ensures d !in u || u[d].None? ==> StintsOf(s'.stints, d) == StintsOf(s.stints, d)
    ensures d in u && u[d].Some? && u[d].value.Replace? ==> d in s'.stints && s'.stints[d] == u[d].value.items
    ensures d in u && u[d].Some? && u[d].value.Merge? && DistinctIndices(u[d].value.patches) ==>
              d in s'.stints
              && s'.stints[d] == Merged(FLAT, if d in s.stints then s.stints[d] else [], u[d].value.patches)
  {
    hide DistinctIndices, Merged, SliceUpdated;
    if d in u && u[d].Some? {
      assert d in s'.stints;
      SliceUpdatedTo(StintsOf(s.stints, d), u[d].value, s'.stints[d]);
    }
  }

  /** What a list update leaves of each driver: the drivers it carries get the patched line and starting position, a missing
      starting position being taken from the line, and the others stay as they are. */
  lemma ListFed(parse: Parser, s: State, u: ListUpdate, s': State, n: string)
    requires Fed(parse, s, DriverList(u), s')
    ensures s' == s.(drivers := s'.drivers)
    ensures n in s'.drivers <==> n in s.drivers || Carries(u, n)
    ensures n in s.drivers && !Carries(u, n) ==> s'.drivers[n] == s.drivers[n]
    ensures Carries(u, n) ==>
              var p, now, line := u[n].value, s'.drivers[n], NewLine(s.drivers, u[n].value, n);
              && now.line == line
              && now.startingPosition
                 == if n !in s.drivers then Itoa(line)
                    else
                      var start := if p.startingPosition.Some? then p.startingPosition.value
                                   else s.drivers[n].startingPosition;
                      if start == "" && line != 0 then Itoa(line) else start
  {
    hide ListAfter, InfoAfter;
    ListedFields(s.drivers, u, n);
  }

  /** A status sent for the last index of the series, or behind it, decides whether the session has finished. */
  lemma LastStatusDecides(parse: Parser, s: State, k: string, status: string, s': State)
    requires status != "" && IndexOf(k).Some? && |s.statusSeries| <= IndexOf(k).value + 1 <= MAX_INT64
    requires Fed(parse, s, SessionData(Some(Merge(map[k := map["SessionStatus" := Text(status)]]))), s')
    ensures SessionFinished(s'.statusSeries) <==> status == "Finalised" || status == "Ends"
  {
    hide Merged, SliceUpdated, IndexOf, SessionFinished;
    var p: Fields := map["SessionStatus" := Text(status)];
    var u := map[k := p];
    var i := IndexOf(k).value;
    assert k in u && Indices(u) == {i};
    MaxIsUnique(Indices(u), i);
    SliceUpdatedTo(s.statusSeries, Merge(u), s'.statusSeries);
    LengthAfter(|s.statusSeries|, u);
    var series := s'.statusSeries;
    assert |series| == i + 1;
    MergedPointwise(FLAT, s.statusSeries, u, i);
    assert Names(k, i);
    assert series[i] == PatchFlat(if i < |s.statusSeries| then s.statusSeries[i] else map[], p);
    assert SaysStatus(series[i], status);
    SessionFinishedIff(series);
    if SessionFinished(series) {
      var j :| 0 <= j < |series| && (SaysStatus(series[j], "Finalised") || SaysStatus(series[j], "Ends"))
        && SilentAfter(series, j + 1);
      assert j == i;
    }
  }

  lemma FedKeepsGood(parse: Parser, s: State, u: FeedUpdate, s': State)
    requires Good(parse, s) && Fed(parse, s, u, s')
    ensures Good(parse, s')
  {
    hide SoundLaps, TimingStep, StintsStep, SliceUpdated, Index, Incidents.After, ListAfter, LapsOf, EntryOf, Appends;
    if u.TimingData? {
      forall d
        ensures SoundLaps(LapsOf(s'.laps, d))
      {
        TimingKeepsSound(s.lines, s.laps, u.timing, s.stints, s'.lines, s'.laps, d);
      }
    } else if u.RaceControlMessages? {
      var added :| Appends(u.control, added) && Logged(parse, s, added, s');
      assert s'.messages[s.base..] == s.messages[s.base..] + added;
      forall d
        ensures EntryOf(s'.incidents, d) == Index(parse, s'.messages[s.base..], d)
      {
        IndexAfter(parse, s.messages[s.base..], added, d);
      }
    }
  }

  lemma StepKeepsGood(parse: Parser, r: RelayState, ev: Event, r': RelayState)
    requires r.state.Some? ==> Good(parse, r.state.value)
    requires Step(parse, r, ev, r')
    ensures r'.state.Some? ==> Good(parse, r'.state.value)
  {
    hide Fed, SoundLaps, Index;
    EmptyIsGood(parse, EMPTY);
    match ev {
      case Snapshot(s) =>
        if s.Decoded? && !SameSession(r.state, s) {
          EmptyIsGood(parse, Loaded(r.state, s));
        } else if s.Decoded? {
          EmptyIsGood(parse, Loaded(r.state, s).(laps := map[]));
        }
      case Feed(u) =>
        if r.state.Some? && u.Some? {
          FedKeepsGood(parse, r.state.value, u.value, r'.state.value);
        }
      case Unknown =>
      case Reset =>
      case BrowserJoins =>
    }
  }

  /** In every reachable state: all laps sound and numbered without gaps, the incident index is the log's. */
  lemma {:induction false} ReachableStatesAreGood(parse: Parser, rs: seq<RelayState>, evs: seq<Event>)
    requires IsRun(parse, rs, evs) && rs[0].state.None?
    ensures rs[|evs|].state.Some? ==> Good(parse, rs[|evs|].state.value)
  {
    hide Step, Good, IsRun;
    if evs != [] {
      ShorterRun(parse, rs, evs);
      RunStarts(parse, rs, evs);
      ReachableStatesAreGood(parse, rs[..|evs|], evs[..|evs| - 1]);
      StepKeepsGood(parse, rs[|evs| - 1], evs[|evs| - 1], rs[|evs|]);
    }
  }

  lemma RunStarts(parse: Parser, rs: seq<RelayState>, evs: seq<Event>)
    requires IsRun(parse, rs, evs)
    ensures |rs| == |evs| + 1
  {
  }

  // ---- completed laps stay ----

  /** The event drops the lap history. */
  predicate DropsLaps(r: RelayState, ev: Event) {
    match ev
    case Snapshot(s) => !SameSession(r.state, s)
    case Feed(_) => false
    case Unknown => false
    case Reset => true
    case BrowserJoins => r.state.None?
  }

  /** What a feed update does to a driver's laps and line, and to the session key. */
  lemma FedCounts(parse: Parser, s: State, u: FeedUpdate, s': State, d: string)
    requires Fed(parse, s, u, s') && SoundLaps(LapsOf(s.laps, d))
    ensures LapsOf(s.laps, d) <= LapsOf(s'.laps, d)
    ensures |LapsOf(s'.laps, d)| == |LapsOf(s.laps, d)|
            + if u.TimingData? && d in u.timing && d in s.lines && "2" in u.timing[d].sectors
                 && u.timing[d].sectors["2"].value.Some? && u.timing[d].sectors["2"].value.value != "" then 1 else 0
    ensures d in s'.lines <==> d in s.lines || (u.TimingData? && d in u.timing)
    ensures s'.key == if u.SessionInfo? then Or(u.key, s.key) else s.key
  {
    hide SoundLaps, StintsStep, SliceUpdated, Incidents.After, ListAfter, LapsOf, EntryOf, Appends, DriverTimed;
    if u.TimingData? {
      TimingKeepsSound(s.lines, s.laps, u.timing, s.stints, s'.lines, s'.laps, d);
    }
  }

  lemma StepKeepsLaps(parse: Parser, r: RelayState, ev: Event, r': RelayState, d: string)
    requires r.state.Some? && Good(parse, r.state.value)
    requires Step(parse, r, ev, r') && !DropsLaps(r, ev)
    ensures r'.state.Some? && LapsOf(r.state.value.laps, d) <= LapsOf(r'.state.value.laps, d)
  {
    hide Fed, SoundLaps, LapsOf, EntryOf, Index;
    if ev.Feed? && ev.update.Some? {
      FedCounts(parse, r.state.value, ev.update.value, r'.state.value, d);
    }
  }

  /** One event keeps a driver's completed laps exactly when it is not one of those that drop the history, or leaves a
      state and there was no lap to lose. */
  lemma LapsSurviveIff(parse: Parser, r: RelayState, ev: Event, r': RelayState, d: string)
    requires r.state.Some? && Good(parse, r.state.value)
    requires Step(parse, r, ev, r')
    ensures r'.state.Some? && LapsOf(r.state.value.laps, d) <= LapsOf(r'.state.value.laps, d)
            <==> !DropsLaps(r, ev) || (r'.state.Some? && LapsOf(r.state.value.laps, d) == [])
  {
    hide Good, Fed;
    if !DropsLaps(r, ev) {
      StepKeepsLaps(parse, r, ev, r', d);
    }
  }

  /** No run of events that keeps the session changes, removes or reorders a completed lap: what a driver's history
      held after i events is still its beginning after all of them. */
  lemma {:induction false} CompletedLapsAreImmutable(parse: Parser, rs: seq<RelayState>, evs: seq<Event>, i: nat, d: string)
    requires IsRun(parse, rs, evs) && rs[0].state.None?
    requires i <= |evs| && rs[i].state.Some?
    requires forall k :: i <= k < |evs| ==> !DropsLaps(rs[k], evs[k])
    ensures rs[|evs|].state.Some? && LapsOf(rs[i].state.value.laps, d) <= LapsOf(rs[|evs|].state.value.laps, d)
    decreases |evs|
  {
    hide Step, Good, IsRun, LapsOf, DropsLaps;
    RunStarts(parse, rs, evs);
    if i < |evs| {
      var n := |evs| - 1;
      ShorterRun(parse, rs, evs);
      var shorter, fewer := rs[..n + 1], evs[..n];
      assert forall k :: i <= k < n ==> shorter[k] == rs[k] && fewer[k] == evs[k];
      assert shorter[i] == rs[i] && shorter[n] == rs[n];
      CompletedLapsAreImmutable(parse, shorter, fewer, i, d);
      ReachableStatesAreGood(parse, shorter, fewer);
      StepKeepsLaps(parse, rs[n], evs[n], rs[n + 1], d);
    }
  }

  // ---- how many laps a driver has, read off the events alone ----

  /** The session key after the events; None while the state is nil. */
  function KeyAfter(evs: seq<Event>): Option<int> {
    if evs == [] then None
    else
      var before := KeyAfter(evs[..|evs| - 1]);
      match evs[|evs| - 1]
      case Snapshot(Malformed) => None
      case Snapshot(WithoutR) => Some(0)
      case Snapshot(Decoded(key, _, _, _, _, _)) => Some(key)
      case Feed(Some(SessionInfo(Some(key)))) => if before.Some? then Some(key) else None
      case Feed(_) => before
      case Unknown => before
      case Reset => Some(0)
      case BrowserJoins => if before.Some? then before else Some(0)
  }

  /** The driver has a line: it came with the snapshot or with a timing update since. */
  predicate StoredAfter(evs: seq<Event>, d: string) {
    evs != [] &&
    var before := evs[..|evs| - 1];
    match evs[|evs| - 1]
    case Snapshot(s) => s.Decoded? && d in s.lines
    case Feed(Some(TimingData(u))) => StoredAfter(before, d) || (KeyAfter(before).Some? && d in u)
    case Reset => false
    case _ => StoredAfter(before, d)
  }

  /** The updates that completed a lap of the driver since the last event that was not of the same session. */
  function LapsAfter(evs: seq<Event>, d: string): nat {
    if evs == [] then 0
    else
      var before := evs[..|evs| - 1];
      match evs[|evs| - 1]
      case Snapshot(s) => if s.Decoded? && KeyAfter(before) == Some(s.key) then LapsAfter(before, d) else 0
      case Feed(Some(TimingData(u))) =>
        LapsAfter(before, d) + if StoredAfter(before, d) && d in u && "2" in u[d].sectors && u[d].sectors["2"].value.Some?
                                  && u[d].sectors["2"].value.value != "" then 1 else 0
      case Reset => 0
      case _ => LapsAfter(before, d)
  }

  ghost predicate Accounted(r: RelayState, evs: seq<Event>, d: string) {
    match r.state
    case None => KeyAfter(evs) == None && !StoredAfter(evs, d) && LapsAfter(evs, d) == 0
    case Some(s) =>
      && KeyAfter(evs) == Some(s.key)
      && (StoredAfter(evs, d) <==> d in s.lines)
      && LapsAfter(evs, d) == |LapsOf(s.laps, d)|
  }

  lemma StepAccounts(parse: Parser, r: RelayState, before: seq<Event>, ev: Event, r': RelayState, d: string)
    requires r.state.Some? ==> Good(parse, r.state.value)
    requires Accounted(r, before, d) && Step(parse, r, ev, r')
    ensures Accounted(r', before + [ev], d)
  {
    hide Fed, SoundLaps, Index, EntryOf;
    var evs := before + [ev];
    assert evs[..|evs| - 1] == before && evs[|evs| - 1] == ev;
    match ev {
      case Feed(Some(u)) =>
        if r.state.Some? {
          FedCounts(parse, r.state.value, u, r'.state.value, d);
        }
      case _ =>
    }
  }

  /** In every run a driver's history holds exactly the laps that the events completed: one for each update with a
      non-empty value for the last sector of a stored driver since the last event that dropped the history. Laps are
      therefore never lost or counted twice, and the number the next lap gets is never taken. */
  lemma {:induction false} LapsAreCounted(parse: Parser, rs: seq<RelayState>, evs: seq<Event>, d: string)
    requires IsRun(parse, rs, evs) && rs[0].state.None?
    ensures Accounted(rs[|evs|], evs, d)
  {
    hide Step, Good, IsRun, LapsOf;
    RunStarts(parse, rs, evs);
    if evs != [] {
      var n := |evs| - 1;
      ShorterRun(parse, rs, evs);
      LapsAreCounted(parse, rs[..|evs|], evs[..n], d);
      ReachableStatesAreGood(parse, rs[..|evs|], evs[..n]);
      StepAccounts(parse, rs[n], evs[..n], evs[n], rs[n + 1], d);
      assert evs[..n] + [evs[n]] == evs;
    }
  }

  /** A snapshot of the same session keeps the laps; a snapshot that fails to decode in between loses them all. */
  lemma MalformedSnapshotLosesLaps(evs: seq<Event>, d: string, s: Snapshot)
    requires s.Decoded? && KeyAfter(evs) == Some(s.key)
    ensures LapsAfter(evs + [Event.Snapshot(s)], d) == LapsAfter(evs, d)
    ensures LapsAfter(evs + [Event.Snapshot(Malformed)] + [Event.Snapshot(s)], d) == 0
  {
    assert (evs + [Event.Snapshot(s)])[..|evs|] == evs;
    var failed := evs + [Event.Snapshot(Malformed)];
    assert failed[..|evs|] == evs && (failed + [Event.Snapshot(s)])[..|failed|] == failed;
  }

  // ---- the race-control log and the incidents ----

  predicate KeepsLog(r: RelayState, ev: Event) {
    match ev
    case Snapshot(_) => false
    case Feed(_) => true
    case Unknown => true
    case Reset => false
    case BrowserJoins => r.state.Some?
  }

  lemma FedExtendsLog(parse: Parser, s: State, u: FeedUpdate, s': State, d: string)
    requires Fed(parse, s, u, s')
    ensures s.messages <= s'.messages && EntryOf(s.incidents, d) <= EntryOf(s'.incidents, d)
  {
    hide TimingStep, StintsStep, SliceUpdated, Incidents.After, ListAfter, EntryOf, Appends;
    if u.RaceControlMessages? {
      var added :| Appends(u.control, added) && Logged(parse, s, added, s');
      AfterExtends(parse, EntryOf(s.incidents, d), added, d);
    }
  }

  lemma StepExtendsLog(parse: Parser, r: RelayState, ev: Event, r': RelayState, d: string)
    requires r.state.Some? && Step(parse, r, ev, r') && KeepsLog(r, ev)
    ensures r'.state.Some?
    ensures r.state.value.messages <= r'.state.value.messages
    ensures EntryOf(r.state.value.incidents, d) <= EntryOf(r'.state.value.incidents, d)
  {
    hide Fed, EntryOf;
    if ev.Feed? && ev.update.Some? {
      FedExtendsLog(parse, r.state.value, ev.update.value, r'.state.value, d);
    }
  }

  /** Between two snapshots the log and every driver's incidents only grow at their ends. */
  lemma {:induction false} IncidentsAreKept(parse: Parser, rs: seq<RelayState>, evs: seq<Event>, i: nat, d: string)
    requires IsRun(parse, rs, evs) && i <= |evs| && rs[i].state.Some?
    requires forall k :: i <= k < |evs| ==> KeepsLog(rs[k], evs[k])
    ensures rs[|evs|].state.Some?
    ensures rs[i].state.value.messages <= rs[|evs|].state.value.messages
    ensures EntryOf(rs[i].state.value.incidents, d) <= EntryOf(rs[|evs|].state.value.incidents, d)
    decreases |evs|
  {
    hide Step, IsRun, EntryOf, KeepsLog;
    RunStarts(parse, rs, evs);
    if i < |evs| {
      var n := |evs| - 1;
      ShorterRun(parse, rs, evs);
      var shorter, fewer := rs[..n + 1], evs[..n];
      assert forall k :: i <= k < n ==> shorter[k] == rs[k] && fewer[k] == evs[k];
      IncidentsAreKept(parse, shorter, fewer, i, d);
      StepExtendsLog(parse, rs[n], evs[n], rs[n + 1], d);
    }
  }

  /** The same race-control update once more: the log grows again, no driver's incidents change. */
  lemma ReapplyingKeepsIncidents(parse: Parser, s: State, u: Incidents.Update, s1: State, s2: State, d: string)
    requires Good(parse, s)
    requires Fed(parse, s, RaceControlMessages(u), s1) && Fed(parse, s1, RaceControlMessages(u), s2)
    ensures EntryOf(s2.incidents, d) == EntryOf(s1.incidents, d)
    ensures s1.messages <= s2.messages && Appends(u, s2.messages[|s1.messages|..])
  {
    hide Incidents.After, EntryOf, Appends, SoundLaps, Index;
    FedKeepsGood(parse, s, RaceControlMessages(u), s1);
    FedKeepsGood(parse, s1, RaceControlMessages(u), s2);
    var added :| Appends(u, added) && Logged(parse, s, added, s1);
    var again :| Appends(u, again) && Logged(parse, s1, again, s2);
    AppendsSameMessages(u, added, again);
    var log := s1.messages[s.base..];
    assert log == s.messages[s.base..] + added;
    assert s2.messages[s.base..] == log + again && s2.messages[|s1.messages|..] == again;
    ReapplyingLeavesIndex(parse, log, again, d);
  }

  // ---- starting positions ----

  /** The event leaves the starting position of a listed driver alone: it does not carry the field, and a snapshot
      is of the same session and lists the driver. */
  predicate LeavesStarts(r: RelayState, ev: Event, n: string) {
    match ev
    case Snapshot(s) => SameSession(r.state, s) && n in s.drivers && n != KEYFRAME_MARK
    case Feed(Some(DriverList(u))) => Keeps(RosterEvent.Feed(u), n)
    case Reset => false
    case _ => true
  }

  lemma StepKeepsStart(parse: Parser, r: RelayState, ev: Event, r': RelayState, n: string)
    requires r.state.Some? && Step(parse, r, ev, r') && LeavesStarts(r, ev, n)
    requires n in r.state.value.drivers && r.state.value.drivers[n].startingPosition != ""
    ensures r'.state.Some? && n in r'.state.value.drivers
    ensures r'.state.value.drivers[n].startingPosition == r.state.value.drivers[n].startingPosition
  {
    hide TimingStep, StintsStep, SliceUpdated, Incidents.After, InfoAfter;
    match ev {
      case Feed(Some(DriverList(u))) =>
        if n in Named(u) {
          StartKeptIff(r.state.value.drivers[n], u[n].value);
        }
      case Snapshot(s) =>
      case _ =>
    }
  }

  /** A known starting position survives every run of such events, reconnections included. */
  lemma {:induction false} StartingPositionsAreKept(parse: Parser, rs: seq<RelayState>, evs: seq<Event>, i: nat, n: string)
    requires IsRun(parse, rs, evs) && i <= |evs| && rs[i].state.Some?
    requires n in rs[i].state.value.drivers && rs[i].state.value.drivers[n].startingPosition != ""
    requires forall k :: i <= k < |evs| ==> LeavesStarts(rs[k], evs[k], n)
    ensures rs[|evs|].state.Some? && n in rs[|evs|].state.value.drivers
    ensures rs[|evs|].state.value.drivers[n].startingPosition == rs[i].state.value.drivers[n].startingPosition
    decreases |evs|
  {
    hide Step, IsRun, LeavesStarts;
    RunStarts(parse, rs, evs);
    if i < |evs| {
      var m := |evs| - 1;
      ShorterRun(parse, rs, evs);
      var shorter, fewer := rs[..m + 1], evs[..m];
      assert forall k :: i <= k < m ==> shorter[k] == rs[k] && fewer[k] == evs[k];
      StartingPositionsAreKept(parse, shorter, fewer, i, n);
      StepKeepsStart(parse, rs[m], evs[m], rs[m + 1], n);
    }
  }

  // ---- skipped updates ----

  /** The reconnections a run forces. */
  ghost function Forced(rs: seq<RelayState>, evs: seq<Event>): nat
    requires |rs| == |evs| + 1
  {
    if evs == [] then 0
    else
      var n := |evs| - 1;
      Forced(rs[..n + 1], evs[..n]) + if ForcesReconnect(rs[n], evs[n]) then 1 else 0
  }

  /** The updates skipped in a row, modulo fifty, read off the events alone: a snapshot that decodes and an applied
      update start the count again. */
  function SkippedAfter(evs: seq<Event>): nat {
    if evs == [] then 0
    else
      var before := evs[..|evs| - 1];
      match evs[|evs| - 1]
      case Snapshot(s) => if s.Malformed? then SkippedAfter(before) else 0
      case Feed(u) =>
        if KeyAfter(before).None? then (SkippedAfter(before) + 1) % 50
        else if u.Some? then 0 else SkippedAfter(before)
      case _ => SkippedAfter(before)
  }

  /** In every run the counter is the one read off the events, and a reconnection is forced exactly by a feed update that
      finds no state and makes the count a multiple of fifty. */
  lemma {:induction false} SkippedIsCounted(parse: Parser, rs: seq<RelayState>, evs: seq<Event>, ev: Event)
    requires IsRun(parse, rs, evs) && rs[0] == RelayState(None, 0)
    ensures rs[|evs|].skipped == SkippedAfter(evs) < 50
    ensures ForcesReconnect(rs[|evs|], ev)
            <==> ev.Feed? && KeyAfter(evs).None? && SkippedAfter(evs + [ev]) == 0
  {
    hide Fed, IsRun, LapsAfter, StoredAfter, Accounted, Loaded;
    RunStarts(parse, rs, evs);
    if evs != [] {
      var n := |evs| - 1;
      ShorterRun(parse, rs, evs);
      SkippedIsCounted(parse, rs[..|evs|], evs[..n], evs[n]);
      KeyIsRead(parse, rs[..|evs|], evs[..n]);
    }
    KeyIsRead(parse, rs, evs);
    assert (evs + [ev])[..|evs|] == evs;
  }

  lemma KeyIsRead(parse: Parser, rs: seq<RelayState>, evs: seq<Event>)
    requires IsRun(parse, rs, evs) && rs[0].state.None?
    ensures |rs| == |evs| + 1 && (KeyAfter(evs).None? <==> rs[|evs|].state.None?)
  {
    hide IsRun, KeyAfter, StoredAfter, LapsAfter;
    RunStarts(parse, rs, evs);
    LapsAreCounted(parse, rs, evs, "");
  }

  /** While no state arrives, every fiftieth skipped update forces a reconnection, and only that one. */
  lemma {:induction false} EveryFiftiethSkipForces(parse: Parser, rs: seq<RelayState>, evs: seq<Event>)
    requires IsRun(parse, rs, evs)
    requires rs[0].state.None? && rs[0].skipped < 50
    requires forall k :: 0 <= k < |evs| ==> evs[k].Feed?
    ensures rs[|evs|].state.None?
    ensures rs[0].skipped + |evs| == Forced(rs, evs) * 50 + rs[|evs|].skipped
    ensures rs[|evs|].skipped < 50
  {
    hide Fed, IsRun;
    RunStarts(parse, rs, evs);
    if evs != [] {
      ShorterRun(parse, rs, evs);
      EveryFiftiethSkipForces(parse, rs[..|evs|], evs[..|evs| - 1]);
    }
  }
}
