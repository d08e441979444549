/** GlobalState and the message handler as the objects the relay updates in place, proved against the steps of Relay. */
module Server {
  import opened Wrappers
  import opened SectorHeap
  import opened MergeLaws
  import opened Collections
  import opened LapHistory
  import opened LiveState
  import opened Roster
  import opened Incidents
  import opened Relay

  class GlobalState {
    var key: int
    var timing: Timing
    var roster: Roster.DriverList
    var control: RaceControl
    var stints: map<string, seq<Fields>>
    var statusSeries: seq<Fields>

    ghost predicate Valid()
      reads this, timing, timing.live, timing.past, roster, control
    {
      && timing.Valid() && NumberedAll(timing.history)
      && control.Valid()
      && {this, roster, control} !! timing.live + timing.past
    }

    ghost function Repr(): set<object>
      reads this, timing
    {
      {this, timing, roster, control} + timing.live + timing.past
    }

    ghost function Abs(): State
      requires Valid()
      reads this, timing, timing.live, timing.past, roster, control
    {
      State(key, timing.Lines(), timing.Laps(), roster.drivers, control.messages, control.base, control.incidents,
            stints, statusSeries)
    }

    /** NewEmptyGlobalState. */
    constructor (parse: Parser)
      ensures Valid() && fresh(Repr()) && Abs() == EMPTY && control.parse == parse
    {
      hide Timing.Lines, Timing.Laps, Timing.Valid, RaceControl.Valid, NumberedAll;
      var empty := new Timing();
      var nobody := new Roster.DriverList(map[]);
      var quiet := new RaceControl(parse, []);
      key, stints, statusSeries := 0, map[], [];
      timing, roster, control := empty, nobody, quiet;
    }

    /** NewGlobalState for a snapshot that decodes. */
    constructor Load(parse: Parser, s: Snapshot, before: GlobalState?)
      requires s.Decoded? && (before != null ==> before.Valid())
      ensures Valid() && control.parse == parse
      ensures fresh(Repr() - if before == null then {} else before.timing.past)
      ensures Abs() == Loaded(if before == null then None else Some(old(before.Abs())), s)
    {
      hide NumberedAll, CarriedOver, SnapshotList, Index, Loaded, Timing.Lines, Timing.Laps, Timing.Valid,
           RaceControl.Valid;
      ghost var prior := if before == null then None else Some(before.Abs());
      var loaded := LoadTiming(s, before);
      var listed := LoadRoster(s, before);
      var logged := new RaceControl(parse, s.messages);
      LoadedIs(prior, s, loaded.Laps(), listed.drivers);
      key, stints, statusSeries := s.key, s.stints, s.statusSeries;
      timing, roster, control := loaded, listed, logged;
    }

    method ApplyTiming(updates: map<string, DriverPatch>, growth: Growth)
      requires Valid()
      modifies timing, timing.live
      ensures Valid() && control == old(control) && fresh(Repr() - old(Repr()))
      ensures Abs() == old(Abs()).(lines := Abs().lines, laps := Abs().laps)
      ensures TimingStep(old(Abs()).lines, old(Abs()).laps, updates, old(Abs()).stints, Abs().lines, Abs().laps)
    {
      hide HistoryViews, LapsIn, LinesIn, LinesApart, LineViews, TimingStep, NumberedAll, Index;
      timing.UpdateTimingData(updates, stints, growth);
    }

    method ApplyControl(u: Incidents.Update)
      requires Valid()
      modifies control
      ensures Valid() && Repr() == old(Repr())
      ensures Abs() == old(Abs()).(messages := control.messages, incidents := control.incidents)
      ensures exists added :: Appends(u, added) && Logged(control.parse, old(Abs()), added, Abs())
    {
      hide HistoryViews, LapsIn, LinesIn, LinesApart, LineViews, NumberedAll, Index, Appends;
      ghost var since := control.Since();
      ghost var added := control.Apply(u);
      assert control.Since() == since + added;
      forall d
        ensures EntryOf(control.incidents, d) == Incidents.After(control.parse, EntryOf(old(control.incidents), d), added, d)
      {
        IndexAfter(control.parse, since, added, d);
      }
      assert Logged(control.parse, old(Abs()), added, Abs());
    }

    method ApplyList(list: ListUpdate)
      requires Valid()
      modifies roster
      ensures Valid() && Repr() == old(Repr())
      ensures Abs() == old(Abs()).(drivers := ListAfter(old(Abs()).drivers, list))
    {
      hide HistoryViews, LapsIn, LinesIn, LinesApart, LineViews, NumberedAll, Index, ListAfter, Announced;
      var _ := roster.Update(list);
    }

    method ApplyStints(updates: map<string, Option<SliceUpdate<Fields, Fields>>>)
      requires Valid()
      modifies this`stints
      ensures Valid() && Repr() == old(Repr())
      ensures Abs() == old(Abs()).(stints := Abs().stints) && StintsStep(old(Abs()).stints, updates, Abs().stints)
    {
      hide HistoryViews, LapsIn, LinesIn, LinesApart, LineViews, NumberedAll, Index, StintsStep;
      stints := UpdateStints(stints, updates);
    }

    method ApplyStatus(update: SliceUpdate<Fields, Fields>)
      requires Valid()
      modifies this`statusSeries
      ensures Valid() && Repr() == old(Repr())
      ensures Abs() == old(Abs()).(statusSeries := Abs().statusSeries)
      ensures SliceUpdated(old(Abs()).statusSeries, update, Abs().statusSeries)
    {
      hide HistoryViews, LapsIn, LinesIn, LinesApart, LineViews, NumberedAll, Index, SliceUpdated;
      statusSeries := UpdateSlice(statusSeries, update);
    }

    method ApplyKey(k: int)
      requires Valid()
      modifies this`key
      ensures Valid() && Repr() == old(Repr()) && Abs() == old(Abs()).(key := k)
    {
      hide HistoryViews, LapsIn, LinesIn, LinesApart, LineViews, NumberedAll, Index;
      key := k;
    }

    /** ApplyFeedUpdate. */
    method ApplyFeedUpdate(u: FeedUpdate, growth: Growth)
      requires Valid()
      modifies this`key, this`stints, this`statusSeries, timing, timing.live, roster, control
      ensures Valid() && control.parse == old(control.parse)
      ensures fresh(Repr() - old(Repr()))
      ensures Fed(control.parse, old(Abs()), u, Abs())
    {
      hide Valid, Abs, Appends, ListAfter, TimingStep, StintsStep, SliceUpdated, Logged;
      match u {
        case TimingData(updates) => ApplyTiming(updates, growth);
        case SessionInfo(k) => if k.Some? { ApplyKey(k.value); }
        case TimingAppData(updates) => ApplyStints(updates);
        case DriverList(list) => ApplyList(list);
        case RaceControlMessages(update) => ApplyControl(update);
        case SessionData(status) => if status.Some? { ApplyStatus(status.value); }
        case Other =>
      }
    }
  }

  lemma LoadedIs(before: Option<State>, s: Snapshot, laps: map<string, seq<Lap>>, drivers: Drivers)
    requires s.Decoded? && laps == if SameSession(before, s) then before.value.laps else map[]
    requires drivers == if SameSession(before, s) then CarriedOver(before.value.drivers, SnapshotList(s.drivers))
                        else SnapshotList(s.drivers)
    ensures Loaded(before, s)
            == State(s.key, s.lines, laps, drivers, s.messages, |s.messages|, map[], s.stints, s.statusSeries)
  {
    hide CarriedOver, SnapshotList;
  }

  /** The decoded lines, with the lap history of the same session. */
  method LoadTiming(s: Snapshot, before: GlobalState?) returns (timing: Timing)
    requires s.Decoded? && (before != null ==> before.Valid())
    ensures timing.Valid() && NumberedAll(timing.history)
    ensures fresh(timing) && fresh(timing.live)
    ensures timing.past <= if before == null then {} else before.timing.past
    ensures timing.Lines() == s.lines
    ensures timing.Laps() == if before != null && before.key == s.key then old(before.timing.Laps()) else map[]
  {
    hide HistoryViews, LapsIn, LinesIn, LinesApart, LineViews, NumberedAll;
    NoHistory();
    if before != null && before.key == s.key {
      timing := new Timing.Load(s.lines, before.timing.history, before.timing.past);
    } else {
      timing := new Timing.Load(s.lines, map[], {});
    }
  }

  /** The decoded drivers with their starting positions; those of the same session are kept. */
  method LoadRoster(s: Snapshot, before: GlobalState?) returns (roster: Roster.DriverList)
    requires s.Decoded?
    ensures fresh(roster)
    ensures roster.drivers == if before != null && before.key == s.key
                              then CarriedOver(old(before.roster.drivers), SnapshotList(s.drivers))
                              else SnapshotList(s.drivers)
  {
    hide CarriedOver, SnapshotList;
    if before != null && before.key == s.key {
      roster := new Roster.DriverList(CarriedOver(before.roster.drivers, SnapshotList(s.drivers)));
    } else {
      roster := new Roster.DriverList(SnapshotList(s.drivers));
    }
  }

  lemma NoHistory()
    ensures LapsIn(map[], {}) && HistoryViews(map[], {}) == map[] && NumberedAll(map[])
  {
  }

  /** updateTimingAppData: the stints of each driver, the range visiting them in whatever order it likes. */
  method UpdateStints(stints: map<string, seq<Fields>>, u: map<string, Option<SliceUpdate<Fields, Fields>>>)
    returns (r: map<string, seq<Fields>>)
    ensures StintsStep(stints, u, r)
  {
    hide SliceUpdated, StintsStep;
    r := stints;
    StintsNone(stints, u);
    var todo := u.Keys;
    while todo != {}
      invariant todo <= u.Keys
      invariant StintsStep(stints, u - todo, r)
      decreases todo
    {
      var d :| d in todo;
      var known := if d in r then r[d] else [];
      if u[d].Some? {
        known := UpdateSlice(known, u[d].value);
      }
      StintsExtend(stints, u, todo, r, d, known);
      r := r[d := known];
      todo := todo - {d};
    }
    assert u - {} == u;
  }

  lemma StintsNone(stints: map<string, seq<Fields>>, u: map<string, Option<SliceUpdate<Fields, Fields>>>)
    ensures StintsStep(stints, u - u.Keys, stints)
  {
  }

  lemma StintsExtend(stints: map<string, seq<Fields>>, u: map<string, Option<SliceUpdate<Fields, Fields>>>,
                     todo: set<string>, r: map<string, seq<Fields>>, d: string, known: seq<Fields>)
    requires d in todo && todo <= u.Keys && StintsStep(stints, u - todo, r)
    requires if u[d].Some? then SliceUpdated(StintsOf(r, d), u[d].value, known) else known == StintsOf(r, d)
    ensures StintsStep(stints, u - (todo - {d}), r[d := known])
  {
    hide SliceUpdated;
    assert StintsOf(r, d) == StintsOf(stints, d);
  }

  /** MessageHandlers: the current global state, if there is one, and the counter of skipped updates. */
  class MessageHandlers {
    const parse: Parser
    var state: GlobalState?
    var skipped: nat

    ghost predicate Valid()
      reads this, if state == null then {} else {state, state.timing, state.roster, state.control},
            if state == null then {} else state.timing.live + state.timing.past
    {
      state != null ==> state.Valid() && state.control.parse == parse && this !in state.Repr()
    }

    ghost function Abs(): RelayState
      requires Valid()
      reads this, if state == null then {} else {state, state.timing, state.roster, state.control},
            if state == null then {} else state.timing.live + state.timing.past
    {
      RelayState(if state == null then None else Some(state.Abs()), skipped)
    }

    ghost function Repr(): set<object>
      reads this, if state == null then {} else {state, state.timing}
    {
      {this} + if state == null then {} else state.Repr()
    }

    constructor (parse: Parser)
      ensures Valid() && fresh(Repr()) && Abs() == RelayState(None, 0) && this.parse == parse
    {
      this.parse := parse;
      state, skipped := null, 0;
    }

    /** NewGlobalState and the assignment of its result, nil when the message does not decode. */
    method Load(s: Snapshot)
      requires Valid()
      modifies this
      ensures Valid() && fresh(Repr() - old(Repr()))
      ensures Relay.Step(parse, old(Abs()), Event.Snapshot(s), Abs())
    {
      hide GlobalState.Valid, GlobalState.Abs, Loaded;
      if s.Malformed? {
        state := null;
      } else {
        if s.WithoutR? {
          state := new GlobalState(parse);
        } else {
          state := new GlobalState.Load(parse, s, state);
        }
        skipped := 0;
      }
    }

    /** resetGlobalState. */
    method Clear()
      requires Valid()
      modifies this`state
      ensures Valid() && fresh(Repr() - old(Repr())) && Abs() == old(Abs()).(state := Some(EMPTY))
    {
      state := new GlobalState(parse);
    }

    /** HandleNewStreamMessage; a reset by the session manager and the connection of a browser are events too. */
    method Handle(ev: Event, growth: Growth) returns (reconnect: bool)
      requires Valid()
      modifies Repr()
      ensures Valid() && fresh(Repr() - old(Repr()))
      ensures Relay.Step(parse, old(Abs()), ev, Abs())
      ensures reconnect == ForcesReconnect(old(Abs()), ev)
    {
      hide GlobalState.Valid, GlobalState.Abs, Fed;
      reconnect := false;
      match ev {
        case Snapshot(s) =>
          Load(s);
        case Feed(u) =>
          if state != null {
            if u.Some? {
              state.ApplyFeedUpdate(u.value, growth);
              skipped := 0;
            }
          } else {
            skipped := skipped + 1;
            if skipped >= SKIP_LIMIT {
              reconnect := true;
              skipped := 0;
            }
          }
        case Unknown =>
        case Reset =>
          Clear();
        case BrowserJoins =>
          if state == null {
            Clear();
          }
      }
    }
  }

  /** The stream of messages from the start of the relay: every execution is a run of the step relation. */
  method Serve(parse: Parser, evs: seq<Event>, growth: Growth) returns (handlers: MessageHandlers, ghost rs: seq<RelayState>)
    ensures |rs| == |evs| + 1 && rs[0] == RelayState(None, 0)
    ensures handlers.Valid() && rs[|evs|] == handlers.Abs()
    ensures IsRun(parse, rs, evs)
  {
    hide Relay.Step, IsRun, MessageHandlers.Valid, MessageHandlers.Abs, GlobalState.Valid, GlobalState.Abs;
    handlers := new MessageHandlers(parse);
    rs := [handlers.Abs()];
    assert IsRun(parse, rs, evs[..0]) by { NoMessages(parse, rs[0], evs); }
    for k := 0 to |evs|
      invariant handlers.Valid() && fresh(handlers.Repr()) && handlers.parse == parse
      invariant |rs| == k + 1 && rs[0] == RelayState(None, 0) && rs[k] == handlers.Abs()
      invariant IsRun(parse, rs, evs[..k])
    {
      var _ := handlers.Handle(evs[k], growth);
      LongerRun(parse, rs, evs[..k], evs[k], handlers.Abs());
      OneMore(evs, k);
      rs := rs + [handlers.Abs()];
    }
    assert evs[..|evs|] == evs;
  }

  lemma NoMessages(parse: Parser, r: RelayState, evs: seq<Event>)
    ensures IsRun(parse, [r], evs[..0])
  {
  }
}
