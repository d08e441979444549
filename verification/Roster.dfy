/** The driver list: partial updates by driver number, starting positions derived from the first known line. */
module Roster {
  import opened Wrappers
  import opened Decimal
  import opened Sectors
  import opened Collections

  /** DriverInfo: the two fields with a rule of their own, and the rest. */
  datatype DriverInfo = DriverInfo(line: int, startingPosition: string, rest: Fields)

  datatype InfoPatch = InfoPatch(line: Option<int>, startingPosition: Option<string>, rest: Fields)

  type Drivers = map<string, DriverInfo>

  /** One DriverList payload: a decoded patch per key, None where the value did not decode. */
  type ListUpdate = map<string, Option<InfoPatch>>

  const KEYFRAME_MARK: string := "_kf"

  function PatchInfo(d: DriverInfo, p: InfoPatch): DriverInfo {
    DriverInfo(Or(p.line, d.line), Or(p.startingPosition, d.startingPosition), PatchFlat(d.rest, p.rest))
  }

  /** A driver without a starting position takes the line, once there is one. */
  function WithStart(d: DriverInfo): DriverInfo {
    if d.startingPosition == "" && d.line != 0 then d.(startingPosition := Itoa(d.line)) else d
  }

  /** The entry of one driver after an update. */
  function InfoAfter(before: Option<DriverInfo>, p: InfoPatch): DriverInfo {
    if before.Some? then WithStart(PatchInfo(before.value, p))
    else
      var d := PatchInfo(DriverInfo(0, "", map[]), p);
      d.(startingPosition := Itoa(d.line))
  }

  function Lookup(drivers: Drivers, number: string): Option<DriverInfo> {
    if number in drivers then Some(drivers[number]) else None
  }

  function Named(u: ListUpdate): set<string> {
    set n | n in u && n != KEYFRAME_MARK && u[n].Some?
  }

  /** updateDriverList, driver by driver. */
  function ListAfter(drivers: Drivers, u: ListUpdate): Drivers {
    map n | n in drivers.Keys + Named(u) ::
      if n in Named(u) then InfoAfter(Lookup(drivers, n), u[n].value) else drivers[n]
  }

  /** A new driver, or one that the update gives its first starting position. */
  predicate IsAnnounced(before: Option<DriverInfo>, p: InfoPatch) {
    before.None? || PatchInfo(before.value, p) != InfoAfter(before, p)
  }

  /** The drivers whose new starting position is announced to the browsers. */
  function Announced(drivers: Drivers, u: ListUpdate): map<string, string> {
    map n | n in Named(u) && IsAnnounced(Lookup(drivers, n), u[n].value)
      :: InfoAfter(Lookup(drivers, n), u[n].value).startingPosition
  }

  /** The starting positions NewGlobalState derives for a decoded snapshot. */
  function SnapshotList(decoded: Drivers): Drivers {
    map n | n in decoded && n != KEYFRAME_MARK :: WithStart(decoded[n])
  }

  /** The carry-over from the previous state of the same session. */
  function CarriedOver(old': Drivers, fresh': Drivers): Drivers {
    map n | n in fresh' ::
      if n in old' && old'[n].startingPosition != ""
      then fresh'[n].(startingPosition := old'[n].startingPosition) else fresh'[n]
  }

  class DriverList {
    var drivers: Drivers

    constructor (decoded: Drivers)
      ensures drivers == decoded
    {
      drivers := decoded;
    }

    /** One iteration of updateDriverList. */
    method UpdateOne(n: string, p: InfoPatch) returns (announce: bool)
      modifies this
      ensures drivers == old(drivers)[n := InfoAfter(Lookup(old(drivers), n), p)]
      ensures announce <==> IsAnnounced(Lookup(old(drivers), n), p)
    {
      if n in drivers {
        var d := PatchInfo(drivers[n], p);
        announce := d.startingPosition == "" && d.line != 0;
        if announce {
          d := d.(startingPosition := Itoa(d.line));
          assert d.startingPosition != "";
        }
        drivers := drivers[n := d];
      } else {
        var d := PatchInfo(DriverInfo(0, "", map[]), p);
        d := d.(startingPosition := Itoa(d.line));
        drivers := drivers[n := d];
        announce := true;
      }
    }

    /** updateDriverList, the range visiting the drivers in whatever order it likes. */
    method Update(u: ListUpdate) returns (announced: map<string, string>)
      modifies this
      ensures drivers == ListAfter(old(drivers), u)
      ensures announced == Announced(old(drivers), u)
    {
      hide ListAfter, Announced, InfoAfter, IsAnnounced;
      announced := map[];
      var before := drivers;
      var todo := u.Keys - {KEYFRAME_MARK};
      NothingVisited(before, u);
      while todo != {}
        invariant todo <= u.Keys - {KEYFRAME_MARK}
        invariant drivers == ListAfter(before, Visited(u, todo))
        invariant announced == Announced(before, Visited(u, todo))
        decreases todo
      {
        var n :| n in todo;
        Visit(before, u, todo, n);
        VisitAnnounced(before, u, todo, n);
        if u[n].Some? {
          var announce := UpdateOne(n, u[n].value);
          if announce {
            announced := announced[n := drivers[n].startingPosition];
          }
        }
        todo := todo - {n};
      }
      AllVisited(before, u);
    }
  }

  /** The part of the update that the range has visited. */
  function Visited(u: ListUpdate, todo: set<string>): ListUpdate {
    map n | n in u && n !in todo && n != KEYFRAME_MARK :: u[n]
  }

  lemma NothingVisited(before: Drivers, u: ListUpdate)
    ensures ListAfter(before, Visited(u, u.Keys - {KEYFRAME_MARK})) == before
    ensures Announced(before, Visited(u, u.Keys - {KEYFRAME_MARK})) == map[]
  {
    assert Visited(u, u.Keys - {KEYFRAME_MARK}) == map[];
  }

  lemma AllVisited(before: Drivers, u: ListUpdate)
    ensures ListAfter(before, Visited(u, {})) == ListAfter(before, u)
    ensures Announced(before, Visited(u, {})) == Announced(before, u)
  {
    assert Named(Visited(u, {})) == Named(u);
  }

  lemma NamedVisited(u: ListUpdate, todo: set<string>, n: string)
    requires n in todo && todo <= u.Keys - {KEYFRAME_MARK}
    ensures n !in Named(Visited(u, todo))
    ensures Named(Visited(u, todo - {n})) == Named(Visited(u, todo)) + (if u[n].Some? then {n} else {})
  {
  }

  lemma Visit(before: Drivers, u: ListUpdate, todo: set<string>, n: string)
    requires n in todo && todo <= u.Keys - {KEYFRAME_MARK}
    ensures var drivers, next := ListAfter(before, Visited(u, todo)), ListAfter(before, Visited(u, todo - {n}));
            && Lookup(drivers, n) == Lookup(before, n)
            && next == if u[n].Some? then drivers[n := InfoAfter(Lookup(before, n), u[n].value)] else drivers
  {
    hide InfoAfter, Named;
    NamedVisited(u, todo, n);
    VisitedOnes(u, todo);
    VisitedOnes(u, todo - {n});
  }

  lemma VisitedOnes(u: ListUpdate, todo: set<string>)
    ensures forall m :: m in Named(Visited(u, todo)) ==>
                          m in u && u[m].Some? && m in Visited(u, todo) && Visited(u, todo)[m] == u[m]
  {
  }

  lemma VisitAnnounced(before: Drivers, u: ListUpdate, todo: set<string>, n: string)
    requires n in todo && todo <= u.Keys - {KEYFRAME_MARK}
    ensures var said, next := Announced(before, Visited(u, todo)), Announced(before, Visited(u, todo - {n}));
            next == if u[n].Some? && IsAnnounced(Lookup(before, n), u[n].value)
                    then said[n := InfoAfter(Lookup(before, n), u[n].value).startingPosition] else said
  {
    hide InfoAfter, IsAnnounced, Named;
    NamedVisited(u, todo, n);
    VisitedOnes(u, todo);
    VisitedOnes(u, todo - {n});
  }

  // ---- what becomes of each field ----

  /** The driver is named by the update and its value decodes. */
  predicate Carries(u: ListUpdate, n: string) {
    n in u && n != "_kf" && u[n].Some?
  }

  /** The line of a driver after an update that carries it: the patched one, else the listed one, else none. */
  function NewLine(drivers: Drivers, p: InfoPatch, n: string): int {
    if p.line.Some? then p.line.value else if n in drivers then drivers[n].line else 0
  }

  /** Field by field: an update touches the drivers it carries and no others. A listed driver takes the fields of the
      patch; if it then has no starting position and is on a line, that becomes its starting position. A driver that was
      not listed starts on its line, which is 0 if the patch has none. */
  lemma ListedFields(drivers: Drivers, u: ListUpdate, n: string)
    ensures n in ListAfter(drivers, u) <==> n in drivers || Carries(u, n)
    ensures n in drivers && !Carries(u, n) ==> ListAfter(drivers, u)[n] == drivers[n]
    ensures Carries(u, n) ==>
              var p, now := u[n].value, ListAfter(drivers, u)[n];
              var line := NewLine(drivers, p, n);
              && now.line == line
              && (n !in drivers ==> now.startingPosition == Itoa(line) && now.rest == p.rest)
              && (n in drivers ==>
                    var start := if p.startingPosition.Some? then p.startingPosition.value else drivers[n].startingPosition;
                    && now.startingPosition == (if start == "" && line != 0 then Itoa(line) else start)
                    && now.rest.Keys == drivers[n].rest.Keys + p.rest.Keys
                    && forall f :: f in now.rest ==> now.rest[f] == if f in p.rest then p.rest[f] else drivers[n].rest[f])
  {
    assert n in Named(u) <==> Carries(u, n);
    if Carries(u, n) && n !in drivers {
      assert map[] + u[n].value.rest == u[n].value.rest;
    }
  }

  /** A starting position is announced exactly for the drivers that were not listed and for those that had none, got none
      from the patch, and are on a line; what is announced is the position they are listed with. */
  lemma AnnouncedIff(drivers: Drivers, u: ListUpdate, n: string)
    ensures n in Announced(drivers, u)
            <==> Carries(u, n)
                 && (n in drivers ==>
                       && (if u[n].value.startingPosition.Some? then u[n].value.startingPosition.value
                           else drivers[n].startingPosition) == ""
                       && NewLine(drivers, u[n].value, n) != 0)
    ensures n in Announced(drivers, u) ==>
              n in ListAfter(drivers, u) && Announced(drivers, u)[n] == ListAfter(drivers, u)[n].startingPosition
  {
    assert n in Named(u) <==> Carries(u, n);
    if Carries(u, n) {
      ItoaIsNotEmpty(NewLine(drivers, u[n].value, n));
    }
  }

  lemma ItoaIsNotEmpty(n: int)
    ensures Itoa(n) != ""
  {
  }

  /** The list a snapshot decodes to, with the starting positions of a known list of the same session (none is known
      otherwise): every decoded driver but the key "_kf" is listed with its decoded fields and starts where it was known
      to start; else where the snapshot says; else on its line, if it is on one. */
  lemma SnapshotStart(known: Option<Drivers>, decoded: Drivers, n: string)
    ensures var list := if known.Some? then CarriedOver(known.value, SnapshotList(decoded)) else SnapshotList(decoded);
            && (n in list <==> n in decoded && n != "_kf")
            && (n in list ==>
                  var d := decoded[n];
                  var start := if known.Some? && n in known.value && known.value[n].startingPosition != ""
                               then known.value[n].startingPosition else d.startingPosition;
                  && list[n].line == d.line && list[n].rest == d.rest
                  && list[n].startingPosition == if start == "" && d.line != 0 then Itoa(d.line) else start)
  {
    if n in decoded && n != "_kf" && decoded[n].line != 0 {
      ItoaIsNotEmpty(decoded[n].line);
    }
  }

  // ---- starting positions over runs ----

  /** What happens to the list: an update of the feed, or a new snapshot of this or another session. */
  datatype RosterEvent = Feed(update: ListUpdate) | Snapshot(decoded: Drivers, sameSession: bool)

  function RosterStep(drivers: Drivers, ev: RosterEvent): Drivers {
    match ev
    case Feed(u) => ListAfter(drivers, u)
    case Snapshot(decoded, same) => if same then CarriedOver(drivers, SnapshotList(decoded)) else SnapshotList(decoded)
  }

  function RosterRun(drivers: Drivers, evs: seq<RosterEvent>): Drivers {
    if evs == [] then drivers else RosterStep(RosterRun(drivers, evs[..|evs| - 1]), evs[|evs| - 1])
  }

  /** A patch leaves the starting position s of a driver on line `line` alone. */
  predicate LeavesStart(p: InfoPatch, line: int, s: string) {
    var newLine := Or(p.line, line);
    || p.startingPosition == None
    || p.startingPosition == Some(s)
    || (p.startingPosition == Some("") && newLine != 0 && Itoa(newLine) == s)
  }

  /** One update keeps a known starting position exactly when its patch leaves it alone. */
  lemma StartKeptIff(d: DriverInfo, p: InfoPatch)
    requires d.startingPosition != ""
    ensures InfoAfter(Some(d), p).startingPosition == d.startingPosition <==> LeavesStart(p, d.line, d.startingPosition)
  {
  }

  /** The event does not carry the driver's starting position and keeps the driver listed. */
  predicate Keeps(ev: RosterEvent, n: string) {
    match ev
    case Feed(u) => n in Named(u) ==> u[n].value.startingPosition == None
    case Snapshot(decoded, same) => same && n in decoded && n != KEYFRAME_MARK
  }

  /** Starting positions are write-once: over any run of such events a known one never changes. */
  lemma {:induction false} StartingPositionIsWriteOnce(drivers: Drivers, evs: seq<RosterEvent>, n: string)
    requires n in drivers && drivers[n].startingPosition != ""
    requires forall k :: 0 <= k < |evs| ==> Keeps(evs[k], n)
    ensures n in RosterRun(drivers, evs)
    ensures RosterRun(drivers, evs)[n].startingPosition == drivers[n].startingPosition
  {
    hide InfoAfter;
    if evs != [] {
      var m := |evs| - 1;
      StartingPositionIsWriteOnce(drivers, evs[..m], n);
      var mid := RosterRun(drivers, evs[..m]);
      if evs[m].Feed? && n in Named(evs[m].update) {
        StartKeptIff(mid[n], evs[m].update[n].value);
      }
    }
  }

  /** A driver that the feed introduces starts where its line says and is announced; without a line it starts at 0. */
  lemma NewDriverHasStart(drivers: Drivers, u: ListUpdate, n: string)
    requires n in Named(u) && n !in drivers
    ensures n in Announced(drivers, u)
    ensures ListAfter(drivers, u)[n].startingPosition == Itoa(Or(u[n].value.line, 0)) != ""
  {
  }

  /** Such a 0 is final: no later update that brings the line, and no reconnection, replaces it. */
  lemma LateLineDoesNotCount(drivers: Drivers, u: ListUpdate, n: string, evs: seq<RosterEvent>)
    requires n in Named(u) && n !in drivers && u[n].value.line == None
    requires forall k :: 0 <= k < |evs| ==> Keeps(evs[k], n)
    ensures var drivers' := RosterRun(ListAfter(drivers, u), evs);
            n in drivers' && drivers'[n].startingPosition == "0"
  {
    hide RosterRun, Keeps, ListAfter, Announced;
    NewDriverHasStart(drivers, u, n);
    ListedAfter(drivers, u, n);
    assert Itoa(0) == "0";
    StartingPositionIsWriteOnce(ListAfter(drivers, u), evs, n);
  }

  lemma ListedAfter(drivers: Drivers, u: ListUpdate, n: string)
    requires n in Named(u)
    ensures n in ListAfter(drivers, u)
  {
  }
}
