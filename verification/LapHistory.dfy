/** The lap saveLapToHistory records, as a value: what it is made of and what always holds of it. */
module LapHistory {
  import opened Wrappers
  import opened Decimal
  import opened Text
  import opened SliceMerge
  import opened Sectors
  import opened Collections
  import LapTime

  const SEGMENT_STATUS_PIT: int := 2064

  /** The fields of DriverTimingData that the lap history reads or that name the driver, over the
      representation S of its Sectors. */
  datatype DriverTiming<S> = DriverTiming(
    racingNumber: string, position: string, inPit: bool, pitOut: bool, numberOfLaps: int, sectors: S)

  /** A decoded patch of one driver's line: scalars, the object form of Sectors, and _deleted. */
  datatype DriverPatch = DriverPatch(
    racingNumber: Option<string>, position: Option<string>, inPit: Option<bool>, pitOut: Option<bool>,
    numberOfLaps: Option<int>, sectors: map<string, SectorPatch>, deleted: seq<string>)

  datatype CompletedLap<S> = CompletedLap(
    lap: int, lapTime: string, sectors: S, pitted: bool, tyreCompound: string, position: string)

  type Driver = DriverTiming<seq<Sector>>
  type Lap = CompletedLap<seq<Sector>>

  /** json.Unmarshal of the scalar fields. */
  function PatchScalars<S>(d: DriverTiming<S>, p: DriverPatch): DriverTiming<S> {
    DriverTiming(Or(p.racingNumber, d.racingNumber), Or(p.position, d.position), Or(p.inPit, d.inPit),
                 Or(p.pitOut, d.pitOut), Or(p.numberOfLaps, d.numberOfLaps), d.sectors)
  }

  /** The zeroing of the fields that _deleted names; nil stands for the zero slice. */
  function DeleteFields<S>(d: DriverTiming<S>, names: seq<string>, nil: S): DriverTiming<S> {
    DriverTiming(
      if "RacingNumber" in names then "" else d.racingNumber,
      if "Position" in names then "" else d.position,
      if "InPit" in names then false else d.inPit,
      if "PitOut" in names then false else d.pitOut,
      if "NumberOfLaps" in names then 0 else d.numberOfLaps,
      if "Sectors" in names then nil else d.sectors)
  }

  /** The update completes a lap: sector key "2" carries a non-empty Value. */
  predicate CompletesLap(p: DriverPatch) {
    "2" in p.sectors && p.sectors["2"].value.Some? && p.sectors["2"].value.value != ""
  }

  function Values(sectors: seq<Sector>): (vs: seq<string>)
    ensures |vs| == |sectors|
  {
    seq(|sectors|, i requires 0 <= i < |sectors| => sectors[i].value)
  }

  predicate SegmentsInPit(segments: Segments) {
    exists j :: 0 <= j < |segments| && segments[j].status == SEGMENT_STATUS_PIT
  }

  predicate InPit(sectors: seq<Sector>) {
    exists i :: 0 <= i < |sectors| && SegmentsInPit(sectors[i].segments)
  }

  function LastCompound(stints: seq<Fields>): string {
    if stints == [] then "" else TextOf(stints[|stints| - 1], "Compound")
  }

  /** The n-th lap, from the driver's stored line and tyre stints. */
  ghost function Recorded(d: Driver, stints: seq<Fields>, n: nat): Lap {
    var sum := LapTime.SectorSum(Values(d.sectors));
    CompletedLap(
      n,
      if sum.Ok? then sum.value else "N/A",
      d.sectors,
      d.inPit || d.pitOut || InPit(d.sectors) || sum.Err?,
      LastCompound(stints),
      d.position)
  }

  /** What a client may rely on in every stored lap. */
  ghost predicate Sound(l: Lap) {
    var values := Values(l.sectors);
    && (if |values| == 3 && LapTime.AllParse(values)
        then LapTime.Parse(l.lapTime).Ok? && InInt64(LapTime.Parse(l.lapTime).value)
             && (LapTime.Parse(l.lapTime).value == LapTime.TotalOf(values)
                 <==> InInt64(LapTime.TotalOf(values)) && LapTime.TotalOf(values) % LapTime.MILLISECOND == 0)
        else l.lapTime == "N/A" && l.pitted)
    && (InPit(l.sectors) ==> l.pitted)
  }

  lemma NotATimeDoesNotParse()
    ensures LapTime.Parse("N/A").Err?
  {
    SplitWithoutSeparator("N/A", ':');
    SplitWithoutSeparator("N/A", '.');
    assert !IsDigit("N/A"[0]);
  }

  /** Every recorded lap is sound, "N/A" marks exactly the laps whose sectors do not add up, and
      a lap not marked as pitted was driven outside the pits from the first segment to the last. */
  lemma RecordedLapIsSound(d: Driver, stints: seq<Fields>, n: nat)
    ensures Sound(Recorded(d, stints, n))
    ensures var l := Recorded(d, stints, n); l.lap == n && l.sectors == d.sectors && l.position == d.position
    ensures stints != [] ==> Recorded(d, stints, n).tyreCompound == TextOf(stints[|stints| - 1], "Compound")
    ensures LapTime.Parse(Recorded(d, stints, n).lapTime).Ok? <==> |d.sectors| == 3 && LapTime.AllParse(Values(d.sectors))
    ensures !Recorded(d, stints, n).pitted ==>
              !d.inPit && !d.pitOut
              && forall i, j :: 0 <= i < |d.sectors| && 0 <= j < |d.sectors[i].segments|
                                ==> d.sectors[i].segments[j].status != SEGMENT_STATUS_PIT
  {
    hide LapTime.Parse, LapTime.Format, LapTime.TotalOf;
    NotATimeDoesNotParse();
    var values := Values(d.sectors);
    if LapTime.SectorSum(values).Ok? {
      LapTime.SectorSumReadsBack(values);
    }
    if !Recorded(d, stints, n).pitted {
      forall i, j | 0 <= i < |d.sectors| && 0 <= j < |d.sectors[i].segments|
        ensures d.sectors[i].segments[j].status != SEGMENT_STATUS_PIT
      {
        assert !SegmentsInPit(d.sectors[i].segments);
      }
    }
  }

  lemma ParsedSectors(sectors: seq<Sector>)
    ensures LapTime.AllParse(Values(sectors)) <==> forall i :: 0 <= i < |sectors| ==> LapTime.Parse(sectors[i].value).Ok?
  {
    hide LapTime.Parse;
    var values := Values(sectors);
    assert forall i :: 0 <= i < |sectors| ==> values[i] == sectors[i].value;
    if LapTime.AllParse(values) {
      assert forall i :: 0 <= i < |sectors| ==> LapTime.Parse(values[i]).Ok?;
    }
  }

  /** A lap is marked as pitted exactly when the line says so, when a segment has the status 2064 that stands for the pits,
      or when the three sector times do not add up to a lap time. */
  lemma PittedIff(d: Driver, stints: seq<Fields>, n: nat)
    ensures Recorded(d, stints, n).pitted
            <==> || d.inPit || d.pitOut
                 || (exists i, j :: 0 <= i < |d.sectors| && 0 <= j < |d.sectors[i].segments|
                                    && d.sectors[i].segments[j].status == 2064)
                 || |d.sectors| != 3 || exists i :: 0 <= i < 3 && LapTime.Parse(d.sectors[i].value).Err?
  {
    hide LapTime.Parse, LapTime.Format, Wrap64;
    ParsedSectors(d.sectors);
    if i, j :| 0 <= i < |d.sectors| && 0 <= j < |d.sectors[i].segments| && d.sectors[i].segments[j].status == 2064 {
      assert SegmentsInPit(d.sectors[i].segments);
    }
  }

  /** The text and the tyre of a lap: the printed 64-bit sum of its three sector times, or "N/A", and the text that the
      last stint carries for its compound. */
  lemma LapTexts(d: Driver, stints: seq<Fields>, n: nat)
    ensures var lap, s := Recorded(d, stints, n), d.sectors;
            && (|s| == 3 && (forall i :: 0 <= i < 3 ==> LapTime.Parse(s[i].value).Ok?) ==>
                  lap.lapTime == LapTime.Format(Wrap64(LapTime.Parse(s[0].value).value + LapTime.Parse(s[1].value).value
                                                       + LapTime.Parse(s[2].value).value)))
            && (|s| != 3 || (exists i :: 0 <= i < 3 && LapTime.Parse(s[i].value).Err?) ==> lap.lapTime == "N/A")
    ensures var lap, k := Recorded(d, stints, n), |stints| - 1;
            if k >= 0 && "Compound" in stints[k] && stints[k]["Compound"].Text?
            then lap.tyreCompound == stints[k]["Compound"].text else lap.tyreCompound == ""
  {
    hide LapTime.Parse, LapTime.Format, Wrap64;
    var values := Values(d.sectors);
    ParsedSectors(d.sectors);
    if |d.sectors| == 3 && LapTime.AllParse(values) {
      assert values == [d.sectors[0].value, d.sectors[1].value, d.sectors[2].value];
      LapTime.TotalOfThree(values[0], values[1], values[2]);
    }
  }

  // ---- what one update of one driver's line does ----

  ghost function NewDriver(number: string): Driver {
    DriverTiming(number, "", false, false, 0, [])
  }

  /** The line once p was applied to it, in one order of the ranges. */
  ghost function Patched(base: Driver, p: DriverPatch, trace: seq<(string, TracedPatch)>): Driver {
    DeleteFields(PatchScalars(base, p).(sectors := DeepExecute(base.sectors, p.sectors, trace)), p.deleted, [])
  }

  /** The lap recorded from a stored line while p is applied to it in that order, with the scalars from before p. */
  ghost predicate LapAdded(base: Driver, p: DriverPatch, trace: seq<(string, TracedPatch)>, stints: seq<Fields>,
                           laps: seq<Lap>, laps': seq<Lap>)
  {
    exists shown :: ShownBy(base.sectors, p.sectors, trace, shown)
                    && laps' == laps + [Recorded(base.(sectors := shown), stints, |laps| + 1)]
  }

  /** What an update does to one driver: one order of the ranges gives both the new line and the recorded lap. */
  ghost predicate LineTimed(base: Driver, stored: bool, p: DriverPatch, stints: seq<Fields>, laps: seq<Lap>,
                            after: Driver, laps': seq<Lap>)
  {
    exists trace :: DeeplyLinearizes(trace, p.sectors) && TimedBy(base, stored, p, trace, stints, laps, after, laps')
  }

  ghost predicate TimedBy(base: Driver, stored: bool, p: DriverPatch, trace: seq<(string, TracedPatch)>,
                          stints: seq<Fields>, laps: seq<Lap>, after: Driver, laps': seq<Lap>)
  {
    && after == Patched(base, p, trace)
    && if stored && CompletesLap(p) then LapAdded(base, p, trace, stints, laps, laps') else laps' == laps
  }

  /** The recorded lap holds the sectors of the new line exactly when no sector had to be appended. */
  lemma LapHoldsLineIff(base: Driver, p: DriverPatch, stints: seq<Fields>, laps: seq<Lap>, after: Driver, laps': seq<Lap>)
    requires LineTimed(base, true, p, stints, laps, after, laps') && CompletesLap(p) && "Sectors" !in p.deleted
    ensures |laps'| == |laps| + 1
    ensures laps'[|laps|].sectors == after.sectors <==> NewLength(|base.sectors|, p.sectors) == |base.sectors|
  {
    hide DeeplyLinearizes, CompletesLap, RunTrace, NewLength;
    var trace :| DeeplyLinearizes(trace, p.sectors) && TimedBy(base, true, p, trace, stints, laps, after, laps');
    assert |after.sectors| == NewLength(|base.sectors|, p.sectors);
  }

  /** With distinct keys the recorded lap is the lap of the merged sectors exactly when no sector had to be appended. */
  lemma LapHoldsMergedSectors(base: Driver, p: DriverPatch, stints: seq<Fields>, laps: seq<Lap>, after: Driver, laps': seq<Lap>)
    requires LineTimed(base, true, p, stints, laps, after, laps') && CompletesLap(p) && DeeplyDistinct(p.sectors)
    ensures laps' == laps + [Recorded(base.(sectors := Merged(SECTOR, base.sectors, p.sectors)), stints, |laps| + 1)]
            <==> NewLength(|base.sectors|, p.sectors) == |base.sectors|
  {
    hide DeeplyLinearizes, DeeplyDistinct, CompletesLap, Merged, DeepExecute, NewLength, Patched,
         LapTime.SectorSum, Values, InPit;
    var trace :| DeeplyLinearizes(trace, p.sectors) && TimedBy(base, true, p, trace, stints, laps, after, laps');
    NestedOrderIsIrrelevant(base.sectors, p.sectors, trace);
    var shown :| ShownBy(base.sectors, p.sectors, trace, shown)
      && laps' == laps + [Recorded(base.(sectors := shown), stints, |laps| + 1)];
    var merged := laps + [Recorded(base.(sectors := Merged(SECTOR, base.sectors, p.sectors)), stints, |laps| + 1)];
    assert laps'[|laps|].sectors == shown && merged[|laps|].sectors == Merged(SECTOR, base.sectors, p.sectors);
    MergedLength(base.sectors, p.sectors);
  }

  lemma MergedLength(s: seq<Sector>, u: map<string, SectorPatch>)
    ensures |Merged(SECTOR, s, u)| == NewLength(|s|, u)
  {
  }

  /** A line with more or fewer than three sectors before the update that completes the lap never gets a lap time,
      whatever it shows afterwards. */
  lemma ShortLineRecordsNoTime(base: Driver, p: DriverPatch, stints: seq<Fields>, laps: seq<Lap>, after: Driver, laps': seq<Lap>)
    requires LineTimed(base, true, p, stints, laps, after, laps') && CompletesLap(p) && |base.sectors| != 3
    ensures |laps'| == |laps| + 1 && laps'[|laps|].lapTime == "N/A" && laps'[|laps|].pitted
  {
    hide DeeplyLinearizes, CompletesLap, DeepExecute, NewLength, Patched, InPit;
    var trace :| DeeplyLinearizes(trace, p.sectors) && TimedBy(base, true, p, trace, stints, laps, after, laps');
  }

  function TimedSector(value: string): Sector {
    ZERO_SECTOR.(value := value)
  }

  function ValuePatch(value: string): SectorPatch {
    SectorPatch(None, Some(value), None, None, None, map[], None)
  }

  /** Two sectors are stored and the third arrives: the line shows a whole lap of 1:30.000, the history has it without
      a time and as a pit stop. */
  lemma FirstLapMissesItsTime() returns (base: Driver, p: DriverPatch, after: Driver, laps: seq<Lap>)
    ensures Values(base.sectors) == ["20.000", "30.000"] && !base.inPit && !base.pitOut
    ensures p.sectors == map["2" := ValuePatch("40.000")] && p.deleted == []
    ensures LineTimed(base, true, p, [], [], after, laps) && CompletesLap(p)
    ensures Values(after.sectors) == ["20.000", "30.000", "40.000"]
    ensures LapTime.SectorSum(Values(after.sectors)) == Ok("1:30.000")
    ensures |laps| == 1 && laps[0].lapTime == "N/A" && laps[0].pitted
  {
    hide LapTime.SectorSum, Recorded, CompletesLap, InPit, Patched, LineTimed, DeeplyLinearizes, DeepExecute, NewLength;
    var x := ValuePatch("40.000");
    base := DriverTiming("1", "1", false, false, 0, [TimedSector("20.000"), TimedSector("30.000")]);
    p := DriverPatch(None, None, None, None, None, map["2" := x], []);
    var trace: seq<(string, TracedPatch)> := [("2", (x, []))];
    ThirdSectorArrives(base.sectors, x, trace);
    after := Patched(base, p, trace);
    laps := [Recorded(base, [], 1)];
    CompletesWithValue(p);
    GrowingLineTimed(base, p, trace);
    ShortLineRecordsNoTime(base, p, [], [], after, laps);
    NothingDeleted(base, p, trace);
    assert Values(after.sectors) == ["20.000", "30.000", "40.000"];
    MinuteAndAHalf();
  }

  /** While the array moves, the lap is recorded from the line as it was. */
  lemma GrowingLineTimed(base: Driver, p: DriverPatch, trace: seq<(string, TracedPatch)>)
    requires DeeplyLinearizes(trace, p.sectors) && NewLength(|base.sectors|, p.sectors) != |base.sectors| && CompletesLap(p)
    ensures LineTimed(base, true, p, [], [], Patched(base, p, trace), [Recorded(base, [], 1)])
  {
    hide DeeplyLinearizes, NewLength, CompletesLap, Patched, Recorded, ShownBy, LapAdded;
    KeepsOldHeader(base.sectors, p.sectors, trace);
    assert base.(sectors := base.sectors) == base;
    AddedBy(base, p, [], [], trace, base.sectors);
    assert [] + [Recorded(base, [], 1)] == [Recorded(base, [], 1)];
    TimedSo(base, true, p, trace, [], [], [Recorded(base, [], 1)]);
  }

  lemma NothingDeleted(base: Driver, p: DriverPatch, trace: seq<(string, TracedPatch)>)
    requires p.deleted == []
    ensures Patched(base, p, trace).sectors == DeepExecute(base.sectors, p.sectors, trace)
  {
    hide DeepExecute;
  }

  lemma CompletesWithValue(p: DriverPatch)
    requires p.sectors == map["2" := ValuePatch("40.000")]
    ensures CompletesLap(p)
  {
  }

  lemma ThirdSectorArrives(s: seq<Sector>, x: SectorPatch, trace: seq<(string, TracedPatch)>)
    requires |s| == 2 && x.segments == map[] && trace == [("2", (x, []))]
    ensures var u := map["2" := x];
            && DeeplyLinearizes(trace, u) && NewLength(2, u) == 3
            && DeepExecute(s, u, trace) == s + [PatchFields(ZERO_SECTOR, x)]
  {
    hide DeeplyLinearizes, NewLength, RunTrace, PatchTraced, PatchFields, SliceMerge.IndexOf;
    var u := map["2" := x];
    OneEntry(trace, u, x);
    KeyTwo(u, x);
    assert [] + [("2", (x, []))] == trace;
    RunNone(TRACED, Extend(s, ZERO_SECTOR, 3));
    RunLast(TRACED, Extend(s, ZERO_SECTOR, 3), [], ("2", (x, [])));
    FieldsOnly(x);
    assert Extend(s, ZERO_SECTOR, 3)[2 := PatchFields(ZERO_SECTOR, x)] == s + [PatchFields(ZERO_SECTOR, x)];
  }

  lemma KeyTwo(u: map<string, SectorPatch>, x: SectorPatch)
    requires u == map["2" := x]
    ensures SliceMerge.IndexOf("2") == Some(2) && NewLength(2, u) == 3
  {
    hide MaxOf;
    AtoiOfNumeral("2");
    assert "2"[..0] == "";
    assert SliceMerge.IndexOf("2") == Some(2);
    assert "2" in u && Indices(u) == {2};
    MaxIsUnique(Indices(u), 2);
  }

  /** A patch without segments sets fields and nothing else. */
  lemma FieldsOnly(x: SectorPatch)
    requires x.segments == map[]
    ensures PatchTraced(ZERO_SECTOR, (x, [])) == PatchFields(ZERO_SECTOR, x)
  {
    hide MaxOf;
    assert Indices(x.segments) == {};
    MaxIsUnique(Indices(x.segments), -1);
    RunNone(SEGMENT, []);
    assert Execute(SEGMENT, [], x.segments, []) == [];
  }

  lemma OneEntry(trace: seq<(string, TracedPatch)>, u: map<string, SectorPatch>, x: SectorPatch)
    requires trace == [("2", (x, []))] && u == map["2" := x] && x.segments == map[]
    ensures DeeplyLinearizes(trace, u)
  {
    var plain := Untraced(trace);
    assert plain == [("2", x)];
    forall k | k in u
      ensures exists j :: 0 <= j < |plain| && plain[j].0 == k
    {
      assert plain[0].0 == k;
    }
    assert Linearizes(plain, u);
    assert trace[0].1.1 == [] && trace[0].1.0.segments == map[];
  }

  lemma KeepsOldHeader(s: seq<Sector>, u: map<string, SectorPatch>, trace: seq<(string, TracedPatch)>)
    requires NewLength(|s|, u) != |s|
    ensures ShownBy(s, u, trace, s)
  {
    hide NewLength;
    var base := Extend(s, ZERO_SECTOR, NewLength(|s|, u));
    RunNone(TRACED, base);
    assert trace[..0] == [];
    forall i | 0 <= i < |s|
      ensures StoppedAt(base, trace, i, s[i].segments)
    {
      assert s[i].segments <= RunTrace(TRACED, base, trace[..0])[i].segments;
    }
  }

  lemma MinuteAndAHalf()
    ensures LapTime.SectorSum(["20.000", "30.000", "40.000"]) == Ok("1:30.000")
  {
    hide LapTime.Parse, LapTime.Format, DigitsValue, AllDigits, Wrap64;
    SmallNumerals();
    LapTime.ParseOfSeconds("20", "000");
    LapTime.ParseOfSeconds("30", "000");
    LapTime.ParseOfSeconds("40", "000");
    assert "20" + "." + "000" == "20.000" && "30" + "." + "000" == "30.000" && "40" + "." + "000" == "40.000";
    assert LapTime.IsCanonical("1", "30", "000");
    LapTime.FormatOfParse("1", "30", "000");
    assert "1" + ":" + "30" + "." + "000" == "1:30.000";
    LapTime.TotalOfThree("20.000", "30.000", "40.000");
  }

  lemma SmallNumerals()
    ensures AllDigits("000") && DigitsValue("000") == 0 && AllDigits("1") && DigitsValue("1") == 1
    ensures AllDigits("20") && DigitsValue("20") == 20 && AllDigits("30") && DigitsValue("30") == 30
    ensures AllDigits("40") && DigitsValue("40") == 40
  {
    TwoDigitValue("20");
    TwoDigitValue("30");
    TwoDigitValue("40");
    TwoDigitValue("00");
    assert "000"[..2] == "00" && "1"[..0] == "";
  }

  lemma TwoDigitValue(s: string)
    requires |s| == 2 && AllDigits(s)
    ensures DigitsValue(s) == DigitValue(s[0]) * 10 + DigitValue(s[1])
  {
    var t := s[..1];
    assert t[..0] == "" && s[..|s| - 1] == t && t[0] == s[0];
    assert DigitsValue(t) == DigitsValue(t[..0]) * 10 + DigitValue(t[0]);
  }

  ghost function LineOrNew(lines: map<string, Driver>, driver: string): Driver {
    if driver in lines then lines[driver] else NewDriver(driver)
  }

  lemma NoSectorsNamed(sectors: seq<Sector>, u: map<string, SectorPatch>)
    requires u == map[]
    ensures DeeplyLinearizes([], u) && DeepExecute(sectors, u, []) == sectors
    ensures NewLength(|sectors|, u) == |sectors|
  {
    assert Indices(u) == {};
    assert Grown(|sectors|, -1) == |sectors|;
    assert Untraced([]) == [];
  }

  /** One driver's part of a TimingData update, on the two maps as values. */
  ghost predicate DriverStep(
    lines: map<string, Driver>, laps: map<string, seq<Lap>>, driver: string, p: DriverPatch, stints: seq<Fields>,
    lines': map<string, Driver>, laps': map<string, seq<Lap>>)
  {
    && driver in lines'
    && lines' == lines[driver := lines'[driver]]
    && LineTimed(LineOrNew(lines, driver), driver in lines, p, stints, LapsOf(laps, driver),
                 lines'[driver], LapsOf(laps', driver))
    && laps' == if driver in lines && CompletesLap(p) then laps[driver := LapsOf(laps', driver)] else laps
  }

  lemma DriverStepOf(
    lines: map<string, Driver>, laps: map<string, seq<Lap>>, driver: string, p: DriverPatch, stints: seq<Fields>,
    after: Driver, lines': map<string, Driver>, laps': map<string, seq<Lap>>)
    requires lines' == lines[driver := after]
    requires LineTimed(LineOrNew(lines, driver), driver in lines, p, stints, LapsOf(laps, driver), after,
                       LapsOf(laps', driver))
    requires laps' == if driver in lines && CompletesLap(p) then laps[driver := LapsOf(laps', driver)] else laps
    ensures DriverStep(lines, laps, driver, p, stints, lines', laps')
  {
    hide LineTimed, CompletesLap;
  }

  function LapsOf<S>(history: map<string, seq<CompletedLap<S>>>, driver: string): seq<CompletedLap<S>> {
    if driver in history then history[driver] else []
  }

  /** A whole TimingData update: what it may do to each driver, whatever the order of the range. */
  ghost predicate TimingStep(
    lines: map<string, Driver>, laps: map<string, seq<Lap>>, updates: map<string, DriverPatch>,
    stints: map<string, seq<Fields>>, lines': map<string, Driver>, laps': map<string, seq<Lap>>)
  {
    && lines'.Keys == lines.Keys + updates.Keys
    && laps'.Keys <= laps.Keys + updates.Keys && laps.Keys <= laps'.Keys
    && forall d :: DriverTimed(lines, laps, updates, stints, lines', laps', d)
  }

  ghost predicate DriverTimed(
    lines: map<string, Driver>, laps: map<string, seq<Lap>>, updates: map<string, DriverPatch>,
    stints: map<string, seq<Fields>>, lines': map<string, Driver>, laps': map<string, seq<Lap>>, d: string)
  {
    && (d in updates && d in lines' ==>
          LineTimed(LineOrNew(lines, d), d in lines, updates[d], StintsOf(stints, d), LapsOf(laps, d),
                    lines'[d], LapsOf(laps', d)))
    && (d !in updates && d in lines && d in lines' ==> lines'[d] == lines[d])
    && (d !in updates ==> LapsOf(laps', d) == LapsOf(laps, d))
  }

  /** Over a whole update: a driver's history gains a lap exactly when the driver is stored and sector key "2" of its patch
      carries a Value that is not empty. The lap has the next number, and its position, its tyre and the pit flags are
      those from before the update. */
  lemma LapAddedIff(
    lines: map<string, Driver>, laps: map<string, seq<Lap>>, u: map<string, DriverPatch>, stints: map<string, seq<Fields>>,
    lines': map<string, Driver>, laps': map<string, seq<Lap>>, d: string)
    requires TimingStep(lines, laps, u, stints, lines', laps')
    ensures var before, after := LapsOf(laps, d), LapsOf(laps', d);
            if d in lines && d in u && "2" in u[d].sectors && u[d].sectors["2"].value.Some?
               && u[d].sectors["2"].value.value != ""
            then
              && |after| == |before| + 1 && before <= after
              && after[|before|].lap == |before| + 1 && after[|before|].position == lines[d].position
              && (lines[d].inPit || lines[d].pitOut ==> after[|before|].pitted)
              && after[|before|].tyreCompound
                 == LastCompound(if d in stints then stints[d] else [])
            else after == before
  {
    hide DeeplyLinearizes, DeepExecute, ShownBy, Patched, LapTime.SectorSum, InPit, Values, LastCompound;
    assert DriverTimed(lines, laps, u, stints, lines', laps', d);
    if d in u {
      var trace :| DeeplyLinearizes(trace, u[d].sectors)
        && TimedBy(LineOrNew(lines, d), d in lines, u[d], trace, StintsOf(stints, d), LapsOf(laps, d), lines'[d],
                   LapsOf(laps', d));
    }
  }

  /** Over a whole update: what each field of a named driver's line becomes. */
  lemma LineFields(
    lines: map<string, Driver>, laps: map<string, seq<Lap>>, u: map<string, DriverPatch>, stints: map<string, seq<Fields>>,
    lines': map<string, Driver>, laps': map<string, seq<Lap>>, d: string)
    requires TimingStep(lines, laps, u, stints, lines', laps') && d in u
    ensures d in lines'
    ensures var p, now := u[d], lines'[d];
            var line := if d in lines then lines[d] else DriverTiming(d, "", false, false, 0, []);
            && now.racingNumber == (if "RacingNumber" in p.deleted then "" else
                                    if p.racingNumber.Some? then p.racingNumber.value else line.racingNumber)
            && now.position == (if "Position" in p.deleted then "" else
                                if p.position.Some? then p.position.value else line.position)
            && now.inPit == (if "InPit" in p.deleted then false else if p.inPit.Some? then p.inPit.value else line.inPit)
            && now.pitOut == (if "PitOut" in p.deleted then false else if p.pitOut.Some? then p.pitOut.value else line.pitOut)
            && now.numberOfLaps == (if "NumberOfLaps" in p.deleted then 0 else
                                    if p.numberOfLaps.Some? then p.numberOfLaps.value else line.numberOfLaps)
            && ("Sectors" in p.deleted ==> now.sectors == [])
            && ("Sectors" !in p.deleted && DeeplyDistinct(p.sectors) ==>
                  now.sectors == Merged(SECTOR, line.sectors, p.sectors))
  {
    hide DeeplyLinearizes, DeeplyDistinct, DeepExecute, Merged, ShownBy, LapAdded, CompletesLap;
    assert DriverTimed(lines, laps, u, stints, lines', laps', d);
    var base := LineOrNew(lines, d);
    var trace :| DeeplyLinearizes(trace, u[d].sectors)
      && TimedBy(base, d in lines, u[d], trace, StintsOf(stints, d), LapsOf(laps, d), lines'[d], LapsOf(laps', d));
    if DeeplyDistinct(u[d].sectors) {
      NestedOrderIsIrrelevant(base.sectors, u[d].sectors, trace);
    }
  }

  function StintsOf(stints: map<string, seq<Fields>>, driver: string): seq<Fields> {
    if driver in stints then stints[driver] else []
  }

  lemma AddedBy(base: Driver, p: DriverPatch, stints: seq<Fields>, laps: seq<Lap>,
                trace: seq<(string, TracedPatch)>, shown: seq<Sector>)
    requires ShownBy(base.sectors, p.sectors, trace, shown)
    ensures LapAdded(base, p, trace, stints, laps, laps + [Recorded(base.(sectors := shown), stints, |laps| + 1)])
  {
    hide ShownBy, DeepExecute, Recorded;
  }

  lemma TimedSo(base: Driver, stored: bool, p: DriverPatch, trace: seq<(string, TracedPatch)>, stints: seq<Fields>,
                laps: seq<Lap>, laps': seq<Lap>)
    requires DeeplyLinearizes(trace, p.sectors)
    requires if stored && CompletesLap(p) then LapAdded(base, p, trace, stints, laps, laps') else laps' == laps
    ensures LineTimed(base, stored, p, stints, laps, Patched(base, p, trace), laps')
  {
    hide DeeplyLinearizes, Patched, LapAdded, CompletesLap;
    assert TimedBy(base, stored, p, trace, stints, laps, Patched(base, p, trace), laps');
  }

  lemma TimingStepNone(lines: map<string, Driver>, laps: map<string, seq<Lap>>, stints: map<string, seq<Fields>>)
    ensures TimingStep(lines, laps, map[], stints, lines, laps)
  {
  }

  /** One more driver of a range over the update. */
  lemma TimingStepExtends(
    lines: map<string, Driver>, laps: map<string, seq<Lap>>, updates: map<string, DriverPatch>, todo: set<string>,
    stints: map<string, seq<Fields>>, mid: map<string, Driver>, midLaps: map<string, seq<Lap>>, driver: string,
    lines': map<string, Driver>, laps': map<string, seq<Lap>>)
    requires driver in todo && todo <= updates.Keys
    requires TimingStep(lines, laps, updates - todo, stints, mid, midLaps)
    requires DriverStep(mid, midLaps, driver, updates[driver], StintsOf(stints, driver), lines', laps')
    ensures TimingStep(lines, laps, updates - (todo - {driver}), stints, lines', laps')
  {
    hide LineTimed, DriverStep;
    StepKeys(mid, midLaps, driver, updates[driver], StintsOf(stints, driver), lines', laps');
    forall d
      ensures DriverTimed(lines, laps, updates - (todo - {driver}), stints, lines', laps', d)
    {
      assert DriverTimed(lines, laps, updates - todo, stints, mid, midLaps, d);
      TimedExtends(lines, laps, updates, todo, stints, mid, midLaps, driver, lines', laps', d);
    }
  }

  lemma StepKeys(
    lines: map<string, Driver>, laps: map<string, seq<Lap>>, driver: string, p: DriverPatch, stints: seq<Fields>,
    lines': map<string, Driver>, laps': map<string, seq<Lap>>)
    requires DriverStep(lines, laps, driver, p, stints, lines', laps')
    ensures lines'.Keys == lines.Keys + {driver} && laps.Keys <= laps'.Keys <= laps.Keys + {driver}
  {
    hide LineTimed;
  }

  lemma TimedExtends(
    lines: map<string, Driver>, laps: map<string, seq<Lap>>, updates: map<string, DriverPatch>, todo: set<string>,
    stints: map<string, seq<Fields>>, mid: map<string, Driver>, midLaps: map<string, seq<Lap>>, driver: string,
    lines': map<string, Driver>, laps': map<string, seq<Lap>>, d: string)
    requires driver in todo && todo <= updates.Keys
    requires mid.Keys == lines.Keys + (updates - todo).Keys
    requires DriverTimed(lines, laps, updates - todo, stints, mid, midLaps, d)
    requires DriverStep(mid, midLaps, driver, updates[driver], StintsOf(stints, driver), lines', laps')
    ensures DriverTimed(lines, laps, updates - (todo - {driver}), stints, lines', laps', d)
  {
    hide LineTimed, CompletesLap;
  }
}
