/** The timing half of GlobalState on the heap: live lines whose slices the merge mutates in place, and the
    lap history that must not be touched by it. */
module LiveState {
  import opened Wrappers
  import opened SliceMerge
  import opened Sectors
  import opened SectorHeap
  import opened Collections
  import opened LapHistory
  import LapTime

  type HeapDriver = DriverTiming<Slice<HeapSector>>
  type HeapLap = CompletedLap<Slice<HeapSector>>

  method CopySegments(sl: Slice<SegmentStatus>) returns (c: Slice<SegmentStatus>, pit: bool)
    requires sl.Valid()
    ensures c.Valid() && c.arr != null && fresh(c.arr)
    ensures c.View() == sl.View()
    ensures pit == SegmentsInPit(sl.View())
  {
    var arr := new SegmentStatus[sl.len](_ => SegmentStatus(0));
    pit := false;
    for i := 0 to sl.len
      invariant arr[..i] == sl.View()[..i]
      invariant pit == SegmentsInPit(sl.View()[..i])
    {
      arr[i] := sl.arr[i];
      ghost var shown := sl.View();
      assert shown[..i + 1] == shown[..i] + [shown[i]];
      if sl.arr[i].status == SEGMENT_STATUS_PIT {
        pit := true;
        assert shown[..i + 1][i].status == SEGMENT_STATUS_PIT;
      }
    }
    c := Slice(arr, sl.len);
    assert sl.View()[..sl.len] == sl.View();
  }

  method CopySector(s: HeapSector) returns (c: HeapSector, pit: bool)
    requires s.segments.Valid()
    ensures c.segments.Valid() && c.segments.arr != null && fresh(c.segments.arr)
    ensures SectorView(c) == SectorView(s)
    ensures pit == SegmentsInPit(SectorView(s).segments)
  {
    var segments;
    segments, pit := CopySegments(s.segments);
    c := s.(segments := segments);
  }

  method DecodeSegments(segments: Segments) returns (c: Slice<SegmentStatus>)
    ensures c.Valid() && c.arr != null && fresh(c.arr) && c.View() == segments
  {
    var arr := new SegmentStatus[|segments|](i requires 0 <= i < |segments| => segments[i]);
    c := Slice(arr, |segments|);
  }

  /** The slices json.Unmarshal allocates for decoded sectors. */
  method DecodeSectors(sectors: seq<Sector>) returns (c: Slice<HeapSector>)
    ensures Separate(c) && fresh(Footprint(c)) && DeepView(c) == sectors
    ensures c.Backing() <= Footprint(c) && SegmentArrays(c) <= Footprint(c)
  {
    hide Apart, ViewOf, SegmentArraysOf;
    NothingCopied();
    var decoded := [];
    for i := 0 to |sectors|
      invariant |decoded| == i
      invariant Apart(decoded) && ViewOf(decoded) == sectors[..i]
      invariant fresh(SegmentArraysOf(decoded))
      invariant forall o :: o in SegmentArraysOf(decoded) ==> allocated(o)
    {
      var segments := DecodeSegments(sectors[i].segments);
      var s := sectors[i];
      var e: HeapSector := SectorTiming(s.stopped, s.value, s.status, s.overallFastest, s.personalFastest,
                                        segments, s.previousValue);
      AppendElement(decoded, e);
      assert SectorView(e) == s;
      OneMore(sectors, i);
      decoded := decoded + [e];
    }
    c := Allocate(decoded);
    assert sectors[..|sectors|] == sectors;
    FootprintReads(c);
  }

  /** The deep copy of saveLapToHistory over the elements of a slice, looking also for segments driven in the pits. */
  method CopySectors(es: seq<HeapSector>) returns (c: Slice<HeapSector>, pit: bool)
    requires Apart(es)
    ensures Separate(c) && fresh(Footprint(c)) && c.len == |es|
    ensures DeepView(c) == old(ViewOf(es))
    ensures pit == InPit(old(ViewOf(es)))
  {
    ghost var source := SegmentArraysOf(es);
    assert forall o :: o in source ==> allocated(o);
    hide InPit, Apart, ViewOf, SegmentArraysOf;
    var copies;
    copies, pit := CopyElements(es);
    c := Allocate(copies);
  }

  method CopyElements(es: seq<HeapSector>) returns (copies: seq<HeapSector>, pit: bool)
    requires Apart(es)
    ensures Apart(copies) && fresh(SegmentArraysOf(copies)) && |copies| == |es|
    ensures forall o :: o in SegmentArraysOf(copies) ==> allocated(o)
    ensures ViewOf(copies) == ViewOf(es) && ViewOf(es) == old(ViewOf(es))
    ensures pit == InPit(ViewOf(es))
  {
    ghost var source := SegmentArraysOf(es);
    assert forall o :: o in source ==> allocated(o);
    hide InPit, SegmentsInPit, SectorView, Apart, ViewOf, SegmentArraysOf;
    pit := false;
    ghost var shown := ViewOf(es);
    NothingCopied();
    copies := [];
    for i := 0 to |es|
      invariant |copies| == i
      invariant Apart(copies) && ViewOf(copies) == shown[..i]
      invariant fresh(SegmentArraysOf(copies)) && ViewOf(es) == shown
      invariant forall o :: o in SegmentArraysOf(copies) ==> allocated(o)
      invariant pit == InPit(shown[..i])
    {
      ElementAt(es, i);
      var copied, inPit := CopySector(es[i]);
      assert ViewOf(copies) == shown[..i] && SectorView(copied) == shown[i];
      AppendElement(copies, copied);
      copies := copies + [copied];
      OneMore(shown, i);
      InPitExtends(shown[..i], shown[i]);
      pit := pit || inPit;
    }
    assert shown[..|es|] == shown;
  }

  lemma OneMore<T>(s: seq<T>, i: nat)
    requires i < |s|
    ensures s[..i + 1] == s[..i] + [s[i]]
  {
  }

  /** A new array for given elements. */
  method Allocate(es: seq<HeapSector>) returns (c: Slice<HeapSector>)
    requires Apart(es)
    ensures Separate(c) && c.len == |es| && DeepView(c) == ViewOf(es) && ViewOf(es) == old(ViewOf(es))
    ensures c.arr != null && fresh(c.arr) && Footprint(c) == {c.arr} + SegmentArraysOf(es)
  {
    ghost var arrays := SegmentArraysOf(es);
    assert forall o :: o in arrays ==> allocated(o);
    hide ViewOf, Apart, SegmentArraysOf;
    var arr := new HeapSector[|es|](i requires 0 <= i < |es| => es[i]);
    c := Slice(arr, |es|);
    ArrayOf(c, es);
  }

  lemma ArrayOf(c: Slice<HeapSector>, es: seq<HeapSector>)
    requires c.arr != null && c.len == c.arr.Length && c.arr[..] == es
    requires Apart(es) && c.arr !in SegmentArraysOf(es)
    ensures Separate(c) && DeepView(c) == ViewOf(es) && Footprint(c) == {c.arr} + SegmentArraysOf(es)
  {
    assert c.View() == es;
  }

  lemma NothingCopied()
    ensures Apart([]) && ViewOf([]) == [] && SegmentArraysOf([]) == {} && !InPit([])
  {
  }

  lemma ElementAt(es: seq<HeapSector>, i: nat)
    requires Apart(es) && i < |es|
    ensures es[i].segments.Valid() && ViewOf(es)[i] == SectorView(es[i])
  {
  }

  lemma InPitExtends(s: seq<Sector>, t: Sector)
    ensures InPit(s + [t]) <==> InPit(s) || SegmentsInPit(t.segments)
  {
    hide SegmentsInPit;
    var all := s + [t];
    assert all[|s|] == t;
    if InPit(s) {
      var i :| 0 <= i < |s| && SegmentsInPit(s[i].segments);
      assert all[i] == s[i];
    }
  }

  lemma AppendElement(es: seq<HeapSector>, e: HeapSector)
    requires Apart(es) && e.segments.Valid()
    requires e.segments.arr == null || e.segments.arr !in SegmentArraysOf(es)
    ensures Apart(es + [e]) && SegmentArraysOf(es + [e]) == SegmentArraysOf(es) + e.segments.Backing()
    ensures ViewOf(es + [e]) == ViewOf(es) + [SectorView(e)]
  {
    var all := es + [e];
    assert forall i :: 0 <= i < |es| ==> all[i] == es[i];
    assert all[|es|] == e;
  }

  /** Laps are numbered 1, 2, 3 and so on. */
  ghost predicate Numbered<S>(laps: seq<CompletedLap<S>>) {
    forall k :: 0 <= k < |laps| ==> laps[k].lap == k + 1
  }

  ghost function DriverView(d: HeapDriver): Driver
    requires Separate(d.sectors)
    reads d.sectors.Backing(), if d.sectors.Valid() then SegmentArrays(d.sectors) else {}
  {
    DriverTiming(d.racingNumber, d.position, d.inPit, d.pitOut, d.numberOfLaps, DeepView(d.sectors))
  }

  ghost function LapView(l: HeapLap): Lap
    requires Separate(l.sectors)
    reads l.sectors.Backing(), if l.sectors.Valid() then SegmentArrays(l.sectors) else {}
  {
    CompletedLap(l.lap, l.lapTime, DeepView(l.sectors), l.pitted, l.tyreCompound, l.position)
  }

  /** The first half of saveLapToHistory: the lap made from a line. */
  method RecordLap(timing: HeapDriver, stints: seq<Fields>, lapNum: nat) returns (lap: HeapLap)
    requires Separate(timing.sectors)
    ensures Separate(lap.sectors) && fresh(Footprint(lap.sectors))
    ensures LapView(lap) == Recorded(old(DriverView(timing)), stints, lapNum)
    ensures lap.lap == lapNum
  {
    hide LapTime.SectorSum, InPit, ViewOf, Apart, Recorded, Values;
    ghost var d := DriverView(timing);
    var hasPitted := timing.inPit || timing.pitOut;
    var es := timing.sectors.View();
    var currentSectors, pit := CopySectors(es);
    hasPitted := hasPitted || pit;
    assert DeepView(currentSectors) == d.sectors;
    var copies := currentSectors.View();
    CopiedValues(copies);
    var sum := LapTime.SumOfSectors(seq(|copies|, i requires 0 <= i < |copies| => copies[i].value));
    var lapTime;
    match sum {
      case Ok(text) =>
        lapTime := text;
      case Err =>
        lapTime := "N/A";
        hasPitted := true;
    }
    var compound := if |stints| > 0 then TextOf(stints[|stints| - 1], "Compound") else "";
    RecordedFrom(d, stints, lapNum, sum, pit, compound);
    lap := CompletedLap(lapNum, lapTime, currentSectors, hasPitted, compound, timing.position);
  }

  lemma RecordedFrom(d: Driver, stints: seq<Fields>, n: nat, sum: Result<string>, pit: bool, compound: string)
    requires sum == LapTime.SectorSum(Values(d.sectors)) && pit == InPit(d.sectors)
    requires compound == if |stints| > 0 then TextOf(stints[|stints| - 1], "Compound") else ""
    ensures Recorded(d, stints, n)
            == CompletedLap(n, if sum.Ok? then sum.value else "N/A", d.sectors, d.inPit || d.pitOut || pit || sum.Err?,
                            compound, d.position)
  {
    hide LapTime.SectorSum, InPit, Values;
  }

  lemma CopiedValues(es: seq<HeapSector>)
    requires Apart(es)
    ensures seq(|es|, i requires 0 <= i < |es| => es[i].value) == Values(ViewOf(es))
  {
    forall i | 0 <= i < |es|
      ensures Values(ViewOf(es))[i] == es[i].value
    {
      ElementAt(es, i);
    }
  }

  /** The sectors lie, arrays and all, inside the region. */
  ghost predicate Inside(sl: Slice<HeapSector>, region: set<object>)
    reads region
  {
    sl.Valid() && sl.Backing() <= region && Separate(sl) && SegmentArrays(sl) <= region
  }

  ghost predicate AllInside(laps: seq<HeapLap>, region: set<object>)
    reads region
  {
    forall k :: 0 <= k < |laps| ==> Inside(laps[k].sectors, region)
  }

  ghost function LapViews(laps: seq<HeapLap>, region: set<object>): (v: seq<Lap>)
    requires AllInside(laps, region)
    reads region
    ensures |v| == |laps|
  {
    seq(|laps|, k requires 0 <= k < |laps| && Inside(laps[k].sectors, region) reads region => LapView(laps[k]))
  }

  /** A larger region shows the same laps. */
  lemma Widen(laps: seq<HeapLap>, region: set<object>, wider: set<object>)
    requires AllInside(laps, region) && region <= wider
    ensures AllInside(laps, wider) && LapViews(laps, wider) == LapViews(laps, region)
  {
    hide LapView;
    forall k | 0 <= k < |laps|
      ensures Inside(laps[k].sectors, wider)
    {
    }
  }

  lemma LapViewsAppend(laps: seq<HeapLap>, lap: HeapLap, region: set<object>)
    requires AllInside(laps, region) && Inside(lap.sectors, region)
    ensures AllInside(laps + [lap], region)
    ensures LapViews(laps + [lap], region) == LapViews(laps, region) + [LapView(lap)]
  {
    hide LapView;
    var all := laps + [lap];
    assert forall k :: 0 <= k < |laps| ==> all[k] == laps[k];
    assert all[|laps|] == lap;
  }

  // ---- the two maps, each over its region of the heap ----

  ghost predicate LinesIn(lines: map<string, HeapDriver>, live: set<object>)
    reads live
  {
    forall d :: d in lines ==> Inside(lines[d].sectors, live)
  }

  /** No two lines share an array. */
  ghost predicate LinesApart(lines: map<string, HeapDriver>, live: set<object>)
    requires LinesIn(lines, live)
    reads live
  {
    forall d, e :: d in lines && e in lines && d != e ==> Footprint(lines[d].sectors) !! Footprint(lines[e].sectors)
  }

  ghost function LineViews(lines: map<string, HeapDriver>, live: set<object>): (v: map<string, Driver>)
    requires LinesIn(lines, live)
    reads live
    ensures v.Keys == lines.Keys
  {
    map d | d in lines :: DriverView(lines[d])
  }

  ghost predicate LapsIn(history: map<string, seq<HeapLap>>, past: set<object>)
    reads past
  {
    forall d :: d in history ==> AllInside(history[d], past)
  }

  ghost function HistoryViews(history: map<string, seq<HeapLap>>, past: set<object>): (v: map<string, seq<Lap>>)
    requires LapsIn(history, past)
    reads past
    ensures v.Keys == history.Keys
  {
    map d | d in history :: LapViews(history[d], past)
  }

  ghost predicate NumberedAll(history: map<string, seq<HeapLap>>) {
    forall d :: d in history ==> Numbered(history[d])
  }

  /** The sectors may become those of the driver: they lie in the region and share nothing with the other lines. */
  ghost predicate Fits(lines: map<string, HeapDriver>, live: set<object>, driver: string, sl: Slice<HeapSector>)
    requires LinesIn(lines, live)
    reads live
    ensures Fits(lines, live, driver, sl) ==> Inside(sl, live)
  {
    && Inside(sl, live)
    && forall e :: e in lines && e != driver ==> Footprint(sl) !! Footprint(lines[e].sectors)
  }

  lemma OwnFits(lines: map<string, HeapDriver>, live: set<object>, driver: string)
    requires LinesIn(lines, live) && LinesApart(lines, live) && driver in lines
    ensures Fits(lines, live, driver, lines[driver].sectors)
  {
  }

  lemma ShownUnchanged(s: seq<Sector>, u: map<string, SectorPatch>, trace: seq<(string, TracedPatch)>)
    requires DeepExecute(s, u, trace) == s
    ensures ShownBy(s, u, trace, s)
  {
    hide NewLength;
  }

  lemma NilFootprint(sl: Slice<HeapSector>)
    requires sl == Slice(null, 0)
    ensures Separate(sl) && Footprint(sl) == {}
  {
  }

  lemma FootprintReads(sl: Slice<HeapSector>)
    requires Separate(sl)
    ensures sl.Backing() <= Footprint(sl) && SegmentArrays(sl) <= Footprint(sl)
  {
  }

  /** Zeroing fields commutes with viewing, and the nil slice fits anywhere. */
  lemma DeletedFields(lines: map<string, HeapDriver>, live: set<object>, driver: string, d: HeapDriver, names: seq<string>)
    requires LinesIn(lines, live) && Fits(lines, live, driver, d.sectors)
    ensures Separate(d.sectors)
    ensures var d' := DeleteFields(d, names, Slice(null, 0));
            && Fits(lines, live, driver, d'.sectors) && Separate(d'.sectors)
            && DriverView(d') == DeleteFields(DriverView(d), names, [])
  {
    hide Footprint, Separate;
    var nil: Slice<HeapSector> := Slice(null, 0);
    NilFootprint(nil);
    InsideParts(d.sectors, live);
    InsideOwn(nil, live);
    assert nil.View() == [];
  }

  lemma AddedRegion(lines: map<string, HeapDriver>, live: set<object>, wider: set<object>, driver: string,
                    sl: Slice<HeapSector>)
    requires LinesIn(lines, live) && LinesApart(lines, live) && Separate(sl)
    requires Footprint(sl) !! live && wider == live + Footprint(sl)
    ensures LinesIn(lines, wider) && LinesApart(lines, wider) && LineViews(lines, wider) == LineViews(lines, live)
    ensures Fits(lines, wider, driver, sl)
  {
    hide DriverView, Footprint, Separate, SegmentArrays;
    forall d | d in lines
      ensures Inside(lines[d].sectors, wider) && Footprint(lines[d].sectors) <= live
    {
      WiderInside(lines[d].sectors, live, wider);
      InsideParts(lines[d].sectors, live);
    }
    InsideOwn(sl, wider);
  }

  lemma PutLine(lines: map<string, HeapDriver>, live: set<object>, driver: string, d: HeapDriver)
    requires LinesIn(lines, live) && LinesApart(lines, live) && Fits(lines, live, driver, d.sectors)
    ensures LinesIn(lines[driver := d], live) && LinesApart(lines[driver := d], live)
    ensures LineViews(lines[driver := d], live) == LineViews(lines, live)[driver := DriverView(d)]
  {
    hide DriverView, Footprint, Separate, SegmentArrays;
    var lines' := lines[driver := d];
    forall e, f | e in lines' && f in lines' && e != f
      ensures Footprint(lines'[e].sectors) !! Footprint(lines'[f].sectors)
    {
      if e != driver && f != driver {
        assert lines'[e] == lines[e] && lines'[f] == lines[f];
      }
    }
    assert LineViews(lines', live) == LineViews(lines, live)[driver := DriverView(d)];
  }

  /** The map of lines after the region of one of them has changed and grown. */
  lemma MutatedLine(lines: map<string, HeapDriver>, live: set<object>, wider: set<object>, driver: string,
                    views: map<string, Driver>, foots: map<string, set<object>>)
    requires driver in lines && Inside(lines[driver].sectors, wider) && live <= wider
    requires views.Keys == foots.Keys == lines.Keys
    requires forall e :: e in lines && e != driver ==>
                           Inside(lines[e].sectors, live) && Footprint(lines[e].sectors) == foots[e]
                           && DriverView(lines[e]) == views[e]
    requires forall e :: e in foots && e != driver ==> Footprint(lines[driver].sectors) !! foots[e]
    requires forall e, f :: e in foots && f in foots && e != f ==> foots[e] !! foots[f]
    ensures LinesIn(lines, wider) && LinesApart(lines, wider)
    ensures LineViews(lines, wider) == views[driver := DriverView(lines[driver])]
  {
    hide DriverView, Footprint, Separate, SegmentArrays;
    forall e | e in lines && e != driver
      ensures Inside(lines[e].sectors, wider)
    {
      WiderInside(lines[e].sectors, live, wider);
    }
    forall e, f | e in lines && f in lines && e != f
      ensures Footprint(lines[e].sectors) !! Footprint(lines[f].sectors)
    {
      if e != driver && f != driver {
        assert foots[e] !! foots[f];
      }
    }
    assert LineViews(lines, wider) == views[driver := DriverView(lines[driver])];
  }

  lemma InsideOwn(sl: Slice<HeapSector>, live: set<object>)
    requires Separate(sl) && Footprint(sl) <= live
    ensures Inside(sl, live)
  {
  }

  lemma InsideParts(sl: Slice<HeapSector>, live: set<object>)
    requires Inside(sl, live)
    ensures sl.Valid() && Separate(sl) && sl.Backing() <= live && SegmentArrays(sl) <= live && Footprint(sl) <= live
  {
  }

  lemma WiderInside(sl: Slice<HeapSector>, live: set<object>, wider: set<object>)
    requires Inside(sl, live) && live <= wider
    ensures Inside(sl, wider)
  {
  }

  ghost function Footprints(lines: map<string, HeapDriver>, live: set<object>): map<string, set<object>>
    requires LinesIn(lines, live)
    reads live
  {
    map d | d in lines :: Footprint(lines[d].sectors)
  }

  lemma FootprintsApart(lines: map<string, HeapDriver>, live: set<object>)
    requires LinesIn(lines, live) && LinesApart(lines, live)
    ensures Footprints(lines, live).Keys == lines.Keys
    ensures var foots := Footprints(lines, live);
            forall e, f :: e in foots && f in foots && e != f ==> foots[e] !! foots[f]
    ensures forall e :: e in lines ==> Footprints(lines, live)[e] == Footprint(lines[e].sectors)
    ensures forall e :: e in lines ==> Footprints(lines, live)[e] <= live
  {
  }

  /** A lap appended, its arrays added to the region. */
  lemma PutLaps(history: map<string, seq<HeapLap>>, past: set<object>, driver: string, lap: HeapLap)
    requires LapsIn(history, past) && Separate(lap.sectors)
    ensures var past' := past + Footprint(lap.sectors);
            var history' := history[driver := LapsOf(history, driver) + [lap]];
            LapsIn(history', past')
            && HistoryViews(history', past')
               == HistoryViews(history, past)[driver := LapsOf(HistoryViews(history, past), driver) + [LapView(lap)]]
  {
    hide LapView, LapViews, AllInside, Separate, DeepView;
    var past' := past + Footprint(lap.sectors);
    forall d | d in history
      ensures AllInside(history[d], past') && LapViews(history[d], past') == LapViews(history[d], past)
    {
      Widen(history[d], past, past');
    }
    NoLaps(past');
    LapViewsAppend(LapsOf(history, driver), lap, past');
  }

  lemma NoLaps(region: set<object>)
    ensures AllInside([], region) && LapViews([], region) == []
  {
  }

  lemma ReplaceLap(history: map<string, seq<HeapLap>>, past: set<object>, driver: string, j: nat, lap: HeapLap)
    requires LapsIn(history, past) && Separate(lap.sectors) && driver in history && j < |history[driver]|
    ensures LapsIn(history[driver := history[driver][j := lap]], past + Footprint(lap.sectors))
  {
    hide LapViews, Separate;
    var past' := past + Footprint(lap.sectors);
    forall d | d in history
      ensures AllInside(history[d], past')
    {
      Widen(history[d], past, past');
    }
  }

  lemma NumberedAppend(history: map<string, seq<HeapLap>>, driver: string, lap: HeapLap)
    requires NumberedAll(history) && lap.lap == |LapsOf(history, driver)| + 1
    ensures NumberedAll(history[driver := LapsOf(history, driver) + [lap]])
    ensures forall k :: 0 <= k < |LapsOf(history, driver)| ==> LapsOf(history, driver)[k].lap != lap.lap
  {
  }

  lemma NoLines()
    ensures LinesIn(map[], {}) && LinesApart(map[], {}) && LineViews(map[], {}) == map[]
  {
  }

  class Timing {
    /** TimingData.Lines and LapHistoryMap; the driver number of a history is its key. */
    var lines: map<string, HeapDriver>
    var history: map<string, seq<HeapLap>>
    /** The arrays the live lines may mutate, and those that hold completed laps. */
    ghost var live: set<object>
    ghost var past: set<object>

    /** What the merge mutates is not shared between drivers and never holds a completed lap. */
    ghost predicate Valid()
      reads this, past, live
    {
      && LinesIn(lines, live) && LinesApart(lines, live)
      && LapsIn(history, past)
      && live !! past && this !in past && this !in live
    }

    /** TimingData.Lines as values. */
    ghost function Lines(): (v: map<string, Driver>)
      requires Valid()
      reads this, past, live
    {
      LineViews(lines, live)
    }

    /** LapHistoryMap as values. */
    ghost function Laps(): (v: map<string, seq<Lap>>)
      requires Valid()
      reads this, past, live
    {
      HistoryViews(history, past)
    }

    constructor ()
      ensures Valid() && live == past == {} && Lines() == map[] && Laps() == map[] && NumberedAll(history)
    {
      lines, history, live, past := map[], map[], {}, {};
    }

    /** The lines a snapshot decodes to, with the lap history of the previous state or with none. */
    constructor Load(decoded: map<string, Driver>, kept: map<string, seq<HeapLap>>, ghost region: set<object>)
      requires LapsIn(kept, region)
      ensures Valid() && fresh(live) && past == region && history == kept
      ensures Lines() == decoded && Laps() == old(HistoryViews(kept, region))
    {
      lines, history, live, past := map[], kept, {}, region;
      new;
      hide HistoryViews, LapsIn, LinesIn, LinesApart, LineViews;
      NoLines();
      var todo := decoded.Keys;
      assert decoded - todo == map[];
      while todo != {}
        invariant todo <= decoded.Keys
        invariant Valid() && history == kept && past == region && fresh(live)
        invariant Lines() == decoded - todo && Laps() == old(HistoryViews(kept, region))
        decreases todo
      {
        var driver :| driver in todo;
        LoadLine(driver, decoded[driver]);
        assert (decoded - todo)[driver := decoded[driver]] == decoded - (todo - {driver});
        todo := todo - {driver};
      }
      assert decoded - {} == decoded;
    }

    /** One decoded line. */
    method LoadLine(driver: string, d: Driver)
      requires Valid()
      modifies this`lines, this`live
      ensures Valid() && history == old(history) && past == old(past)
      ensures old(live) <= live && fresh(live - old(live))
      ensures Lines() == old(Lines())[driver := d] && Laps() == old(Laps())
    {
      hide LinesIn, LinesApart, LineViews, HistoryViews, LapsIn, Fits, Inside, Footprint, Separate, DeepView, SegmentArrays;
      var sectors := DecodeSectors(d.sectors);
      ghost var added := Footprint(sectors);
      AddedRegion(lines, live, live + added, driver, sectors);
      live := live + added;
      WriteBack(driver, DriverTiming(d.racingNumber, d.position, d.inPit, d.pitOut, d.numberOfLaps, sectors));
    }

    /** The end of saveLapToHistory: the first lap of the same number is replaced; without one the lap is appended. */
    method StoreLap(driver: string, lap: HeapLap)
      requires Valid() && Separate(lap.sectors)
      requires Footprint(lap.sectors) !! live && this !in Footprint(lap.sectors)
      modifies this`history, this`past
      ensures Valid() && Lines() == old(Lines())
      ensures past == old(past + Footprint(lap.sectors))
      ensures var laps := LapsOf(old(history), driver);
              if forall k :: 0 <= k < |laps| ==> laps[k].lap != lap.lap then
                && history == old(history)[driver := laps + [lap]]
                && Laps() == old(Laps())[driver := LapsOf(old(Laps()), driver) + [old(LapView(lap))]]
              else exists j :: 0 <= j < |laps| && laps[j].lap == lap.lap && history == old(history)[driver := laps[j := lap]]
    {
      hide LapView, HistoryViews, LapsIn, LinesIn, LinesApart, LineViews, Separate, Footprint, SegmentArrays;
      var laps := if driver in history then history[driver] else [];
      var foundIndex := -1;
      for i := 0 to |laps|
        invariant foundIndex == -1
        invariant forall k :: 0 <= k < i ==> laps[k].lap != lap.lap
      {
        if laps[i].lap == lap.lap {
          foundIndex := i;
          break;
        }
      }
      ghost var region := past + Footprint(lap.sectors);
      if foundIndex != -1 {
        ReplaceLap(history, past, driver, foundIndex, lap);
        laps := laps[foundIndex := lap];
      } else {
        PutLaps(history, past, driver, lap);
        laps := laps + [lap];
      }
      history := history[driver := laps];
      past := region;
    }

    /** saveLapToHistory. */
    method SaveLap(driver: string, stints: seq<Fields>)
      requires Valid() && NumberedAll(history)
      modifies this`history, this`past
      ensures Valid() && NumberedAll(history) && Lines() == old(Lines())
      ensures old(past) <= past && fresh(past - old(past))
      ensures driver !in lines ==> history == old(history) && past == old(past)
      ensures driver in lines ==>
                var laps := LapsOf(old(Laps()), driver);
                Laps() == old(Laps())[driver := laps + [Recorded(old(Lines())[driver], stints, |laps| + 1)]]
    {
      hide LapView, LapViews, LapsIn, LinesIn, LinesApart, Recorded, DriverView, Separate, Footprint, DeepView, NumberedAll;
      if driver !in lines {
        return;
      }
      LineOf(driver);
      var laps := if driver in history then history[driver] else [];
      var n := |laps| + 1;
      ghost var region := live;
      assert forall o :: o in region ==> allocated(o);
      var lap := RecordLap(lines[driver], stints, n);
      assert Footprint(lap.sectors) !! region;
      NumberedAppend(history, driver, lap);
      StoreLap(driver, lap);
    }

    lemma LineOf(driver: string)
      requires Valid() && driver in lines
      ensures Separate(lines[driver].sectors) && Footprint(lines[driver].sectors) <= live
      ensures Lines()[driver] == DriverView(lines[driver])
      ensures |LapsOf(Laps(), driver)| == |LapsOf(history, driver)|
    {
    }

    /** The write-back of a driver's line into the map. */
    method WriteBack(driver: string, d: HeapDriver)
      requires Valid() && Fits(lines, live, driver, d.sectors)
      modifies this`lines
      ensures Valid() && Laps() == old(Laps())
      ensures Lines() == old(Lines())[driver := old(DriverView(d))]
    {
      hide DriverView, HistoryViews, LapsIn, LinesIn, LinesApart, LineViews, Footprint, Separate, Inside, Fits;
      PutLine(lines, live, driver, d);
      lines := lines[driver := d];
    }

    /** The merge into the sectors of a stored line: no other line is touched. */
    method MergeShared(driver: string, u: map<string, SectorPatch>, growth: Growth,
                       ghost views: map<string, Driver>, ghost foots: map<string, set<object>>)
      returns (r: Slice<HeapSector>, ghost trace: seq<(string, TracedPatch)>)
      requires Valid() && driver in lines
      requires views == LineViews(lines, live) && foots == Footprints(lines, live)
      modifies Footprint(lines[driver].sectors)
      ensures Separate(r) && Separate(lines[driver].sectors)
      ensures forall o :: o in Footprint(r) || o in Footprint(lines[driver].sectors)
                          ==> o in old(Footprint(lines[driver].sectors)) || fresh(o)
      ensures DeeplyLinearizes(trace, u)
      ensures DeepView(r) == DeepExecute(old(DeepView(lines[driver].sectors)), u, trace)
      ensures ShownBy(old(DeepView(lines[driver].sectors)), u, trace, DeepView(lines[driver].sectors))
      ensures forall e :: e in lines && e != driver ==>
                            Inside(lines[e].sectors, live) && Footprint(lines[e].sectors) == foots[e]
                            && DriverView(lines[e]) == views[e]
    {
      hide LapsIn, DeeplyLinearizes, DeepExecute, NewLength, Separate, SegmentArrays, DeepView, ShownBy;
      LineOf(driver);
      r, trace := MergeSectors(lines[driver].sectors, u, growth);
      forall e | e in lines && e != driver
        ensures Inside(lines[e].sectors, live)
        ensures Footprint(lines[e].sectors) == foots[e]
        ensures DriverView(lines[e]) == views[e]
      {
      }
    }

    /** The same, seen from the region that the new arrays belong to as well. */
    method MergeClaiming(driver: string, u: map<string, SectorPatch>, growth: Growth)
      returns (r: Slice<HeapSector>, ghost trace: seq<(string, TracedPatch)>, ghost shown: seq<Sector>,
               ghost wider: set<object>)
      requires Valid() && driver in lines
      modifies Footprint(lines[driver].sectors)
      ensures fresh(wider - live) && live <= wider
      ensures this !in wider
      ensures LinesIn(lines, wider) && LinesApart(lines, wider) && Fits(lines, wider, driver, r)
      ensures DeeplyLinearizes(trace, u)
      ensures DeepView(r) == DeepExecute(old(LineViews(lines, live))[driver].sectors, u, trace)
      ensures ShownBy(old(LineViews(lines, live))[driver].sectors, u, trace, shown)
      ensures LineViews(lines, wider)
              == old(LineViews(lines, live))[driver := old(LineViews(lines, live))[driver].(sectors := shown)]
    {
      hide LapsIn, DeeplyLinearizes, DeepExecute, ShownBy, LinesApart, LinesIn, LineViews, Footprints, Inside,
           Separate, DeepView, Footprint;
      LineOf(driver);
      ghost var views, foots := LineViews(lines, live), Footprints(lines, live);
      FootprintsApart(lines, live);
      assert forall o :: o in live ==> allocated(o);
      r, trace := MergeShared(driver, u, growth, views, foots);
      forall e | e in foots && e != driver
        ensures (Footprint(r) + Footprint(lines[driver].sectors)) !! foots[e]
      {
        assert foots[e] <= live && foots[driver] !! foots[e];
      }
      shown := DeepView(lines[driver].sectors);
      wider := live + Footprint(r) + Footprint(lines[driver].sectors);
      InsideOwn(r, wider);
      InsideOwn(lines[driver].sectors, wider);
      MutatedLine(lines, live, wider, driver, views, foots);
    }

    /** The merge before the write-back: the map still holds the old header, which shows what ShownBy says. */
    method MergeStored(driver: string, u: map<string, SectorPatch>, growth: Growth)
      returns (r: Slice<HeapSector>, ghost trace: seq<(string, TracedPatch)>, ghost shown: seq<Sector>)
      requires Valid() && driver in lines
      modifies this`live, live
      ensures Valid() && Laps() == old(Laps())
      ensures fresh(live - old(live)) && old(live) <= live
      ensures Fits(lines, live, driver, r)
      ensures DeeplyLinearizes(trace, u)
      ensures DeepView(r) == DeepExecute(old(Lines())[driver].sectors, u, trace)
      ensures Lines() == old(Lines())[driver := old(Lines())[driver].(sectors := shown)]
      ensures ShownBy(old(Lines())[driver].sectors, u, trace, shown)
    {
      hide LapsIn, DeeplyLinearizes, DeepExecute, ShownBy, LinesIn, LinesApart, LineViews, HistoryViews, Separate,
           DeepView, Fits, Inside, Footprint;
      LineOf(driver);
      ghost var wider;
      r, trace, shown, wider := MergeClaiming(driver, u, growth);
      InsideParts(r, wider);
      live := wider;
    }

    /** The sectors of a stored line; the lap is saved from the old header in between. */
    method MergeAndSave(driver: string, p: DriverPatch, stints: seq<Fields>, growth: Growth)
      returns (r: Slice<HeapSector>, ghost trace: seq<(string, TracedPatch)>, ghost shown: seq<Sector>)
      requires Valid() && NumberedAll(history) && driver in lines
      modifies this`live, this`history, this`past, live
      ensures Valid() && NumberedAll(history)
      ensures old(live) <= live && fresh(live - old(live)) && old(past) <= past && fresh(past - old(past))
      ensures Fits(lines, live, driver, r)
      ensures DeeplyLinearizes(trace, p.sectors)
      ensures DeepView(r) == DeepExecute(old(Lines())[driver].sectors, p.sectors, trace)
      ensures Lines() == old(Lines())[driver := old(Lines())[driver].(sectors := shown)]
      ensures ShownBy(old(Lines())[driver].sectors, p.sectors, trace, shown)
      ensures var base, laps := old(Lines())[driver], LapsOf(old(Laps()), driver);
              Laps() == if CompletesLap(p)
                        then old(Laps())[driver := laps + [Recorded(base.(sectors := shown), stints, |laps| + 1)]]
                        else old(Laps())
    {
      hide DeeplyLinearizes, DeepExecute, ShownBy, LinesIn, LinesApart, LineViews, HistoryViews, LapsIn, Separate,
           DeepView, Fits, Inside, Footprint, NumberedAll, Recorded;
      LineOf(driver);
      r, trace, shown := MergeStored(driver, p.sectors, growth);
      InsideParts(r, live);
      if CompletesLap(p) {
        SaveLap(driver, stints);
      }
    }

    /** The scalars and the sectors of a stored line. */
    method UpdateStored(driver: string, p: DriverPatch, stints: seq<Fields>, growth: Growth)
      returns (d: HeapDriver, ghost trace: seq<(string, TracedPatch)>, ghost shown: seq<Sector>)
      requires Valid() && NumberedAll(history) && driver in lines
      modifies this`live, this`history, this`past, live
      ensures Valid() && NumberedAll(history)
      ensures old(live) <= live && fresh(live - old(live)) && old(past) <= past && fresh(past - old(past))
      ensures Fits(lines, live, driver, d.sectors)
      ensures DeeplyLinearizes(trace, p.sectors)
      ensures var base := old(Lines())[driver];
              DriverView(d) == PatchScalars(base, p).(sectors := DeepExecute(base.sectors, p.sectors, trace))
      ensures Lines() == old(Lines())[driver := old(Lines())[driver].(sectors := shown)]
      ensures ShownBy(old(Lines())[driver].sectors, p.sectors, trace, shown)
      ensures var base, laps := old(Lines())[driver], LapsOf(old(Laps()), driver);
              Laps() == if CompletesLap(p)
                        then old(Laps())[driver := laps + [Recorded(base.(sectors := shown), stints, |laps| + 1)]]
                        else old(Laps())
    {
      hide DeeplyLinearizes, DeepExecute, ShownBy, LinesIn, LinesApart, LineViews, HistoryViews, LapsIn, Separate,
           DeepView, Fits, Inside, Footprint, NumberedAll, Recorded;
      LineOf(driver);
      d := PatchScalars(lines[driver], p);
      if |p.sectors| > 0 {
        var sectors;
        sectors, trace, shown := MergeAndSave(driver, p, stints, growth);
        d := d.(sectors := sectors);
      } else {
        trace, shown := [], Lines()[driver].sectors;
        OwnFits(lines, live, driver);
        NoSectorsNamed(shown, p.sectors);
        ShownUnchanged(shown, p.sectors, trace);
      }
    }

    /** The sectors of a line that is not stored yet. */
    method AddLine(driver: string, p: DriverPatch, growth: Growth)
      returns (d: HeapDriver, ghost trace: seq<(string, TracedPatch)>)
      requires Valid() && driver !in lines
      modifies this`live
      ensures Valid() && Lines() == old(Lines()) && Laps() == old(Laps())
      ensures old(live) <= live && fresh(live - old(live))
      ensures Fits(lines, live, driver, d.sectors)
      ensures DeeplyLinearizes(trace, p.sectors)
      ensures DriverView(d) == PatchScalars(NewDriver(driver), p).(sectors := DeepExecute([], p.sectors, trace))
    {
      hide DeeplyLinearizes, DeepExecute, LinesIn, LinesApart, LineViews, HistoryViews, LapsIn, Fits, Inside,
           Footprint, Separate, DeepView, SegmentArrays;
      var sectors;
      sectors, trace := NewSectors(p.sectors, growth);
      d := PatchScalars(DriverTiming(driver, "", false, false, 0, sectors), p);
      ghost var added := Footprint(sectors);
      AddedRegion(lines, live, live + added, driver, sectors);
      live := live + added;
    }

    /** The iteration of updateTimingData for one driver. */
    method UpdateLine(driver: string, p: DriverPatch, stints: seq<Fields>, growth: Growth)
      requires Valid() && NumberedAll(history)
      modifies this, live
      ensures Valid() && NumberedAll(history)
      ensures old(live) <= live && fresh(live - old(live)) && old(past) <= past && fresh(past - old(past))
      ensures DriverStep(old(Lines()), old(Laps()), driver, p, stints, Lines(), Laps())
    {
      hide DeeplyLinearizes, DeepExecute, ShownBy, LinesIn, LinesApart, LineViews, HistoryViews, LapsIn, Fits, Inside,
           Footprint, Separate, DeepView, SegmentArrays, NumberedAll, Recorded, LineTimed, LapAdded, DriverStep,
           CompletesLap;
      var d;
      ghost var trace, shown;
      if driver in lines {
        d, trace, shown := UpdateStored(driver, p, stints, growth);
        if CompletesLap(p) {
          AddedBy(old(Lines())[driver], p, stints, LapsOf(old(Laps()), driver), trace, shown);
        }
      } else {
        d, trace := AddLine(driver, p, growth);
      }
      DeletedFields(lines, live, driver, d, p.deleted);
      WriteBack(driver, DeleteFields(d, p.deleted, Slice(null, 0)));
      TimedSo(LineOrNew(old(Lines()), driver), driver in old(lines), p, trace, stints, LapsOf(old(Laps()), driver),
              LapsOf(Laps(), driver));
      ghost var after := Patched(LineOrNew(old(Lines()), driver), p, trace);
      assert Lines() == old(Lines())[driver := after];
      DriverStepOf(old(Lines()), old(Laps()), driver, p, stints, after, Lines(), Laps());
    }

    /** updateTimingData: every driver's line, the range visiting them in whatever order it likes. */
    method UpdateTimingData(updates: map<string, DriverPatch>, stints: map<string, seq<Fields>>, growth: Growth)
      requires Valid() && NumberedAll(history)
      modifies this, live
      ensures Valid() && NumberedAll(history)
      ensures old(live) <= live && fresh(live - old(live)) && old(past) <= past && fresh(past - old(past))
      ensures TimingStep(old(Lines()), old(Laps()), updates, stints, Lines(), Laps())
    {
      hide LinesIn, LinesApart, LineViews, HistoryViews, LapsIn, NumberedAll, TimingStep, DriverStep;
      var todo := updates.Keys;
      TimingStepNone(Lines(), Laps(), stints);
      assert updates - todo == map[];
      while todo != {}
        invariant todo <= updates.Keys
        invariant Valid() && NumberedAll(history)
        invariant old(live) <= live && fresh(live - old(live)) && old(past) <= past && fresh(past - old(past))
        invariant TimingStep(old(Lines()), old(Laps()), updates - todo, stints, Lines(), Laps())
        decreases todo
      {
        var driver :| driver in todo;
        ghost var mid, midLaps := Lines(), Laps();
        UpdateLine(driver, updates[driver], if driver in stints then stints[driver] else [], growth);
        TimingStepExtends(old(Lines()), old(Laps()), updates, todo, stints, mid, midLaps, driver, Lines(), Laps());
        todo := todo - {driver};
      }
      assert updates - {} == updates;
    }
  }

  /** The sectors of a new line: a nil slice, grown when the patch names any. */
  method NewSectors(u: map<string, SectorPatch>, growth: Growth)
    returns (r: Slice<HeapSector>, ghost trace: seq<(string, TracedPatch)>)
    ensures Separate(r) && fresh(Footprint(r))
    ensures r.Backing() <= Footprint(r) && SegmentArrays(r) <= Footprint(r)
    ensures DeeplyLinearizes(trace, u) && DeepView(r) == DeepExecute([], u, trace)
  {
    hide DeeplyLinearizes, DeepExecute, ShownBy, NewLength;
    r := Slice(null, 0);
    NilFootprint(r);
    assert DeepView(r) == [];
    if |u| > 0 {
      r, trace := MergeSectors(r, u, growth);
    } else {
      trace := [];
      NoSectorsNamed([], u);
    }
    FootprintReads(r);
  }
}
