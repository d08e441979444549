/** The timing records whose slices alias: Go slices as array references with a length,
    sectors with their nested mini-sector segments, and the in-place merge of both. */
module Sectors {
  import opened Wrappers
  import opened SliceMerge

  /** A Go slice header. The capacity is the length of the backing array; nil has no array. */
  datatype Slice<T> = Slice(arr: array?<T>, len: nat) {
    ghost predicate Valid() {
      if arr == null then len == 0 else len <= arr.Length
    }

    ghost function Backing(): set<object> {
      if arr == null then {} else {arr}
    }

    /** The elements the header shows in the current heap. */
    function View(): seq<T>
      reads Backing()
      requires Valid()
    {
      if arr == null then [] else arr[..len]
    }
  }

  datatype SegmentStatus = SegmentStatus(status: int)

  datatype SegmentPatch = SegmentPatch(status: Option<int>)

  /** SectorTiming, over the representation S of its Segments: a slice header or a value. */
  datatype SectorTiming<S> = SectorTiming(
    stopped: bool, value: string, status: int, overallFastest: bool, personalFastest: bool,
    segments: S, previousValue: string)

  /** A decoded sector patch: the fields the JSON object carried. Segments is its object form. */
  datatype SectorPatch = SectorPatch(
    stopped: Option<bool>, value: Option<string>, status: Option<int>, overallFastest: Option<bool>,
    personalFastest: Option<bool>, segments: map<string, SegmentPatch>, previousValue: Option<string>)

  type Segments = seq<SegmentStatus>
  type Sector = SectorTiming<Segments>
  type HeapSector = SectorTiming<Slice<SegmentStatus>>

  const NO_SEGMENTS: Slice<SegmentStatus> := Slice(null, 0)
  const ZERO_SECTOR: Sector := SectorTiming(false, "", 0, false, false, [], "")
  const ZERO_HEAP_SECTOR: HeapSector := SectorTiming(false, "", 0, false, false, NO_SEGMENTS, "")

  function Or<T>(o: Option<T>, t: T): T {
    if o.Some? then o.value else t
  }

  function PatchSegment(s: SegmentStatus, p: SegmentPatch): SegmentStatus {
    SegmentStatus(Or(p.status, s.status))
  }

  const SEGMENT: Element<SegmentStatus, SegmentPatch> := Element(SegmentStatus(0), PatchSegment)

  /** json.Unmarshal of a sector patch: every field but the segments. */
  function PatchFields<S>(s: SectorTiming<S>, p: SectorPatch): SectorTiming<S> {
    SectorTiming(Or(p.stopped, s.stopped), Or(p.value, s.value), Or(p.status, s.status),
                 Or(p.overallFastest, s.overallFastest), Or(p.personalFastest, s.personalFastest),
                 s.segments, Or(p.previousValue, s.previousValue))
  }

  /** A sector patch with distinct segment indices, laid over a sector. */
  ghost function PatchSector(s: Sector, p: SectorPatch): Sector {
    PatchFields(s, p).(segments := Merged(SEGMENT, s.segments, p.segments))
  }

  ghost const SECTOR: Element<Sector, SectorPatch> := Element(ZERO_SECTOR, (s, p) => PatchSector(s, p))

  /** No two keys of the update, nor of the segments of one sector, name one index. */
  ghost predicate DeeplyDistinct(u: map<string, SectorPatch>) {
    DistinctIndices(u) && forall k :: k in u ==> DistinctIndices(u[k].segments)
  }

  // ---- an execution with its nested ranges ----

  /** A sector patch together with the order in which the nested range visited its segments. */
  type TracedPatch = (SectorPatch, seq<(string, SegmentPatch)>)

  ghost function PatchTraced(s: Sector, p: TracedPatch): Sector {
    PatchFields(s, p.0).(segments := Execute(SEGMENT, s.segments, p.0.segments, p.1))
  }

  ghost const TRACED: Element<Sector, TracedPatch> := Element(ZERO_SECTOR, (s, p) => PatchTraced(s, p))

  ghost function Untraced(trace: seq<(string, TracedPatch)>): seq<(string, SectorPatch)> {
    seq(|trace|, i requires 0 <= i < |trace| => (trace[i].0, trace[i].1.0))
  }

  ghost predicate DeeplyLinearizes(trace: seq<(string, TracedPatch)>, u: map<string, SectorPatch>) {
    && Linearizes(Untraced(trace), u)
    && forall i :: 0 <= i < |trace| ==> Linearizes(trace[i].1.1, trace[i].1.0.segments)
  }

  ghost function DeepExecute(s: seq<Sector>, u: map<string, SectorPatch>, trace: seq<(string, TracedPatch)>): seq<Sector> {
    RunTrace(TRACED, Extend(s, ZERO_SECTOR, NewLength(|s|, u)), trace)
  }

  lemma {:induction false} TracesAgree(s: seq<Sector>, u: map<string, SectorPatch>, trace: seq<(string, TracedPatch)>)
    requires forall i :: 0 <= i < |trace| ==>
                           Linearizes(trace[i].1.1, trace[i].1.0.segments) && DistinctIndices(trace[i].1.0.segments)
    ensures RunTrace(TRACED, s, trace) == RunTrace(SECTOR, s, Untraced(trace))
  {
    hide Linearizes, DistinctIndices, Merged, Execute, IndexOf;
    if trace != [] {
      var n := |trace| - 1;
      TracesAgree(s, u, trace[..n]);
      assert Untraced(trace)[..n] == Untraced(trace[..n]);
      var p := trace[n].1;
      forall t: Sector
        ensures PatchTraced(t, p) == PatchSector(t, p.0)
      {
        OrderIsIrrelevant(SEGMENT, t.segments, p.0.segments, p.1);
      }
    }
  }

  /** Whatever order the two nested ranges choose, the sectors come out the same. */
  lemma NestedOrderIsIrrelevant(s: seq<Sector>, u: map<string, SectorPatch>, trace: seq<(string, TracedPatch)>)
    requires DeeplyLinearizes(trace, u) && DeeplyDistinct(u)
    ensures DeepExecute(s, u, trace) == Merged(SECTOR, s, u)
  {
    hide Linearizes, DistinctIndices, Merged, RunTrace, NewLength;
    forall i | 0 <= i < |trace|
      ensures DistinctIndices(trace[i].1.0.segments)
    {
      EntryInMap(Untraced(trace), u, i);
    }
    TracesAgree(Extend(s, ZERO_SECTOR, NewLength(|s|, u)), u, trace);
    OrderIsIrrelevant(SECTOR, s, u, Untraced(trace));
  }

  lemma EntryInMap<P>(trace: seq<(string, P)>, u: map<string, P>, i: nat)
    requires Linearizes(trace, u) && i < |trace|
    ensures trace[i].0 in u && u[trace[i].0] == trace[i].1
  {
  }

  function Fieldwise(s: Sector): Sector {
    s.(segments := [])
  }

  /** Segments that the sector at index i began with at some point of the execution. */
  ghost predicate StoppedAt(base: seq<Sector>, trace: seq<(string, TracedPatch)>, i: nat, shown: Segments)
    requires i < |base|
  {
    exists k :: 0 <= k <= |trace| && shown <= RunTrace(TRACED, base, trace[..k])[i].segments
  }

  /** What an element of the old array shows once the elements were moved: its old fields, and as many segments as it
      had, in the state they reached before its segments were moved as well. */
  ghost predicate LeftBehind(before: Sector, shown: Sector, base: seq<Sector>, trace: seq<(string, TracedPatch)>, i: nat)
    requires i < |base|
  {
    && Fieldwise(shown) == Fieldwise(before) && |shown.segments| == |before.segments|
    && StoppedAt(base, trace, i, shown.segments)
  }

  /** The sectors that the stored header shows while the lap is saved: the merged ones, as many as were stored, while
      the array could take them; else the ones left behind. */
  ghost predicate ShownBy(before: seq<Sector>, u: map<string, SectorPatch>, trace: seq<(string, TracedPatch)>,
                          shown: seq<Sector>)
  {
    var base := Extend(before, ZERO_SECTOR, NewLength(|before|, u));
    && |shown| == |before|
    && (NewLength(|before|, u) == |before| ==> shown == DeepExecute(before, u, trace))
    && (shown == DeepExecute(before, u, trace)[..|before|]
        || forall i :: 0 <= i < |before| ==> LeftBehind(before[i], shown[i], base, trace, i))
  }

  /** With distinct keys a sector that was left behind shows either its old segments or the first of the merged ones. */
  lemma LeftBehindShows(before: seq<Sector>, u: map<string, SectorPatch>, trace: seq<(string, TracedPatch)>,
                        shown: Sector, i: nat)
    requires DeeplyLinearizes(trace, u) && DistinctIndices(u) && i < |before|
    requires LeftBehind(before[i], shown, Extend(before, ZERO_SECTOR, NewLength(|before|, u)), trace, i)
    ensures shown == before[i]
            || (Fieldwise(shown) == Fieldwise(before[i]) && |shown.segments| == |before[i].segments|
                && shown.segments <= DeepExecute(before, u, trace)[i].segments)
  {
    hide NewLength, IndexOf, RunTrace, PatchTraced;
    var base := Extend(before, ZERO_SECTOR, NewLength(|before|, u));
    var k :| 0 <= k <= |trace| && shown.segments <= RunTrace(TRACED, base, trace[..k])[i].segments;
    if j :| 0 <= j < k && Names(trace[j].0, i) {
      OnlyOneNames(trace, u, i, j);
      TraceAt(TRACED, base, trace, i, j);
      TraceAt(TRACED, base, trace[..k], i, j);
    } else {
      TraceAt(TRACED, base, trace[..k], i, -1);
      assert shown.segments == before[i].segments;
    }
  }

  lemma OnlyOneNames(trace: seq<(string, TracedPatch)>, u: map<string, SectorPatch>, i: nat, j: nat)
    requires DeeplyLinearizes(trace, u) && DistinctIndices(u) && j < |trace| && Names(trace[j].0, i)
    ensures forall m :: 0 <= m < |trace| && m != j ==> !Names(trace[m].0, i)
  {
    hide IndexOf;
    EntryInMap(Untraced(trace), u, j);
    forall m | 0 <= m < |trace| && m != j
      ensures !Names(trace[m].0, i)
    {
      EntryInMap(Untraced(trace), u, m);
      assert Untraced(trace)[m].0 != Untraced(trace)[j].0;
    }
  }
}
