/** The in-place merge of applyMapUpdatesToSlice on heap slices of segments and sectors. */
module SectorHeap {
  import opened SliceMerge
  import opened MergeOrder
  import opened Sectors

  /** The runtime's choice of a new capacity, given the old one and the length needed. */
  type Growth = (nat, nat) -> nat

  /** append of zero values up to length n: in place while the capacity lasts, else into a fresh copy. */
  method AppendZeros<T>(sl: Slice<T>, zero: T, n: nat, growth: Growth) returns (r: Slice<T>)
    requires sl.Valid() && n > sl.len
    modifies sl.Backing()
    ensures r.Valid() && r.len == n && r.arr != null
    ensures r.View() == Extend(old(sl.View()), zero, n)
    ensures r.arr == sl.arr <==> sl.arr != null && n <= sl.arr.Length
    ensures r.arr != sl.arr ==> fresh(r.arr) && (sl.arr != null ==> sl.arr[..] == old(sl.arr[..]))
  {
    if sl.arr != null && n <= sl.arr.Length {
      for i := sl.len to n
        invariant sl.arr[..sl.len] == old(sl.arr[..sl.len])
        invariant forall k :: sl.len <= k < i ==> sl.arr[k] == zero
      {
        sl.arr[i] := zero;
      }
      r := Slice(sl.arr, n);
    } else {
      var old' := if sl.arr == null then [] else sl.arr[..sl.len];
      var wish := growth(if sl.arr == null then 0 else sl.arr.Length, n);
      var cap := if wish < n then n else wish;
      var arr := new T[cap](k => if 0 <= k < |old'| then old'[k] else zero);
      r := Slice(arr, n);
    }
  }

  /** The second loop on segments, the range visiting the keys in whatever order it likes. */
  method LaySegments(r: Slice<SegmentStatus>, u: map<string, SegmentPatch>)
    returns (ghost trace: seq<(string, SegmentPatch)>)
    requires r.Valid() && r.arr != null
    modifies r.arr
    ensures Linearizes(trace, u) && r.View() == RunTrace(SEGMENT, old(r.View()), trace)
  {
    hide IndexOf, Linearizes, RunTrace;
    ghost var base := r.View();
    trace := [];
    EmptyTrace(u);
    RunNone(SEGMENT, base);
    var todo := u.Keys;
    while todo != {}
      invariant todo <= u.Keys
      invariant Linearizes(trace, u - todo)
      invariant r.View() == RunTrace(SEGMENT, base, trace)
      decreases todo
    {
      var key :| key in todo;
      var index := IndexOf(key);
      RunLast(SEGMENT, base, trace, (key, u[key]));
      if index.Some? && index.value < r.len {
        r.arr[index.value] := PatchSegment(r.arr[index.value], u[key]);
      }
      TraceGrows(u, todo, trace, key);
      trace := trace + [(key, u[key])];
      todo := todo - {key};
    }
    assert u - {} == u;
  }

  /** applyMapUpdatesToSlice on a slice of segments. */
  method MergeSegments(sl: Slice<SegmentStatus>, u: map<string, SegmentPatch>, growth: Growth)
    returns (r: Slice<SegmentStatus>, ghost trace: seq<(string, SegmentPatch)>)
    requires sl.Valid()
    modifies sl.Backing()
    ensures r.Valid() && r.arr != null
    ensures Linearizes(trace, u) && r.View() == Execute(SEGMENT, old(sl.View()), u, trace)
    ensures r.len == NewLength(sl.len, u)
    ensures r.arr == sl.arr <==> sl.arr != null && NewLength(sl.len, u) <= sl.arr.Length
    ensures r.arr != sl.arr ==> fresh(r.arr) && (sl.arr != null ==> sl.arr[..] == old(sl.arr[..]))
  {
    hide Linearizes, RunTrace, NewLength;
    r := sl;
    if r.arr == null {
      var arr := new SegmentStatus[|u|](_ => SEGMENT.zero);
      r := Slice(arr, 0);
    }
    var n := RequiredLength(r.len, u);
    if r.len < n {
      r := AppendZeros(r, SEGMENT.zero, n, growth);
    }
    assert r.View() == Extend(old(sl.View()), SEGMENT.zero, NewLength(sl.len, u));
    trace := LaySegments(r, u);
  }

  lemma EmptyTrace<P>(u: map<string, P>)
    ensures Linearizes([], u - u.Keys)
  {
  }

  /** The first loop and the size test: the length after growth. */
  method RequiredLength<P>(len: nat, u: map<string, P>) returns (n: nat)
    ensures n == NewLength(len, u)
  {
    var maxIndex := LargestIndex(u);
    n := Grown(len, maxIndex);
  }

  // ---- sectors with their segments ----

  /** The arrays behind the segments of the given elements. */
  ghost function SegmentArraysOf(es: seq<HeapSector>): set<object> {
    set i | 0 <= i < |es| && es[i].segments.arr != null :: es[i].segments.arr as object
  }

  /** The nested headers fit their arrays, and no two of them share one. */
  ghost predicate Apart(es: seq<HeapSector>) {
    && (forall i :: 0 <= i < |es| ==> es[i].segments.Valid())
    && (forall i, j :: 0 <= i < j < |es| && es[i].segments.arr != null ==> es[i].segments.arr != es[j].segments.arr)
  }

  ghost function SectorView(s: HeapSector): Sector
    reads s.segments.Backing()
    requires s.segments.Valid()
  {
    SectorTiming(s.stopped, s.value, s.status, s.overallFastest, s.personalFastest, s.segments.View(), s.previousValue)
  }

  ghost function ViewOf(es: seq<HeapSector>): (v: seq<Sector>)
    requires Apart(es)
    reads SegmentArraysOf(es)
    ensures |v| == |es|
  {
    seq(|es|, i requires 0 <= i < |es| && Apart(es) reads SegmentArraysOf(es) => SectorView(es[i]))
  }

  ghost function SegmentArrays(sl: Slice<HeapSector>): set<object>
    reads sl.Backing()
    requires sl.Valid()
  {
    SegmentArraysOf(sl.View())
  }

  ghost function Footprint(sl: Slice<HeapSector>): set<object>
    reads sl.Backing()
    requires sl.Valid()
  {
    sl.Backing() + SegmentArrays(sl)
  }

  ghost predicate Separate(sl: Slice<HeapSector>)
    reads sl.Backing()
    ensures Separate(sl) ==> sl.Valid()
  {
    sl.Valid() && Apart(sl.View()) && sl.Backing() !! SegmentArrays(sl)
  }

  /** The sectors a header shows, segments included, in the current heap. */
  ghost function DeepView(sl: Slice<HeapSector>): (v: seq<Sector>)
    requires Separate(sl)
    reads sl.Backing(), if sl.Valid() then SegmentArrays(sl) else {}
    ensures |v| == sl.len
  {
    ViewOf(sl.View())
  }

  lemma EmptyExecution(s: Segments)
    ensures Execute(SEGMENT, s, map[], []) == s
  {
    var u: map<string, SegmentPatch> := map[];
    assert Indices(u) == {};
    assert Grown(|s|, -1) == |s|;
  }

  /** One iteration of the second loop: the fields, then the nested segments. */
  method PatchElement(element: HeapSector, p: SectorPatch, growth: Growth)
    returns (r: HeapSector, ghost order: seq<(string, SegmentPatch)>)
    requires element.segments.Valid()
    modifies element.segments.Backing()
    ensures r.segments.Valid() && Linearizes(order, p.segments)
    ensures SectorView(r) == PatchTraced(old(SectorView(element)), (p, order))
    ensures if r.segments.arr == element.segments.arr then element.segments.len <= r.segments.len
            else fresh(r.segments.Backing())
    ensures r.segments.arr != element.segments.arr && element.segments.arr != null ==>
              forall n :: 0 <= n <= element.segments.arr.Length ==>
                            element.segments.arr[..n] == old(element.segments.arr[..n])
  {
    hide Linearizes, Execute, NewLength;
    r := PatchFields(element, p);
    if |p.segments| > 0 {
      var segments;
      segments, order := MergeSegments(r.segments, p.segments, growth);
      r := r.(segments := segments);
    } else {
      order := [];
      assert p.segments == map[];
      EmptyExecution(element.segments.View());
      EmptyTrace(p.segments);
      assert p.segments - p.segments.Keys == p.segments;
    }
  }

  lemma ReplaceElement(es: seq<HeapSector>, index: nat, e: HeapSector)
    requires Apart(es) && index < |es| && e.segments.Valid()
    requires e.segments.arr == es[index].segments.arr || e.segments.arr == null
             || e.segments.arr !in SegmentArraysOf(es)
    ensures Apart(es[index := e])
    ensures SegmentArraysOf(es[index := e]) <= SegmentArraysOf(es) + e.segments.Backing()
  {
  }

  method LaySector(sl: Slice<HeapSector>, index: nat, p: SectorPatch, growth: Growth)
    returns (ghost order: seq<(string, SegmentPatch)>)
    requires Separate(sl) && index < sl.len
    modifies Footprint(sl)
    ensures Separate(sl)
    ensures Linearizes(order, p.segments)
    ensures DeepView(sl) == old(DeepView(sl))[index := PatchTraced(old(DeepView(sl))[index], (p, order))]
    ensures forall o :: o in SegmentArrays(sl) ==> o in old(SegmentArrays(sl)) || fresh(o)
    ensures forall j :: 0 <= j < sl.len && j != index ==> sl.View()[j] == old(sl.View())[j]
    ensures var e, e' := old(sl.View())[index].segments, sl.View()[index].segments;
            if e'.arr == e.arr then e.len <= e'.len
            else e.arr != null ==>
              && e.arr !in SegmentArrays(sl)
              && forall n :: 0 <= n <= e.arr.Length ==> e.arr[..n] == old(e.arr[..n])
  {
    hide Linearizes, PatchTraced;
    ghost var es, before := sl.View(), DeepView(sl);
    var element;
    element, order := PatchElement(sl.arr[index], p, growth);
    assert sl.View() == es;
    ReplaceElement(es, index, element);
    ReplacedView(before, es, index, element);
    sl.arr[index] := element;
    assert sl.View() == es[index := element];
  }

  lemma ReplacedView(before: seq<Sector>, es: seq<HeapSector>, index: nat, e: HeapSector)
    requires index < |es| == |before| && e.segments.Valid() && Apart(es) && Apart(es[index := e])
    requires forall i :: 0 <= i < |es| && i != index ==> SectorView(es[i]) == before[i]
    ensures ViewOf(es[index := e]) == before[index := SectorView(e)]
  {
    hide SectorView;
  }

  ghost function Traced(trace: seq<(string, TracedPatch)>, key: string, p: SectorPatch,
                        order: seq<(string, SegmentPatch)>): seq<(string, TracedPatch)> {
    trace + [(key, (p, order))]
  }

  /** An element as it was before the loop, and the one now at its place: they share their segments, or those of the
      old one were left behind at some point. */
  ghost predicate TrailsAt(e: HeapSector, r: Slice<HeapSector>, i: nat, base: seq<Sector>,
                           trace: seq<(string, TracedPatch)>)
    requires e.segments.Valid() && r.Valid() && i < r.len && i < |base|
    reads r.Backing(), e.segments.Backing()
  {
    var now := r.View()[i].segments;
    || (e.segments.arr == now.arr && e.segments.len <= now.len)
    || ((e.segments.arr != null ==> e.segments.arr !in SegmentArrays(r)) && StoppedAt(base, trace, i, e.segments.View()))
  }

  ghost predicate Trails(es: seq<HeapSector>, r: Slice<HeapSector>, base: seq<Sector>, trace: seq<(string, TracedPatch)>)
    requires Apart(es) && r.Valid()
    reads r.Backing(), SegmentArraysOf(es)
  {
    |es| == r.len == |base| && forall i :: 0 <= i < |es| ==> TrailsAt(es[i], r, i, base, trace)
  }

  /** Every element shows its segments as they were at some point of the execution. */
  ghost predicate AllStopped(es: seq<HeapSector>, base: seq<Sector>, trace: seq<(string, TracedPatch)>)
    requires Apart(es)
    reads SegmentArraysOf(es)
  {
    |es| <= |base| && forall i :: 0 <= i < |es| ==> StoppedAt(base, trace, i, es[i].segments.View())
  }

  /** One iteration of the second loop. */
  method LayEntry(r: Slice<HeapSector>, key: string, p: SectorPatch, growth: Growth, ghost es: seq<HeapSector>,
                  ghost base: seq<Sector>, ghost trace: seq<(string, TracedPatch)>)
    returns (ghost order: seq<(string, SegmentPatch)>)
    requires Separate(r) && Apart(es) && r.arr !in SegmentArraysOf(es) && Trails(es, r, base, trace)
    requires DeepView(r) == RunTrace(TRACED, base, trace)
    modifies Footprint(r)
    ensures Separate(r) && Linearizes(order, p.segments)
    ensures DeepView(r) == RunTrace(TRACED, base, Traced(trace, key, p, order))
    ensures forall o :: o in SegmentArrays(r) ==> o in old(SegmentArrays(r)) || fresh(o)
    ensures Trails(es, r, base, Traced(trace, key, p, order))
  {
    hide IndexOf, Linearizes, RunTrace, PatchTraced, Separate, DeepView, SegmentArrays, StoppedAt, Apart;
    var index := IndexOf(key);
    ghost var before, shown, arrays, touched := r.View(), ShownSegments(es), SegmentArraysOf(es), SegmentArrays(r);
    assert forall o :: o in arrays ==> allocated(o);
    forall i | 0 <= i < |es| && es[i].segments.arr == before[i].segments.arr && es[i].segments.len <= before[i].segments.len
      ensures shown[i] <= RunTrace(TRACED, base, trace)[i].segments
    {
      SharedPrefix(es[i], r, i);
    }
    if index.Some? && index.value < r.len {
      order := LaySector(r, index.value, p, growth);
    } else {
      order := SomeLinearization(p.segments);
    }
    RunLast(TRACED, base, trace, (key, (p, order)));
    forall i | 0 <= i < |es|
      ensures TrailsAt(es[i], r, i, base, Traced(trace, key, p, order))
    {
      StoppedLater(base, trace, (key, (p, order)), i, shown[i]);
      var e := es[i].segments;
      if e.arr != null {
        assert e.arr in arrays;
        if e.arr !in touched {
          assert e.View() == shown[i];
        } else if r.View()[i].segments.arr != e.arr {
          assert i == index.value && e.arr == before[i].segments.arr;
        }
      }
    }
  }

  ghost function ShownSegments(es: seq<HeapSector>): (v: seq<Segments>)
    requires Apart(es)
    reads SegmentArraysOf(es)
    ensures |v| == |es| && forall i :: 0 <= i < |es| ==> es[i].segments.Valid() && v[i] == es[i].segments.View()
  {
    seq(|es|, i requires 0 <= i < |es| && Apart(es) reads SegmentArraysOf(es) => es[i].segments.View())
  }

  lemma SharedPrefix(e: HeapSector, r: Slice<HeapSector>, i: nat)
    requires Separate(r) && e.segments.Valid() && i < r.len
    requires e.segments.arr == r.View()[i].segments.arr && e.segments.len <= r.View()[i].segments.len
    ensures e.segments.View() <= DeepView(r)[i].segments
  {
    assert DeepView(r)[i] == SectorView(r.View()[i]);
  }

  /** The second loop on sectors. The elements it started from show their segments as they were at some point. */
  method LaySectors(r: Slice<HeapSector>, u: map<string, SectorPatch>, growth: Growth)
    returns (ghost trace: seq<(string, TracedPatch)>)
    requires Separate(r) && r.arr != null
    modifies Footprint(r)
    ensures Separate(r)
    ensures DeeplyLinearizes(trace, u) && DeepView(r) == RunTrace(TRACED, old(DeepView(r)), trace)
    ensures forall o :: o in SegmentArrays(r) ==> o in old(SegmentArrays(r)) || fresh(o)
    ensures Apart(old(r.View())) && AllStopped(old(r.View()), old(DeepView(r)), trace)
  {
    ghost var base, es := DeepView(r), r.View();
    TrailsAtFirst(r);
    hide DeeplyLinearizes, RunTrace, Separate, DeepView, SegmentArrays, SegmentArraysOf, Apart, Trails, AllStopped, Traced;
    trace := [];
    EmptyDeepTrace(u);
    RunNone(TRACED, base);
    var todo := u.Keys;
    while todo != {}
      invariant todo <= u.Keys
      invariant Separate(r)
      invariant forall o :: o in SegmentArrays(r) ==> o in old(SegmentArrays(r)) || fresh(o)
      invariant DeeplyLinearizes(trace, u - todo)
      invariant DeepView(r) == RunTrace(TRACED, base, trace)
      invariant Trails(es, r, base, trace)
      decreases todo
    {
      var key :| key in todo;
      ghost var order := LayEntry(r, key, u[key], growth, es, base, trace);
      DeepTraceGrows(u, todo, trace, key, order);
      trace := Traced(trace, key, u[key], order);
      todo := todo - {key};
    }
    assert u - {} == u;
    TrailsAtLast(es, r, base, trace);
  }

  lemma EmptyDeepTrace(u: map<string, SectorPatch>)
    ensures DeeplyLinearizes([], u - u.Keys)
  {
    assert Untraced([]) == [];
    EmptyTrace(u);
  }

  lemma DeepTraceGrows(u: map<string, SectorPatch>, todo: set<string>, trace: seq<(string, TracedPatch)>, key: string,
                       order: seq<(string, SegmentPatch)>)
    requires todo <= u.Keys && key in todo && DeeplyLinearizes(trace, u - todo) && Linearizes(order, u[key].segments)
    ensures DeeplyLinearizes(Traced(trace, key, u[key], order), u - (todo - {key}))
  {
    hide Linearizes;
    TraceGrows(u, todo, Untraced(trace), key);
    assert Untraced(Traced(trace, key, u[key], order)) == Untraced(trace) + [(key, u[key])];
  }

  lemma TrailsAtFirst(r: Slice<HeapSector>)
    requires Separate(r)
    ensures Apart(r.View()) && Trails(r.View(), r, DeepView(r), []) && r.arr !in SegmentArraysOf(r.View())
  {
  }

  /** The segments an element shows, its place having been patched up to now, are stopped from then on. */
  lemma StoppedLater(base: seq<Sector>, trace: seq<(string, TracedPatch)>, x: (string, TracedPatch), i: nat,
                     shown: Segments)
    requires i < |base|
    ensures StoppedAt(base, trace, i, shown) ==> StoppedAt(base, trace + [x], i, shown)
    ensures shown <= RunTrace(TRACED, base, trace)[i].segments ==> StoppedAt(base, trace + [x], i, shown)
  {
    hide RunTrace;
    var longer := trace + [x];
    if StoppedAt(base, trace, i, shown) {
      var k :| 0 <= k <= |trace| && shown <= RunTrace(TRACED, base, trace[..k])[i].segments;
      assert longer[..k] == trace[..k];
    }
    assert longer[..|trace|] == trace;
  }

  lemma TrailsAtLast(es: seq<HeapSector>, r: Slice<HeapSector>, base: seq<Sector>, trace: seq<(string, TracedPatch)>)
    requires Separate(r) && Apart(es) && Trails(es, r, base, trace) && DeepView(r) == RunTrace(TRACED, base, trace)
    ensures AllStopped(es, base, trace)
  {
    hide RunTrace;
    assert trace[..|trace|] == trace;
    forall i | 0 <= i < |es|
      ensures StoppedAt(base, trace, i, es[i].segments.View())
    {
      assert TrailsAt(es[i], r, i, base, trace);
      var e, now := es[i].segments, r.View()[i].segments;
      if e.arr == now.arr && e.len <= now.len {
        SharedPrefix(es[i], r, i);
      }
    }
  }

  lemma ExtendedElements(es: seq<HeapSector>, n: nat)
    requires Apart(es) && n >= |es|
    ensures Apart(Extend(es, ZERO_HEAP_SECTOR, n))
    ensures SegmentArraysOf(Extend(es, ZERO_HEAP_SECTOR, n)) == SegmentArraysOf(es)
    ensures ViewOf(Extend(es, ZERO_HEAP_SECTOR, n)) == Extend(ViewOf(es), ZERO_SECTOR, n)
  {
    assert forall i :: 0 <= i < |es| ==> Extend(es, ZERO_HEAP_SECTOR, n)[i] == es[i];
  }

  /** The size adjustment for sectors: a nil slice becomes an empty one, a short one grows by zero sectors. */
  method GrowSectors(sl: Slice<HeapSector>, n: nat, hint: nat, growth: Growth) returns (r: Slice<HeapSector>)
    requires Separate(sl) && n >= sl.len
    modifies sl.Backing()
    ensures r.Valid() && r.arr != null && r.len == n
    ensures r.View() == Extend(old(sl.View()), ZERO_HEAP_SECTOR, n)
    ensures sl.View() == old(sl.View())
    ensures sl.arr != null ==> (r.arr == sl.arr <==> n <= sl.arr.Length)
    ensures r.arr != sl.arr ==> fresh(r.arr)
    ensures r.arr != sl.arr && sl.arr != null ==> sl.arr[..] == old(sl.arr[..])
  {
    hide Separate;
    r := sl;
    if r.arr == null {
      var arr := new HeapSector[hint](_ => ZERO_HEAP_SECTOR);
      r := Slice(arr, 0);
    }
    if r.len < n {
      r := AppendZeros(r, ZERO_HEAP_SECTOR, n, growth);
    }
    assert r.View() == Extend(old(sl.View()), ZERO_HEAP_SECTOR, n);
  }

  /** The two loops: growth and the patches. */
  method GrowAndLay(sl: Slice<HeapSector>, u: map<string, SectorPatch>, growth: Growth)
    returns (r: Slice<HeapSector>, ghost trace: seq<(string, TracedPatch)>)
    requires Separate(sl)
    modifies Footprint(sl)
    ensures Separate(r) && r.arr != null && r.len == NewLength(sl.len, u)
    ensures DeeplyLinearizes(trace, u) && DeepView(r) == DeepExecute(old(DeepView(sl)), u, trace)
    ensures forall o :: o in Footprint(r) ==> o in old(Footprint(sl)) || fresh(o)
    ensures sl.arr != null ==> (r.arr == sl.arr <==> r.len <= sl.arr.Length)
    ensures r.arr != sl.arr ==> sl.View() == old(sl.View())
    ensures Apart(old(sl.View())) && AllStopped(old(sl.View()), Extend(old(DeepView(sl)), ZERO_SECTOR, r.len), trace)
  {
    ghost var before, es := DeepView(sl), sl.View();
    hide DeeplyLinearizes, RunTrace, NewLength, DeepExecute, DeepView, SegmentArrays, SegmentArraysOf, AllStopped, Apart,
         Extend;
    BaseOf(before, u);
    r := GrowApart(sl, u, growth);
    ghost var base := DeepView(r);
    assert r.arr != sl.arr && sl.arr != null ==> sl.arr !in Footprint(r);
    trace := LaySectors(r, u, growth);
    assert forall o :: o in r.Backing() ==> o in sl.Backing() || fresh(o);
    FirstStopped(es, r.len, base, trace);
  }

  lemma FirstStopped(es: seq<HeapSector>, n: nat, base: seq<Sector>, trace: seq<(string, TracedPatch)>)
    requires Apart(es) && n >= |es| && Apart(Extend(es, ZERO_HEAP_SECTOR, n))
    requires AllStopped(Extend(es, ZERO_HEAP_SECTOR, n), base, trace)
    ensures AllStopped(es, base, trace)
  {
    hide StoppedAt;
    var all := Extend(es, ZERO_HEAP_SECTOR, n);
    forall i | 0 <= i < |es|
      ensures StoppedAt(base, trace, i, es[i].segments.View())
    {
      assert all[i] == es[i];
      assert StoppedAt(base, trace, i, all[i].segments.View());
    }
  }

  /** The first loop and the size adjustment; the old header is still readable. */
  method GrowApart(sl: Slice<HeapSector>, u: map<string, SectorPatch>, growth: Growth) returns (r: Slice<HeapSector>)
    requires Separate(sl)
    modifies sl.Backing()
    ensures Separate(r) && r.arr != null && r.len == NewLength(sl.len, u)
    ensures DeepView(r) == Extend(old(DeepView(sl)), ZERO_SECTOR, r.len)
    ensures SegmentArrays(r) == old(SegmentArrays(sl)) && r.arr !in SegmentArrays(r)
    ensures r.View() == Extend(old(sl.View()), ZERO_HEAP_SECTOR, r.len) && sl.View() == old(sl.View())
    ensures sl.arr != null ==> (r.arr == sl.arr <==> r.len <= sl.arr.Length)
    ensures r.arr != sl.arr ==> fresh(r.arr)
  {
    ghost var es, arrays := sl.View(), SegmentArrays(sl);
    assert forall o :: o in arrays ==> allocated(o);
    hide NewLength, ViewOf, Apart, SegmentArraysOf;
    var n := RequiredLength(sl.len, u);
    r := GrowSectors(sl, n, |u|, growth);
    ExtendedElements(es, n);
    assert r.arr !in arrays;
    assert ViewOf(es) == old(DeepView(sl));
  }

  /** applyMapUpdatesToSlice on a slice of sectors. The caller's old header sl stays readable: it shows the
      merged sectors while the array is shared, and the old ones, over shared segments, once it was moved. */
  method MergeSectors(sl: Slice<HeapSector>, u: map<string, SectorPatch>, growth: Growth)
    returns (r: Slice<HeapSector>, ghost trace: seq<(string, TracedPatch)>)
    requires Separate(sl)
    modifies Footprint(sl)
    ensures Separate(r) && r.arr != null && Separate(sl)
    ensures DeeplyLinearizes(trace, u) && DeepView(r) == DeepExecute(old(DeepView(sl)), u, trace)
    ensures r.len == NewLength(sl.len, u)
    ensures forall o :: o in Footprint(r) || o in Footprint(sl) ==> o in old(Footprint(sl)) || fresh(o)
    ensures sl.arr != null ==> (r.arr == sl.arr <==> r.len <= sl.arr.Length)
    ensures ShownBy(old(DeepView(sl)), u, trace, DeepView(sl))
  {
    ghost var before, es := DeepView(sl), sl.View();
    FieldsShown(es);
    hide Fieldwise, DeeplyLinearizes, RunTrace, NewLength, ViewOf, Apart, SegmentArraysOf, FieldsOf, ShownBy, DeepExecute,
         AllStopped;
    r, trace := GrowAndLay(sl, u, growth);
    if r.arr == sl.arr {
      PrefixOf(sl, r);
      ShownInPlace(before, u, trace);
    } else {
      FieldsKept(es, before);
      ShownElsewhere(before, u, trace, es);
    }
  }

  lemma BaseOf(s: seq<Sector>, u: map<string, SectorPatch>)
    ensures forall trace :: DeepExecute(s, u, trace) == RunTrace(TRACED, Extend(s, ZERO_SECTOR, NewLength(|s|, u)), trace)
  {
  }

  lemma ShownInPlace(before: seq<Sector>, u: map<string, SectorPatch>, trace: seq<(string, TracedPatch)>)
    ensures |before| <= |DeepExecute(before, u, trace)|
    ensures ShownBy(before, u, trace, DeepExecute(before, u, trace)[..|before|])
  {
    hide NewLength, RunTrace;
  }

  lemma ShownElsewhere(before: seq<Sector>, u: map<string, SectorPatch>, trace: seq<(string, TracedPatch)>,
                       es: seq<HeapSector>)
    requires Apart(es) && |es| == |before|
    requires NewLength(|before|, u) == |before| ==> before == []
    requires forall i :: 0 <= i < |es| ==> Fieldwise(ViewOf(es)[i]) == Fieldwise(before[i])
                                           && |ViewOf(es)[i].segments| == |before[i].segments|
    requires AllStopped(es, Extend(before, ZERO_SECTOR, NewLength(|before|, u)), trace)
    ensures ShownBy(before, u, trace, ViewOf(es))
  {
    hide NewLength, Fieldwise, RunTrace, StoppedAt;
    var base := Extend(before, ZERO_SECTOR, NewLength(|before|, u));
    forall i | 0 <= i < |before|
      ensures LeftBehind(before[i], ViewOf(es)[i], base, trace, i)
    {
      assert ViewOf(es)[i].segments == es[i].segments.View();
    }
  }

  /** Whatever happens to the segments, the fields of given elements stay. */
  lemma FieldsKept(es: seq<HeapSector>, before: seq<Sector>)
    requires Apart(es) && |before| == |es|
    requires forall i :: 0 <= i < |es| ==>
                           Fieldwise(before[i]) == FieldsOf(es[i]) && |before[i].segments| == es[i].segments.len
    ensures forall i :: 0 <= i < |es| ==> Fieldwise(ViewOf(es)[i]) == Fieldwise(before[i])
                                          && |ViewOf(es)[i].segments| == |before[i].segments|
  {
  }

  lemma FieldsShown(es: seq<HeapSector>)
    requires Apart(es)
    ensures forall i :: 0 <= i < |es| ==>
                          Fieldwise(ViewOf(es)[i]) == FieldsOf(es[i]) && |ViewOf(es)[i].segments| == es[i].segments.len
  {
  }

  ghost function FieldsOf(e: HeapSector): Sector {
    SectorTiming(e.stopped, e.value, e.status, e.overallFastest, e.personalFastest, [], e.previousValue)
  }

  /** A shorter header over the same array shows a prefix. */
  lemma PrefixOf(sl: Slice<HeapSector>, r: Slice<HeapSector>)
    requires sl.Valid() && Separate(r) && sl.arr == r.arr && sl.len <= r.len
    ensures Separate(sl) && SegmentArrays(sl) <= SegmentArrays(r)
    ensures DeepView(sl) == DeepView(r)[..sl.len]
  {
    assert sl.View() == r.View()[..sl.len];
  }
}
