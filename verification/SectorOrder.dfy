/** When the order of Go's ranges can be seen in merged sectors: keys may collide among the sectors of an update and
    among the segments of one sector. */
module SectorOrder {
  import opened Wrappers
  import opened Decimal
  import opened SliceMerge
  import opened MergeOrder
  import opened MergeLaws
  import opened Sectors

  /** Not set by both to different values. */
  predicate Compatible<T(==)>(a: Option<T>, b: Option<T>) {
    a.None? || b.None? || a == b
  }

  predicate FieldsAgree(p: SectorPatch, q: SectorPatch) {
    && Compatible(p.stopped, q.stopped) && Compatible(p.value, q.value) && Compatible(p.status, q.status)
    && Compatible(p.overallFastest, q.overallFastest) && Compatible(p.personalFastest, q.personalFastest)
    && Compatible(p.previousValue, q.previousValue)
  }

  ghost predicate SegmentsAgree(a: map<string, SegmentPatch>, b: map<string, SegmentPatch>) {
    forall k, l :: k in a && l in b && IndexOf(k).Some? && IndexOf(k) == IndexOf(l) ==> Compatible(a[k].status, b[l].status)
  }

  /** Entries that name one sector agree on every field and on every segment; for an entry and itself this says that
      its own segment keys agree where they collide. */
  ghost predicate CollisionsAgree(u: map<string, SectorPatch>) {
    forall k, l :: k in u && l in u && IndexOf(k).Some? && IndexOf(k) == IndexOf(l)
                   ==> FieldsAgree(u[k], u[l]) && SegmentsAgree(u[k].segments, u[l].segments)
  }

  /** No order of the outer range nor of any nested one can be told from another, for any sectors. */
  ghost predicate DeepOrderIndependent(u: map<string, SectorPatch>) {
    forall s, a, b :: DeeplyLinearizes(a, u) && DeeplyLinearizes(b, u) ==> DeepExecute(s, u, a) == DeepExecute(s, u, b)
  }

  ghost predicate SetsTo(p: SectorPatch, j: nat, v: int) {
    exists l :: l in p.segments && Names(l, j) && p.segments[l].status == Some(v)
  }

  /** The patch makes the segments longer than j. */
  ghost predicate Reaches(p: SectorPatch, j: nat) {
    !Overflows(p.segments) && MaxOf(Indices(p.segments)) >= j
  }

  /** Some entry for the same sector that makes the segments long enough sets segment j. */
  ghost predicate IsCovered(u: map<string, SectorPatch>, k: string, j: nat) {
    exists m, v :: m in u && IndexOf(m) == IndexOf(k) && !Overflows(u[m].segments) && SetsTo(u[m], j, v)
  }

  /** An entry with the segment key that wraps does not make the segments longer, so what it sets beyond their end is lost
      unless another entry came before. This cannot be seen when it sets zero or when an entry that makes room sets the
      same segment. */
  ghost predicate WrapsAreCovered(u: map<string, SectorPatch>) {
    forall k, l, j, v :: k in u && l in u && IndexOf(k).Some? && IndexOf(k) == IndexOf(l)
                         && Overflows(u[k].segments) && SetsTo(u[k], j, v) && v != 0 && Reaches(u[l], j)
                         ==> IsCovered(u, k, j)
  }

  // ---- the segments of one sector ----

  predicate Sets(x: (string, SegmentPatch), i: nat) {
    Names(x.0, i) && x.1.status.Some?
  }

  /** The status that the last entry setting index i sets. */
  function LastSet(trace: seq<(string, SegmentPatch)>, i: nat): Option<int> {
    if trace == [] then None
    else
      var n := |trace| - 1;
      if Sets(trace[n], i) then trace[n].1.status else LastSet(trace[..n], i)
  }

  lemma {:induction false} StatusAt(s: Segments, trace: seq<(string, SegmentPatch)>, i: nat)
    requires i < |s|
    ensures RunTrace(SEGMENT, s, trace)[i].status == Or(LastSet(trace, i), s[i].status)
  {
    hide IndexOf;
    if trace != [] {
      StatusAt(s, trace[..|trace| - 1], i);
    }
  }

  lemma {:induction false} LastSetIsSet(trace: seq<(string, SegmentPatch)>, i: nat)
    ensures LastSet(trace, i).Some? ==>
              exists j :: 0 <= j < |trace| && Sets(trace[j], i) && trace[j].1.status == LastSet(trace, i)
    ensures LastSet(trace, i).None? ==> forall j :: 0 <= j < |trace| ==> !Sets(trace[j], i)
  {
    hide IndexOf;
    if trace != [] {
      var n := |trace| - 1;
      LastSetIsSet(trace[..n], i);
      if !Sets(trace[n], i) && LastSet(trace, i).Some? {
        var j :| 0 <= j < n && Sets(trace[..n][j], i) && trace[..n][j].1.status == LastSet(trace, i);
        assert trace[j] == trace[..n][j];
      }
      forall j | LastSet(trace, i).None? && 0 <= j < |trace|
        ensures !Sets(trace[j], i)
      {
        if j < n { assert trace[..n][j] == trace[j]; }
      }
    }
  }

  /** What an order leaves at an index is set by some key of the map, and nothing only if no key sets it. */
  lemma LastSetOfMap(m: map<string, SegmentPatch>, trace: seq<(string, SegmentPatch)>, i: nat)
    requires Linearizes(trace, m)
    ensures LastSet(trace, i).Some? ==> exists k :: k in m && Names(k, i) && m[k].status == LastSet(trace, i)
    ensures LastSet(trace, i).None? ==> forall k :: k in m && Names(k, i) ==> m[k].status.None?
  {
    hide IndexOf;
    LastSetIsSet(trace, i);
    if LastSet(trace, i).Some? {
      var j :| 0 <= j < |trace| && Sets(trace[j], i) && trace[j].1.status == LastSet(trace, i);
      EntryInMap(trace, m, j);
      assert trace[j].0 in m && Names(trace[j].0, i) && m[trace[j].0].status == LastSet(trace, i);
    } else {
      forall k | k in m && Names(k, i)
        ensures m[k].status.None?
      {
        var j :| 0 <= j < |trace| && trace[j].0 == k;
        assert !Sets(trace[j], i);
        EntryInMap(trace, m, j);
      }
    }
  }

  lemma ExecutedAt(s: Segments, m: map<string, SegmentPatch>, trace: seq<(string, SegmentPatch)>, i: nat)
    requires i < NewLength(|s|, m)
    ensures |Execute(SEGMENT, s, m, trace)| == NewLength(|s|, m)
    ensures Execute(SEGMENT, s, m, trace)[i].status == Or(LastSet(trace, i), if i < |s| then s[i].status else 0)
  {
    hide NewLength, RunTrace, LastSet;
    StatusAt(Extend(s, SEGMENT.zero, NewLength(|s|, m)), trace, i);
  }

  lemma SameSegments(a: Segments, b: Segments)
    requires |a| == |b| && forall i :: 0 <= i < |a| ==> a[i].status == b[i].status
    ensures a == b
  {
    forall i | 0 <= i < |a|
      ensures a[i] == b[i]
    {
      assert a[i].status == b[i].status;
    }
  }

  // ---- the segments of one sector over a whole trace ----

  /** What the entries naming sector i do to its segments. */
  ghost function SegmentsAfter(s: Segments, trace: seq<(string, TracedPatch)>, i: nat): Segments {
    if trace == [] then s
    else
      var n := |trace| - 1;
      var before := SegmentsAfter(s, trace[..n], i);
      if Names(trace[n].0, i) then Execute(SEGMENT, before, trace[n].1.0.segments, trace[n].1.1) else before
  }

  lemma {:induction false} SegmentsOfRun(s: seq<Sector>, trace: seq<(string, TracedPatch)>, i: nat)
    requires i < |s|
    ensures RunTrace(TRACED, s, trace)[i].segments == SegmentsAfter(s[i].segments, trace, i)
  {
    hide IndexOf, Execute;
    if trace != [] {
      SegmentsOfRun(s, trace[..|trace| - 1], i);
    }
  }

  lemma SegmentsAfterOne(s: Segments, front: seq<(string, TracedPatch)>, x: (string, TracedPatch), i: nat)
    ensures SegmentsAfter(s, front + [x], i)
            == if Names(x.0, i) then Execute(SEGMENT, SegmentsAfter(s, front, i), x.1.0.segments, x.1.1)
               else SegmentsAfter(s, front, i)
  {
    assert (front + [x])[..|front|] == front;
  }

  lemma {:induction false} SegmentsAfterBoth(s: Segments, a: seq<(string, TracedPatch)>, b: seq<(string, TracedPatch)>, i: nat)
    ensures SegmentsAfter(s, a + b, i) == SegmentsAfter(SegmentsAfter(s, a, i), b, i)
  {
    hide Execute, IndexOf;
    if b == [] {
      assert a + b == a;
    } else {
      var n := |b| - 1;
      SegmentsAfterBoth(s, a, b[..n], i);
      assert (a + b)[..|a| + n] == a + b[..n];
    }
  }

  ghost predicate SomeReaches(trace: seq<(string, TracedPatch)>, i: nat, j: nat) {
    exists m :: 0 <= m < |trace| && Names(trace[m].0, i) && Reaches(trace[m].1.0, j)
  }

  lemma LengthReaches(len: nat, p: SectorPatch, j: nat)
    ensures j < NewLength(len, p.segments) <==> j < len || Reaches(p, j)
  {
    hide Indices;
    LengthAfter(len, p.segments);
  }

  lemma SomeReachesOne(front: seq<(string, TracedPatch)>, x: (string, TracedPatch), i: nat, j: nat)
    ensures SomeReaches(front + [x], i, j) <==> SomeReaches(front, i, j) || (Names(x.0, i) && Reaches(x.1.0, j))
  {
    hide IndexOf, Reaches;
    var all := front + [x];
    assert all[|front|] == x;
    if SomeReaches(front, i, j) {
      var m :| 0 <= m < |front| && Names(front[m].0, i) && Reaches(front[m].1.0, j);
      assert all[m] == front[m];
    }
  }

  /** The length does not depend on the order. */
  lemma {:induction false} LengthOfTrace(s: Segments, trace: seq<(string, TracedPatch)>, i: nat, j: nat)
    ensures j < |SegmentsAfter(s, trace, i)| <==> j < |s| || SomeReaches(trace, i, j)
  {
    hide IndexOf, NewLength, Reaches, RunTrace, SomeReaches;
    if trace == [] {
      NoneReaches(i, j);
    } else {
      var front, x := trace[..|trace| - 1], trace[|trace| - 1];
      assert trace == front + [x];
      LengthOfTrace(s, front, i, j);
      SegmentsAfterOne(s, front, x, i);
      SomeReachesOne(front, x, i, j);
      LengthReaches(|SegmentsAfter(s, front, i)|, x.1.0, j);
    }
  }

  lemma NoneReaches(i: nat, j: nat)
    ensures !SomeReaches([], i, j)
  {
  }

  /** The entries of a trace come with orders of their segments. */
  ghost predicate Ordered(trace: seq<(string, TracedPatch)>) {
    forall m :: 0 <= m < |trace| ==> Linearizes(trace[m].1.1, trace[m].1.0.segments)
  }

  ghost predicate SomeSets(trace: seq<(string, TracedPatch)>, i: nat, j: nat, v: int) {
    exists m :: 0 <= m < |trace| && Names(trace[m].0, i) && SetsTo(trace[m].1.0, j, v)
  }

  /** No entry sets segment j but such as cannot make room for it. */
  ghost predicate OnlyWrapsSet(trace: seq<(string, TracedPatch)>, i: nat, j: nat) {
    forall m, v :: 0 <= m < |trace| && Names(trace[m].0, i) && SetsTo(trace[m].1.0, j, v) ==> Overflows(trace[m].1.0.segments)
  }

  lemma SetsOne(front: seq<(string, TracedPatch)>, x: (string, TracedPatch), i: nat, j: nat, v: int)
    ensures SomeSets(front + [x], i, j, v) <==> SomeSets(front, i, j, v) || (Names(x.0, i) && SetsTo(x.1.0, j, v))
  {
    hide IndexOf, SetsTo;
    var all := front + [x];
    assert all[|front|] == x;
    if SomeSets(front, i, j, v) {
      var m :| 0 <= m < |front| && Names(front[m].0, i) && SetsTo(front[m].1.0, j, v);
      assert all[m] == front[m];
    }
  }

  lemma OnlyWrapsOne(front: seq<(string, TracedPatch)>, x: (string, TracedPatch), i: nat, j: nat)
    requires OnlyWrapsSet(front, i, j)
    requires forall v :: Names(x.0, i) && SetsTo(x.1.0, j, v) ==> Overflows(x.1.0.segments)
    ensures OnlyWrapsSet(front + [x], i, j)
  {
    hide IndexOf, SetsTo, Overflows;
    var all := front + [x];
    assert forall m :: 0 <= m < |front| ==> all[m] == front[m];
  }

  function OldStatus(s: Segments, j: nat): int {
    if j < |s| then s[j].status else 0
  }

  /** A status of the result was set by some entry; or it is the old one, and then no entry sets it that has room. */
  ghost predicate StatusExplained(s: Segments, trace: seq<(string, TracedPatch)>, i: nat, j: nat, status: int) {
    || SomeSets(trace, i, j, status)
    || (status == OldStatus(s, j) && (if j < |s| then forall v :: !SomeSets(trace, i, j, v) else OnlyWrapsSet(trace, i, j)))
  }

  lemma {:induction false} StatusOfTrace(s: Segments, trace: seq<(string, TracedPatch)>, i: nat, j: nat)
    requires Ordered(trace) && j < |SegmentsAfter(s, trace, i)|
    ensures StatusExplained(s, trace, i, j, SegmentsAfter(s, trace, i)[j].status)
  {
    hide IndexOf, NewLength, RunTrace, SomeSets, SetsTo, OnlyWrapsSet, Linearizes, LastSet, Reaches, Overflows, SomeReaches;
    if trace == [] {
      NothingSet(i, j);
    } else {
      var front, x := trace[..|trace| - 1], trace[|trace| - 1];
      assert trace == front + [x];
      SegmentsAfterOne(s, front, x, i);
      forall v
        ensures SomeSets(trace, i, j, v) <==> SomeSets(front, i, j, v) || (Names(x.0, i) && SetsTo(x.1.0, j, v))
      {
        SetsOne(front, x, i, j, v);
      }
      if j < |SegmentsAfter(s, front, i)| {
        StatusOfTrace(s, front, i, j);
      }
      if Names(x.0, i) {
        LastEntryStatus(s, front, x, i, j);
      } else if OnlyWrapsSet(front, i, j) {
        OnlyWrapsOne(front, x, i, j);
      }
    }
  }

  lemma NothingSet(i: nat, j: nat)
    ensures (forall v :: !SomeSets([], i, j, v)) && OnlyWrapsSet([], i, j)
  {
  }

  /** The status after one more entry for the sector: set by it, or what it was, or a new zero. */
  lemma LastEntryStatus(s: Segments, front: seq<(string, TracedPatch)>, x: (string, TracedPatch), i: nat, j: nat)
    requires Names(x.0, i) && Linearizes(x.1.1, x.1.0.segments) && Ordered(front)
    requires j < |SegmentsAfter(s, front + [x], i)|
    requires j < |SegmentsAfter(s, front, i)| ==> StatusExplained(s, front, i, j, SegmentsAfter(s, front, i)[j].status)
    ensures StatusExplained(s, front + [x], i, j, SegmentsAfter(s, front + [x], i)[j].status)
  {
    hide IndexOf, NewLength, RunTrace, SetsTo, Linearizes, LastSet, Reaches, Overflows, SomeSets, OnlyWrapsSet, SomeReaches;
    SegmentsAfterOne(s, front, x, i);
    var before := SegmentsAfter(s, front, i);
    ExecutedLength(before, x.1.0.segments, x.1.1);
    ExecutedAt(before, x.1.0.segments, x.1.1, j);
    forall v
      ensures SomeSets(front + [x], i, j, v) <==> SomeSets(front, i, j, v) || SetsTo(x.1.0, j, v)
    {
      SetsOne(front, x, i, j, v);
    }
    LastSetOrNone(x.1, j);
    if LastSet(x.1.1, j).None? {
      if j >= |before| {
        LengthOfTrace(s, front, i, j);
        UnreachedIsWrapped(front, i, j);
      }
      if OnlyWrapsSet(front, i, j) { OnlyWrapsOne(front, x, i, j); }
    }
  }

  lemma ExecutedLength(s: Segments, m: map<string, SegmentPatch>, trace: seq<(string, SegmentPatch)>)
    ensures |Execute(SEGMENT, s, m, trace)| == NewLength(|s|, m)
  {
    hide NewLength, RunTrace;
  }

  lemma LastSetOrNone(p: TracedPatch, j: nat)
    requires Linearizes(p.1, p.0.segments)
    ensures LastSet(p.1, j).Some? ==> SetsTo(p.0, j, LastSet(p.1, j).value)
    ensures LastSet(p.1, j).None? ==> forall v :: !SetsTo(p.0, j, v)
  {
    hide IndexOf, Linearizes, LastSet;
    LastSetOfMap(p.0.segments, p.1, j);
  }

  /** Who sets a segment that the trace has not reached cannot make room. */
  lemma UnreachedIsWrapped(trace: seq<(string, TracedPatch)>, i: nat, j: nat)
    requires !SomeReaches(trace, i, j)
    ensures OnlyWrapsSet(trace, i, j)
  {
    hide IndexOf, Overflows;
    forall m, v | 0 <= m < |trace| && Names(trace[m].0, i) && SetsTo(trace[m].1.0, j, v)
      ensures Overflows(trace[m].1.0.segments)
    {
      assert !Reaches(trace[m].1.0, j);
      if !Overflows(trace[m].1.0.segments) {
        SettersReach(trace[m].1.0, j, v);
      }
    }
  }

  lemma SettersReach(p: SectorPatch, j: nat, v: int)
    requires SetsTo(p, j, v) && !Overflows(p.segments)
    ensures Reaches(p, j)
  {
    hide IndexOf, Overflows, MaxOf;
    InIndices(p.segments, j);
  }

  // ---- orders of the outer range as orders of a map of traced patches ----

  /** The same entries, each with an order for its segments. */
  ghost predicate Tracing(v: map<string, TracedPatch>, u: map<string, SectorPatch>) {
    && v.Keys == u.Keys
    && forall k :: k in u ==> v[k].0 == u[k] && Linearizes(v[k].1, u[k].segments)
  }

  lemma TracingExecutes(s: seq<Sector>, u: map<string, SectorPatch>, v: map<string, TracedPatch>,
                        trace: seq<(string, TracedPatch)>)
    requires Tracing(v, u) && Linearizes(trace, v)
    ensures DeeplyLinearizes(trace, u) && DeepExecute(s, u, trace) == Execute(TRACED, s, v, trace)
  {
    hide RunTrace, MaxOf;
    SameIndices(u, v);
    UntracedLinearizes(u, v, trace);
    forall i | 0 <= i < |trace|
      ensures Linearizes(trace[i].1.1, trace[i].1.0.segments)
    {
      EntryInMap(trace, v, i);
    }
  }

  lemma SameIndices(u: map<string, SectorPatch>, v: map<string, TracedPatch>)
    requires v.Keys == u.Keys
    ensures Indices(v) == Indices(u)
  {
    hide IndexOf;
  }

  lemma UntracedLinearizes(u: map<string, SectorPatch>, v: map<string, TracedPatch>, trace: seq<(string, TracedPatch)>)
    requires v.Keys == u.Keys && (forall k :: k in u ==> v[k].0 == u[k]) && Linearizes(trace, v)
    ensures Linearizes(Untraced(trace), u)
  {
    var plain := Untraced(trace);
    assert forall j :: 0 <= j < |trace| ==> plain[j].0 == trace[j].0 && plain[j].1 == trace[j].1.0;
    forall k | k in u
      ensures exists j :: 0 <= j < |plain| && plain[j].0 == k
    {
      var j :| 0 <= j < |trace| && trace[j].0 == k;
      assert plain[j].0 == k;
    }
  }

  lemma {:induction false} SomeTracing(u: map<string, SectorPatch>) returns (v: map<string, TracedPatch>)
    ensures Tracing(v, u)
    decreases |u|
  {
    hide Linearizes;
    if u == map[] {
      v := map[];
    } else {
      var k :| k in u;
      var rest := u - {k};
      assert rest.Keys == u.Keys - {k};
      v := SomeTracing(rest);
      var nested := SomeLinearization(u[k].segments);
      v := v[k := (u[k], nested)];
    }
  }

  lemma IndependentTracing(u: map<string, SectorPatch>, v: map<string, TracedPatch>)
    requires DeepOrderIndependent(u) && Tracing(v, u)
    ensures OrderIndependent(TRACED, v)
  {
    hide Linearizes, Execute, DeepExecute, Tracing, DeeplyLinearizes;
    forall s, a, b | Linearizes(a, v) && Linearizes(b, v)
      ensures Execute(TRACED, s, v, a) == Execute(TRACED, s, v, b)
    {
      TracingExecutes(s, u, v, a);
      TracingExecutes(s, u, v, b);
    }
  }

  // ---- agreement cannot be seen ----

  /** The fields of the sectors, without their segments. */
  ghost const FIELDS: Element<Sector, SectorPatch> := Element(ZERO_SECTOR, (s, p) => Fieldwise(PatchFields(s, p)))

  function Erased(s: seq<Sector>): (r: seq<Sector>)
    ensures |r| == |s|
  {
    seq(|s|, i requires 0 <= i < |s| => Fieldwise(s[i]))
  }

  lemma {:induction false} FieldsOfRun(s: seq<Sector>, trace: seq<(string, TracedPatch)>)
    ensures Erased(RunTrace(TRACED, s, trace)) == RunTrace(FIELDS, Erased(s), Untraced(trace))
  {
    hide IndexOf, Execute;
    if trace != [] {
      var n := |trace| - 1;
      FieldsOfRun(s, trace[..n]);
      assert Untraced(trace)[..n] == Untraced(trace[..n]);
    }
  }

  lemma FieldsAreIndependent(u: map<string, SectorPatch>)
    requires CollisionsAgree(u)
    ensures OrderIndependent(FIELDS, u)
  {
    hide IndexOf, SegmentsAgree, FieldsAgree, OrderIndependent, CommuteAt;
    forall k, l, t | k in u && l in u && k != l && IndexOf(k).Some? && IndexOf(k) == IndexOf(l)
      ensures CommuteAt(FIELDS, t, u[k], u[l])
    {
      AgreeingFieldsCommute(t, u[k], u[l]);
    }
    CommutingCollisionsSuffice(FIELDS, u);
  }

  lemma AgreeingFieldsCommute(t: Sector, p: SectorPatch, q: SectorPatch)
    requires FieldsAgree(p, q)
    ensures CommuteAt(FIELDS, t, p, q)
  {
  }

  lemma SameFields(s: seq<Sector>, u: map<string, SectorPatch>, a: seq<(string, TracedPatch)>, b: seq<(string, TracedPatch)>)
    requires CollisionsAgree(u) && DeeplyLinearizes(a, u) && DeeplyLinearizes(b, u)
    ensures Erased(DeepExecute(s, u, a)) == Erased(DeepExecute(s, u, b))
  {
    hide CollisionsAgree, Linearizes, RunTrace, NewLength;
    FieldsAreIndependent(u);
    var base := Extend(s, ZERO_SECTOR, NewLength(|s|, u));
    FieldsOfRun(base, a);
    FieldsOfRun(base, b);
    assert Erased(base) == Extend(Erased(s), ZERO_SECTOR, NewLength(|s|, u));
    assert Execute(FIELDS, Erased(s), u, Untraced(a)) == Execute(FIELDS, Erased(s), u, Untraced(b));
  }

  /** The entries of a trace are the entries of the update. */
  lemma EntryOfTrace(trace: seq<(string, TracedPatch)>, u: map<string, SectorPatch>)
    requires DeeplyLinearizes(trace, u)
    ensures Ordered(trace)
    ensures forall m :: 0 <= m < |trace| ==> trace[m].0 in u && trace[m].1.0 == u[trace[m].0]
    ensures forall k :: k in u ==> exists m :: 0 <= m < |trace| && trace[m].0 == k
  {
    var plain := Untraced(trace);
    forall m | 0 <= m < |trace|
      ensures trace[m].0 in u && trace[m].1.0 == u[trace[m].0]
    {
      EntryInMap(plain, u, m);
    }
    forall k | k in u
      ensures exists m :: 0 <= m < |trace| && trace[m].0 == k
    {
      var m :| 0 <= m < |plain| && plain[m].0 == k;
      assert trace[m].0 == k;
    }
  }

  /** What a trace sets, or reaches, some entry of the update does, and conversely. */
  lemma SetsInUpdate(trace: seq<(string, TracedPatch)>, u: map<string, SectorPatch>, i: nat, j: nat, v: int)
    requires DeeplyLinearizes(trace, u)
    ensures SomeSets(trace, i, j, v) <==> exists k :: k in u && Names(k, i) && SetsTo(u[k], j, v)
  {
    hide DeeplyLinearizes, IndexOf, SetsTo;
    EntryOfTrace(trace, u);
    if k :| k in u && Names(k, i) && SetsTo(u[k], j, v) {
      var m :| 0 <= m < |trace| && trace[m].0 == k;
      assert Names(trace[m].0, i) && SetsTo(trace[m].1.0, j, v);
    }
  }

  lemma ReachesInUpdate(trace: seq<(string, TracedPatch)>, u: map<string, SectorPatch>, i: nat, j: nat)
    requires DeeplyLinearizes(trace, u)
    ensures SomeReaches(trace, i, j) <==> exists k :: k in u && Names(k, i) && Reaches(u[k], j)
  {
    hide DeeplyLinearizes, IndexOf, Reaches;
    EntryOfTrace(trace, u);
    if k :| k in u && Names(k, i) && Reaches(u[k], j) {
      var m :| 0 <= m < |trace| && trace[m].0 == k;
      assert Names(trace[m].0, i) && Reaches(trace[m].1.0, j);
    }
  }

  lemma WrapsInUpdate(trace: seq<(string, TracedPatch)>, u: map<string, SectorPatch>, i: nat, j: nat, k: string, v: int)
    requires DeeplyLinearizes(trace, u) && OnlyWrapsSet(trace, i, j)
    requires k in u && Names(k, i) && SetsTo(u[k], j, v)
    ensures Overflows(u[k].segments)
  {
    hide DeeplyLinearizes, IndexOf, SetsTo, Overflows;
    EntryOfTrace(trace, u);
    var m :| 0 <= m < |trace| && trace[m].0 == k;
    assert Names(trace[m].0, i) && SetsTo(trace[m].1.0, j, v);
  }

  lemma AgreedValue(u: map<string, SectorPatch>, i: nat, j: nat, k: string, v: int, l: string, w: int)
    requires CollisionsAgree(u) && k in u && l in u && Names(k, i) && Names(l, i) && SetsTo(u[k], j, v) && SetsTo(u[l], j, w)
    ensures v == w
  {
    hide IndexOf, FieldsAgree;
    assert SegmentsAgree(u[k].segments, u[l].segments);
    var x :| x in u[k].segments && Names(x, j) && u[k].segments[x].status == Some(v);
    var y :| y in u[l].segments && Names(y, j) && u[l].segments[y].status == Some(w);
    assert Compatible(u[k].segments[x].status, u[l].segments[y].status);
  }

  /** A value that one order sets and another order leaves alone is the zero it would be anyway. */
  lemma UnsetIsZero(s: Segments, u: map<string, SectorPatch>, b: seq<(string, TracedPatch)>, i: nat, j: nat, k: string, v: int)
    requires WrapsAreCovered(u) && DeeplyLinearizes(b, u)
    requires j < |s| || SomeReaches(b, i, j)
    requires k in u && Names(k, i) && SetsTo(u[k], j, v)
    requires if j < |s| then forall w :: !SomeSets(b, i, j, w) else OnlyWrapsSet(b, i, j)
    ensures j >= |s| && v == 0
  {
    hide DeeplyLinearizes, IndexOf, SetsTo, Overflows, Reaches, SomeSets, SomeReaches, OnlyWrapsSet;
    SetsInUpdate(b, u, i, j, v);
    WrapsInUpdate(b, u, i, j, k, v);
    ReachesInUpdate(b, u, i, j);
    var l :| l in u && Names(l, i) && Reaches(u[l], j);
    if v != 0 {
      assert IsCovered(u, k, j);
      var m, w :| m in u && IndexOf(m) == IndexOf(k) && !Overflows(u[m].segments) && SetsTo(u[m], j, w);
      WrapsInUpdate(b, u, i, j, m, w);
      assert false;
    }
  }

  lemma SameStatus(s: Segments, u: map<string, SectorPatch>, a: seq<(string, TracedPatch)>, b: seq<(string, TracedPatch)>,
                   i: nat, j: nat, x: int, y: int)
    requires CollisionsAgree(u) && WrapsAreCovered(u) && DeeplyLinearizes(a, u) && DeeplyLinearizes(b, u)
    requires (j < |s| || SomeReaches(a, i, j)) && (j < |s| || SomeReaches(b, i, j))
    requires StatusExplained(s, a, i, j, x) && StatusExplained(s, b, i, j, y)
    ensures x == y
  {
    hide DeeplyLinearizes, IndexOf, SetsTo, CollisionsAgree, WrapsAreCovered, SomeSets, SomeReaches, OnlyWrapsSet;
    SetsInUpdate(a, u, i, j, x);
    SetsInUpdate(b, u, i, j, y);
    if SomeSets(a, i, j, x) {
      var k :| k in u && Names(k, i) && SetsTo(u[k], j, x);
      if SomeSets(b, i, j, y) {
        var l :| l in u && Names(l, i) && SetsTo(u[l], j, y);
        AgreedValue(u, i, j, k, x, l, y);
      } else {
        UnsetIsZero(s, u, b, i, j, k, x);
      }
    } else if SomeSets(b, i, j, y) {
      var l :| l in u && Names(l, i) && SetsTo(u[l], j, y);
      UnsetIsZero(s, u, a, i, j, l, y);
    }
  }

  lemma SameReach(s: Segments, u: map<string, SectorPatch>, a: seq<(string, TracedPatch)>, b: seq<(string, TracedPatch)>,
                  i: nat, j: nat)
    requires DeeplyLinearizes(a, u) && DeeplyLinearizes(b, u)
    ensures j < |SegmentsAfter(s, a, i)| <==> j < |SegmentsAfter(s, b, i)|
    ensures j < |SegmentsAfter(s, a, i)| <==> j < |s| || SomeReaches(a, i, j)
    ensures j < |SegmentsAfter(s, b, i)| <==> j < |s| || SomeReaches(b, i, j)
  {
    hide DeeplyLinearizes, SegmentsAfter, SomeReaches, IndexOf, Reaches;
    LengthOfTrace(s, a, i, j);
    LengthOfTrace(s, b, i, j);
    ReachesInUpdate(a, u, i, j);
    ReachesInUpdate(b, u, i, j);
  }

  lemma SameSegmentsAfter(s: Segments, u: map<string, SectorPatch>, a: seq<(string, TracedPatch)>,
                          b: seq<(string, TracedPatch)>, i: nat)
    requires CollisionsAgree(u) && WrapsAreCovered(u) && DeeplyLinearizes(a, u) && DeeplyLinearizes(b, u)
    ensures SegmentsAfter(s, a, i) == SegmentsAfter(s, b, i)
  {
    hide DeeplyLinearizes, CollisionsAgree, WrapsAreCovered, SegmentsAfter, StatusExplained, SomeReaches;
    EntryOfTrace(a, u);
    EntryOfTrace(b, u);
    var x, y := SegmentsAfter(s, a, i), SegmentsAfter(s, b, i);
    SameReach(s, u, a, b, i, |x|);
    SameReach(s, u, a, b, i, |y|);
    forall j | 0 <= j < |x|
      ensures x[j].status == y[j].status
    {
      SameReach(s, u, a, b, i, j);
      StatusOfTrace(s, a, i, j);
      StatusOfTrace(s, b, i, j);
      SameStatus(s, u, a, b, i, j, x[j].status, y[j].status);
    }
    SameSegments(x, y);
  }

  lemma AgreementSuffices(u: map<string, SectorPatch>)
    requires CollisionsAgree(u) && WrapsAreCovered(u)
    ensures DeepOrderIndependent(u)
  {
    hide CollisionsAgree, WrapsAreCovered, DeeplyLinearizes, RunTrace, NewLength, SegmentsAfter;
    forall s, a, b | DeeplyLinearizes(a, u) && DeeplyLinearizes(b, u)
      ensures DeepExecute(s, u, a) == DeepExecute(s, u, b)
    {
      var base := Extend(s, ZERO_SECTOR, NewLength(|s|, u));
      var x, y := DeepExecute(s, u, a), DeepExecute(s, u, b);
      SameFields(s, u, a, b);
      forall i | 0 <= i < |base|
        ensures x[i] == y[i]
      {
        SegmentsOfRun(base, a, i);
        SegmentsOfRun(base, b, i);
        SameSegmentsAfter(base[i].segments, u, a, b, i);
        assert Erased(x)[i] == Erased(y)[i];
        SameSector(x[i], y[i]);
      }
    }
  }

  lemma SameSector(x: Sector, y: Sector)
    requires Fieldwise(x) == Fieldwise(y) && x.segments == y.segments
    ensures x == y
  {
    assert Fieldwise(x).stopped == Fieldwise(y).stopped && Fieldwise(x).value == Fieldwise(y).value;
    assert Fieldwise(x).status == Fieldwise(y).status && Fieldwise(x).overallFastest == Fieldwise(y).overallFastest;
    assert Fieldwise(x).personalFastest == Fieldwise(y).personalFastest;
    assert Fieldwise(x).previousValue == Fieldwise(y).previousValue;
  }

  // ---- disagreement can ----

  lemma CommutingFieldsAgree(t: Sector, p: TracedPatch, q: TracedPatch)
    requires CommuteAt(TRACED, t, p, q)
    ensures FieldsAgree(p.0, q.0)
  {
    hide Execute;
    var pq, qp := PatchTraced(PatchTraced(t, p), q), PatchTraced(PatchTraced(t, q), p);
    assert pq.stopped == qp.stopped && pq.value == qp.value && pq.status == qp.status;
    assert pq.overallFastest == qp.overallFastest && pq.personalFastest == qp.personalFastest;
    assert pq.previousValue == qp.previousValue;
  }

  /** Any two orders of such an update leave the same segments in every sector. */
  lemma SeenSegments(u: map<string, SectorPatch>, a: seq<(string, TracedPatch)>, b: seq<(string, TracedPatch)>, i: nat, s: Segments)
    requires DeepOrderIndependent(u) && DeeplyLinearizes(a, u) && DeeplyLinearizes(b, u)
    ensures SegmentsAfter(s, a, i) == SegmentsAfter(s, b, i)
  {
    hide DeeplyLinearizes, RunTrace, NewLength, SegmentsAfter;
    var sectors := seq(i + 1, _ => ZERO_SECTOR.(segments := s));
    var base := Extend(sectors, ZERO_SECTOR, NewLength(|sectors|, u));
    SegmentsOfRun(base, a, i);
    SegmentsOfRun(base, b, i);
    assert DeepExecute(sectors, u, a) == DeepExecute(sectors, u, b);
    assert base[i].segments == s;
  }

  /** An entry that comes last and sets a segment within the length decides it. */
  lemma LastEntryDecides(s: Segments, front: seq<(string, TracedPatch)>, x: (string, TracedPatch), i: nat, j: nat)
    requires Names(x.0, i) && LastSet(x.1.1, j).Some?
    requires j < |s| || SomeReaches(front, i, j)
    ensures j < |SegmentsAfter(s, front + [x], i)|
    ensures SegmentsAfter(s, front + [x], i)[j].status == LastSet(x.1.1, j).value
  {
    hide IndexOf, NewLength, RunTrace, LastSet, SomeReaches, SegmentsAfter;
    SegmentsAfterOne(s, front, x, i);
    LengthOfTrace(s, front, i, j);
    var before := SegmentsAfter(s, front, i);
    ExecutedLength(before, x.1.0.segments, x.1.1);
    ExecutedAt(before, x.1.0.segments, x.1.1, j);
  }

  /** An order of a map of segment patches that ends with a given key. */
  lemma EndingWith(m: map<string, SegmentPatch>, x: string, j: nat, v: int) returns (t: seq<(string, SegmentPatch)>)
    requires x in m && Names(x, j) && m[x].status == Some(v)
    ensures Linearizes(t, m) && LastSet(t, j) == Some(v)
  {
    hide Linearizes, IndexOf;
    var rest := SomeLinearization(m - {x});
    AppendEntry(m, rest, x);
    t := rest + [(x, m[x])];
  }

  /** Orders in which one entry comes last, with a given order of its segments. */
  lemma EntryLast(u: map<string, SectorPatch>, k: string, t: seq<(string, SegmentPatch)>) returns (front: seq<(string, TracedPatch)>)
    requires k in u && Linearizes(t, u[k].segments)
    ensures DeeplyLinearizes(front + [(k, (u[k], t))], u)
    ensures forall l :: l in u && l != k ==> exists m :: 0 <= m < |front| && front[m].0 == l && front[m].1.0 == u[l]
  {
    hide Linearizes, DeeplyLinearizes, RunTrace, NewLength;
    var v := SomeTracing(u);
    v := v[k := (u[k], t)];
    front := SomeLinearization(v - {k});
    AppendEntry(v, front, k);
    TracingExecutes([], u, v, front + [(k, v[k])]);
    forall l | l in u && l != k
      ensures exists m :: 0 <= m < |front| && front[m].0 == l && front[m].1.0 == u[l]
    {
      assert l in v - {k};
      EntryIsListed(front, v - {k}, l);
    }
  }

  lemma EntryIsListed<P>(trace: seq<(string, P)>, u: map<string, P>, k: string)
    requires Linearizes(trace, u) && k in u
    ensures exists m :: 0 <= m < |trace| && trace[m].0 == k && trace[m].1 == u[k]
  {
    var m :| 0 <= m < |trace| && trace[m].0 == k;
    EntryInMap(trace, u, m);
  }

  /** Orders of one entry's segments that end in different values can be told apart. */
  lemma SegmentsMustAgree(u: map<string, SectorPatch>, k: string, l: string)
    requires DeepOrderIndependent(u) && k in u && l in u && IndexOf(k).Some? && IndexOf(k) == IndexOf(l)
    ensures SegmentsAgree(u[k].segments, u[l].segments)
  {
    hide Linearizes, DeepOrderIndependent, DeeplyLinearizes, IndexOf, LastSet, SegmentsAfter, SomeReaches;
    var i := IndexOf(k).value;
    forall x, y | x in u[k].segments && y in u[l].segments && IndexOf(x).Some? && IndexOf(x) == IndexOf(y)
      ensures Compatible(u[k].segments[x].status, u[l].segments[y].status)
    {
      var p, q := u[k].segments[x].status, u[l].segments[y].status;
      if p.Some? && q.Some? {
        var j := IndexOf(x).value;
        var s := seq(j + 1, _ => SegmentStatus(0));
        var tx := EndingWith(u[k].segments, x, j, p.value);
        var ty := EndingWith(u[l].segments, y, j, q.value);
        var a := EntryLast(u, k, tx);
        var b := EntryLast(u, l, ty);
        LastEntryDecides(s, a, (k, (u[k], tx)), i, j);
        LastEntryDecides(s, b, (l, (u[l], ty)), i, j);
        SeenSegments(u, a + [(k, (u[k], tx))], b + [(l, (u[l], ty))], i, s);
      }
    }
  }

  lemma CollisionsMustAgree(u: map<string, SectorPatch>)
    requires DeepOrderIndependent(u)
    ensures CollisionsAgree(u)
  {
    hide Linearizes, DeepOrderIndependent, OrderIndependent, IndexOf, CommuteAt, FieldsAgree, SegmentsAgree;
    var v := SomeTracing(u);
    IndependentTracing(u, v);
    forall k, l | k in u && l in u && IndexOf(k).Some? && IndexOf(k) == IndexOf(l)
      ensures FieldsAgree(u[k], u[l]) && SegmentsAgree(u[k].segments, u[l].segments)
    {
      SegmentsMustAgree(u, k, l);
      if k == l {
        AgreesWithItself(u[k]);
      } else {
        var t := CommutingCollisionsAreNeeded(TRACED, v, k, l, ZERO_SECTOR);
        CommutingFieldsAgree(t, v[k], v[l]);
      }
    }
  }

  lemma AgreesWithItself(p: SectorPatch)
    ensures FieldsAgree(p, p)
  {
  }

  ghost predicate AllWrap(trace: seq<(string, TracedPatch)>) {
    forall m :: 0 <= m < |trace| ==> Overflows(trace[m].1.0.segments)
  }

  ghost predicate NoneWraps(trace: seq<(string, TracedPatch)>) {
    forall m :: 0 <= m < |trace| ==> !Overflows(trace[m].1.0.segments)
  }

  /** An order in which the entries with the key that wraps come first. */
  lemma WrapsFirst(u: map<string, SectorPatch>) returns (a: seq<(string, TracedPatch)>, b: seq<(string, TracedPatch)>)
    ensures DeeplyLinearizes(a + b, u) && AllWrap(a) && NoneWraps(b)
    ensures forall m :: 0 <= m < |b| ==> b[m].0 in u && b[m].1.0 == u[b[m].0]
    ensures Ordered(b)
  {
    hide Linearizes, DeeplyLinearizes, Overflows, RunTrace, NewLength;
    var v := SomeTracing(u);
    var wraps := map k | k in v && Overflows(u[k].segments) :: v[k];
    var others := v - wraps.Keys;
    a := SomeLinearization(wraps);
    b := SomeLinearization(others);
    JoinedLinearizes(v, wraps, others, a, b);
    TracingExecutes([], u, v, a + b);
    forall m | 0 <= m < |a|
      ensures Overflows(a[m].1.0.segments)
    {
      EntryInMap(a, wraps, m);
    }
    forall m | 0 <= m < |b|
      ensures !Overflows(b[m].1.0.segments) && b[m].0 in u && b[m].1.0 == u[b[m].0] && Linearizes(b[m].1.1, b[m].1.0.segments)
    {
      EntryInMap(b, others, m);
    }
  }

  lemma JoinedLinearizes<P>(u: map<string, P>, x: map<string, P>, y: map<string, P>, a: seq<(string, P)>, b: seq<(string, P)>)
    requires Linearizes(a, x) && Linearizes(b, y)
    requires x.Keys !! y.Keys && u.Keys == x.Keys + y.Keys
    requires (forall k :: k in x ==> u[k] == x[k]) && forall k :: k in y ==> u[k] == y[k]
    ensures Linearizes(a + b, u)
  {
    var all := a + b;
    forall m | 0 <= m < |all|
      ensures all[m].0 in u && u[all[m].0] == all[m].1
      ensures m < |a| ==> all[m].0 in x
      ensures m >= |a| ==> all[m].0 in y
    {
      if m < |a| { EntryInMap(a, x, m); } else { EntryInMap(b, y, m - |a|); }
    }
    forall k | k in u
      ensures exists m :: 0 <= m < |all| && all[m].0 == k
    {
      if k in x {
        EntryIsListed(a, x, k);
        var m :| 0 <= m < |a| && a[m].0 == k && a[m].1 == x[k];
        assert all[m].0 == k;
      } else {
        EntryIsListed(b, y, k);
        var m :| 0 <= m < |b| && b[m].0 == k && b[m].1 == y[k];
        assert all[|a| + m].0 == k;
      }
    }
  }

  lemma WrapsReachNothing(trace: seq<(string, TracedPatch)>, i: nat, j: nat)
    requires AllWrap(trace)
    ensures !SomeReaches(trace, i, j)
  {
  }

  lemma NoneWrapsSetsNone(trace: seq<(string, TracedPatch)>, u: map<string, SectorPatch>, k: string, i: nat, j: nat, v: int)
    requires NoneWraps(trace) && Names(k, i) && !IsCovered(u, k, j)
    requires forall m :: 0 <= m < |trace| ==> trace[m].0 in u && trace[m].1.0 == u[trace[m].0]
    ensures !SomeSets(trace, i, j, v)
  {
    hide IndexOf, SetsTo, Overflows;
  }

  /** With the wrapping entries first, from no segments at all, an uncovered segment is zero. */
  lemma UncoveredIsZero(u: map<string, SectorPatch>, a: seq<(string, TracedPatch)>, b: seq<(string, TracedPatch)>,
                        k: string, i: nat, j: nat)
    requires AllWrap(a) && NoneWraps(b) && Ordered(b) && Names(k, i) && !IsCovered(u, k, j)
    requires forall m :: 0 <= m < |b| ==> b[m].0 in u && b[m].1.0 == u[b[m].0]
    requires j < |SegmentsAfter([], a + b, i)|
    ensures SegmentsAfter([], a + b, i)[j].status == 0
  {
    hide AllWrap, NoneWraps, Ordered, IsCovered, SegmentsAfter, SomeReaches, SomeSets, OnlyWrapsSet, IndexOf;
    SegmentsAfterBoth([], a, b, i);
    LengthOfTrace([], a, i, 0);
    WrapsReachNothing(a, i, 0);
    assert SegmentsAfter([], a, i) == [];
    StatusOfTrace([], b, i, j);
    NoneWrapsSetsNone(b, u, k, i, j, SegmentsAfter([], b, i)[j].status);
  }

  lemma WrapsMustBeCovered(u: map<string, SectorPatch>)
    requires DeepOrderIndependent(u)
    ensures WrapsAreCovered(u)
  {
    hide DeepOrderIndependent, DeeplyLinearizes, IndexOf, Overflows, SetsTo, Reaches, IsCovered;
    forall k, l, j, v | k in u && l in u && IndexOf(k).Some? && IndexOf(k) == IndexOf(l)
                        && Overflows(u[k].segments) && SetsTo(u[k], j, v) && v != 0 && Reaches(u[l], j)
      ensures IsCovered(u, k, j)
    {
      if !IsCovered(u, k, j) {
        UncoveredWrapIsSeen(u, k, l, IndexOf(k).value, j, v);
      }
    }
  }

  lemma UncoveredWrapIsSeen(u: map<string, SectorPatch>, k: string, l: string, i: nat, j: nat, v: int)
    requires k in u && l in u && Names(k, i) && Names(l, i)
    requires Overflows(u[k].segments) && SetsTo(u[k], j, v) && v != 0 && Reaches(u[l], j) && !IsCovered(u, k, j)
    ensures !DeepOrderIndependent(u)
  {
    hide DeepOrderIndependent, DeeplyLinearizes, IndexOf, Linearizes, LastSet, IsCovered, SegmentsAfter, SomeReaches,
         AllWrap, NoneWraps, Ordered;
    var x :| x in u[k].segments && Names(x, j) && u[k].segments[x].status == Some(v);
    var t := EndingWith(u[k].segments, x, j, v);
    var front := EntryLast(u, k, t);
    EntryReaches(front, u, l, i, j);
    LastEntryDecides([], front, (k, (u[k], t)), i, j);
    var a, b := WrapsFirst(u);
    if DeepOrderIndependent(u) {
      SeenSegments(u, front + [(k, (u[k], t))], a + b, i, []);
      UncoveredIsZero(u, a, b, k, i, j);
      assert false;
    }
  }

  lemma EntryReaches(front: seq<(string, TracedPatch)>, u: map<string, SectorPatch>, l: string, i: nat, j: nat)
    requires l in u && Names(l, i) && Reaches(u[l], j)
    requires exists m :: 0 <= m < |front| && front[m].0 == l && front[m].1.0 == u[l]
    ensures SomeReaches(front, i, j)
  {
    hide IndexOf, Reaches;
  }

  /** For sectors with their nested segments the merged slice is independent of both orders, for every slice, exactly
      when entries naming one sector agree on every field they both set and on every segment they both name, and what
      an entry with the wrapping segment key sets cannot be lost unseen. */
  lemma SectorOrderIndependentIff(u: map<string, SectorPatch>)
    ensures DeepOrderIndependent(u) <==> CollisionsAgree(u) && WrapsAreCovered(u)
  {
    hide DeepOrderIndependent, CollisionsAgree, WrapsAreCovered;
    if DeepOrderIndependent(u) {
      CollisionsMustAgree(u);
      WrapsMustBeCovered(u);
    }
    if CollisionsAgree(u) && WrapsAreCovered(u) {
      AgreementSuffices(u);
    }
  }

  function SegmentsOnly(segments: map<string, SegmentPatch>): SectorPatch {
    SectorPatch(None, None, None, None, None, segments, None)
  }

  /** Two entries for one sector that agree everywhere: the first sets segment 0 and has the key that wraps, the second
      sets segment 1. Still their order can be seen. */
  lemma WrappingKeyIsSeen(wrapping: map<string, SegmentPatch>, other: map<string, SegmentPatch>, u: map<string, SectorPatch>)
    requires wrapping == map[Itoa(MAX_INT64) := SegmentPatch(Some(2048)), Itoa(0) := SegmentPatch(Some(2049))]
    requires other == map[Itoa(1) := SegmentPatch(Some(2051))]
    requires u == map["1" := SegmentsOnly(wrapping), "01" := SegmentsOnly(other)]
    ensures CollisionsAgree(u) && !DeepOrderIndependent(u)
  {
    hide DeepOrderIndependent, IndexOf, Itoa;
    TwoKeysOneIndex();
    ItoaNames(0);
    ItoaNames(1);
    ItoaNames(MAX_INT64);
    KeysAgree(wrapping, other);
    assert Names(Itoa(0), 0) && Itoa(0) in wrapping && Itoa(MAX_INT64) in wrapping;
    assert SetsTo(u["1"], 0, 2049);
    assert MAX_INT64 in Indices(wrapping) && Indices(other) == {1};
    assert Reaches(u["01"], 0);
    assert !SomeSetsFirst(other);
    assert !IsCovered(u, "1", 0);
    SectorOrderIndependentIff(u);
  }

  ghost predicate SomeSetsFirst(m: map<string, SegmentPatch>) {
    exists v :: SetsTo(SegmentsOnly(m), 0, v)
  }

  lemma KeysAgree(wrapping: map<string, SegmentPatch>, other: map<string, SegmentPatch>)
    requires wrapping == map[Itoa(MAX_INT64) := SegmentPatch(Some(2048)), Itoa(0) := SegmentPatch(Some(2049))]
    requires other == map[Itoa(1) := SegmentPatch(Some(2051))]
    ensures SegmentsAgree(wrapping, wrapping) && SegmentsAgree(other, other)
    ensures SegmentsAgree(wrapping, other) && SegmentsAgree(other, wrapping)
  {
    hide IndexOf, Itoa;
    ItoaNames(0);
    ItoaNames(1);
    ItoaNames(MAX_INT64);
  }
}
