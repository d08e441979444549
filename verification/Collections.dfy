/** The flat collections of the live state (TopThree lines, tyre stints, session series): structs whose
    fields are all scalars, seen as maps from field name to value, sent whole or as patches by index. */
module Collections {
  import opened Wrappers
  import opened Decimal
  import opened SliceMerge
  import opened MergeOrder
  import opened MergeLaws
  import opened Sectors

  datatype Scalar = Text(text: string) | Number(number: int) | Flag(flag: bool)

  /** A struct, or a decoded patch of one: the fields that differ from zero, or that the JSON carried. */
  type Fields = map<string, Scalar>

  function PatchFlat(t: Fields, p: Fields): Fields {
    t + p
  }

  const FLAT: Element<Fields, Fields> := Element(map[], PatchFlat)

  function TextOf(f: Fields, name: string): string {
    if name in f && f[name].Text? then f[name].text else ""
  }

  function JoinFlat(p: Fields, q: Fields): Fields {
    p + q
  }

  lemma FlatPatchesJoin()
    ensures Joins(FLAT, JoinFlat)
  {
    forall t: Fields, p: Fields, q: Fields
      ensures (t + p) + q == t + (p + q)
    {
      FlatPatchesInTurn(t, p, q);
    }
  }

  lemma FlatPatchesInTurn(t: Fields, p: Fields, q: Fields)
    ensures (t + p) + q == t + (p + q)
  {
    var a, b := (t + p) + q, t + (p + q);
    assert a.Keys == b.Keys;
    assert forall f :: f in a ==> a[f] == b[f];
  }

  /** Two patches of a struct agree: no field is set by both to different values. */
  predicate Agree(p: Fields, q: Fields) {
    forall f :: f in p && f in q ==> p[f] == q[f]
  }

  lemma FlatCommuteIff(t: Fields, p: Fields, q: Fields)
    ensures CommuteAt(FLAT, t, p, q) <==> Agree(p, q)
  {
    var a, b := (t + p) + q, (t + q) + p;
    if Agree(p, q) {
      assert a == b;
    } else {
      var f :| f in p && f in q && p[f] != q[f];
      assert a[f] == q[f] && b[f] == p[f];
    }
  }

  lemma SegmentCommuteIff(t: SegmentStatus, p: SegmentPatch, q: SegmentPatch)
    ensures CommuteAt(SEGMENT, t, p, q) <==> p.status.None? || q.status.None? || p == q
  {
  }

  /** For structs of scalars the merged slice is independent of Go's map order, for every slice,
      exactly when keys naming one index carry patches that agree. */
  lemma FlatOrderIndependentIff(u: map<string, Fields>)
    ensures OrderIndependent(FLAT, u) <==>
            forall k, l :: k in u && l in u && k != l && IndexOf(k).Some? && IndexOf(k) == IndexOf(l) ==> Agree(u[k], u[l])
  {
    hide OrderIndependent, IndexOf, Agree;
    forall t, p, q
      ensures CommuteAt(FLAT, t, p, q) <==> Agree(p, q)
    {
      FlatCommuteIff(t, p, q);
    }
    OrderIndependentIff(FLAT, u);
    if CollisionsCommute(FLAT, u) {
      forall k, l | k in u && l in u && k != l && IndexOf(k).Some? && IndexOf(k) == IndexOf(l)
        ensures Agree(u[k], u[l])
      {
        assert CommuteAt(FLAT, map[], u[k], u[l]);
      }
    }
  }

  /** The same for mini-sector segments. */
  lemma SegmentOrderIndependentIff(u: map<string, SegmentPatch>)
    ensures OrderIndependent(SEGMENT, u) <==>
            forall k, l :: k in u && l in u && k != l && IndexOf(k).Some? && IndexOf(k) == IndexOf(l)
                           ==> u[k].status.None? || u[l].status.None? || u[k] == u[l]
  {
    hide OrderIndependent, IndexOf;
    forall t, p, q
      ensures CommuteAt(SEGMENT, t, p, q) <==> p.status.None? || q.status.None? || p == q
    {
      SegmentCommuteIff(t, p, q);
    }
    OrderIndependentIff(SEGMENT, u);
    if CollisionsCommute(SEGMENT, u) {
      forall k, l | k in u && l in u && k != l && IndexOf(k).Some? && IndexOf(k) == IndexOf(l)
        ensures u[k].status.None? || u[l].status.None? || u[k] == u[l]
      {
        assert CommuteAt(SEGMENT, SegmentStatus(0), u[k], u[l]);
      }
    }
  }

  /** Keys "1" and "01" with different patches: two orders, two results. */
  lemma CollidingKeysAreSeen()
    ensures var u := map["1" := SegmentPatch(Some(2048)), "01" := SegmentPatch(Some(2049))];
            !OrderIndependent(SEGMENT, u)
  {
    var u := map["1" := SegmentPatch(Some(2048)), "01" := SegmentPatch(Some(2049))];
    TwoKeysOneIndex();
    SegmentOrderIndependentIff(u);
    assert u["1"] != u["01"];
  }

  /** A sequence of whole-array and patch updates of a flat collection is one update, on every slice, exactly when it
      holds a whole array or its patches agree in growth. */
  lemma FlatUpdatesCollapse(ups: seq<SliceUpdate<Fields, Fields>>)
    requires forall k :: 0 <= k < |ups| ==> Definite(ups[k])
    ensures (forall s :: CollapsesOn(FLAT, JoinFlat, s, ups)) <==> HasReplace(ups) || UniformGrowth(ups)
  {
    hide CollapsesOn, HasReplace, UniformGrowth, Definite;
    FlatPatchesJoin();
    UpdatesCollapse(FLAT, JoinFlat, ups);
  }

  // ---- sectors with their segments ----

  ghost function JoinSegment(p: SegmentPatch, q: SegmentPatch): SegmentPatch {
    SegmentPatch(if q.status.Some? then q.status else p.status)
  }

  ghost function Later<T>(p: Option<T>, q: Option<T>): Option<T> {
    if q.Some? then q else p
  }

  /** One sector patch for two: the later field wins, the segments compose. */
  ghost function JoinSector(p: SectorPatch, q: SectorPatch): SectorPatch {
    SectorPatch(Later(p.stopped, q.stopped), Later(p.value, q.value), Later(p.status, q.status),
                Later(p.overallFastest, q.overallFastest), Later(p.personalFastest, q.personalFastest),
                Compose(JoinSegment, p.segments, q.segments), Later(p.previousValue, q.previousValue))
  }

  ghost predicate DeepGrowthAgrees(u: map<string, SectorPatch>, v: map<string, SectorPatch>) {
    && GrowthAgrees(u, v)
    && forall k, l :: k in u && l in v && IndexOf(k).Some? && IndexOf(k) == IndexOf(l)
                      ==> GrowthAgrees(u[k].segments, v[l].segments)
  }

  lemma SectorPatchesJoin(t: Sector, p: SectorPatch, q: SectorPatch)
    requires DistinctIndices(p.segments) && DistinctIndices(q.segments) && GrowthAgrees(p.segments, q.segments)
    ensures PatchSector(PatchSector(t, p), q) == PatchSector(t, JoinSector(p, q))
  {
    hide Merged, Compose, GrowthAgrees, DistinctIndices;
    assert Acts(SEGMENT, JoinSegment, p.segments, q.segments);
    ComposesWhenGrowthAgrees(SEGMENT, JoinSegment, p.segments, q.segments, t.segments);
  }

  ghost predicate SectorsComposeOn(u: map<string, SectorPatch>, v: map<string, SectorPatch>, s: seq<Sector>) {
    Merged(SECTOR, Merged(SECTOR, s, u), v) == Merged(SECTOR, s, Compose(JoinSector, u, v))
  }

  lemma SectorsComposeWhenGrowthAgrees(s: seq<Sector>, u: map<string, SectorPatch>, v: map<string, SectorPatch>)
    requires DeeplyDistinct(u) && DeeplyDistinct(v) && DeepGrowthAgrees(u, v)
    ensures SectorsComposeOn(u, v, s)
  {
    hide Merged, Compose, GrowthAgrees, DistinctIndices, PatchSector, JoinSector, IndexOf;
    assert Acts(SECTOR, JoinSector, u, v) by {
      forall t: Sector, k, l | k in u && l in v && IndexOf(k).Some? && IndexOf(k) == IndexOf(l)
        ensures SECTOR.apply(SECTOR.apply(t, u[k]), v[l]) == SECTOR.apply(t, JoinSector(u[k], v[l]))
      {
        SectorPatchesJoin(t, u[k], v[l]);
      }
    }
    ComposesWhenGrowthAgrees(SECTOR, JoinSector, u, v, s);
  }

  /** What two updates, and their composition, leave at an index that both name. */
  lemma BothNamedAt(s: seq<Sector>, u: map<string, SectorPatch>, v: map<string, SectorPatch>, k: string, l: string, i: nat)
    requires DistinctIndices(u) && DistinctIndices(v) && k in u && l in v && Names(k, i) && Names(l, i) && i < |s|
    ensures |Merged(SECTOR, Merged(SECTOR, s, u), v)| > i && |Merged(SECTOR, s, Compose(JoinSector, u, v))| > i
    ensures Merged(SECTOR, Merged(SECTOR, s, u), v)[i] == PatchSector(PatchSector(s[i], u[k]), v[l])
    ensures Merged(SECTOR, s, Compose(JoinSector, u, v))[i] == PatchSector(s[i], JoinSector(u[k], v[l]))
  {
    hide Compose, DistinctIndices, PatchSector, JoinSector, IndexOf, NewLength, PatchAt;
    PatchAtKey(u, k);
    PatchAtKey(v, l);
    ComposedAt(JoinSector, u, v);
  }

  lemma SectorGrowthIsNeeded(u: map<string, SectorPatch>, v: map<string, SectorPatch>, k: string, l: string)
    requires DeeplyDistinct(u) && DeeplyDistinct(v)
    requires k in u && l in v && IndexOf(k).Some? && IndexOf(k) == IndexOf(l)
    requires !GrowthAgrees(u[k].segments, v[l].segments)
    ensures exists s :: !SectorsComposeOn(u, v, s)
  {
    hide Compose, Merged, GrowthAgrees, DistinctIndices, NewLength, IndexOf;
    var i := IndexOf(k).value;
    var s := seq(i + 1, _ => ZERO_SECTOR);
    BothNamedAt(s, u, v, k, l, i);
    LengthOfComposition(JoinSegment, u[k].segments, v[l].segments, 0);
    var twice, once := PatchSector(PatchSector(ZERO_SECTOR, u[k]), v[l]), PatchSector(ZERO_SECTOR, JoinSector(u[k], v[l]));
    assert |twice.segments| != |once.segments|;
    assert !SectorsComposeOn(u, v, s);
  }

  /** Two sector updates, nested segment maps included, are one composed update on every slice exactly when their growth
      agrees on both levels. */
  lemma SectorMergingIsAnAction(u: map<string, SectorPatch>, v: map<string, SectorPatch>)
    requires DeeplyDistinct(u) && DeeplyDistinct(v)
    ensures (forall s :: SectorsComposeOn(u, v, s)) <==> DeepGrowthAgrees(u, v)
  {
    hide Compose, Merged, GrowthAgrees, DistinctIndices, NewLength, IndexOf, DeeplyDistinct;
    if DeepGrowthAgrees(u, v) {
      forall s
        ensures SectorsComposeOn(u, v, s)
      {
        SectorsComposeWhenGrowthAgrees(s, u, v);
      }
    } else if !GrowthAgrees(u, v) {
      LengthOfComposition(JoinSector, u, v, 0);
      var nothing: seq<Sector> := [];
      assert !SectorsComposeOn(u, v, nothing);
    } else {
      var k, l :| k in u && l in v && IndexOf(k).Some? && IndexOf(k) == IndexOf(l)
        && !GrowthAgrees(u[k].segments, v[l].segments);
      SectorGrowthIsNeeded(u, v, k, l);
    }
  }

  /** Distinct keys on both levels, none of them the one that wraps. */
  ghost predicate DeeplyTame(u: map<string, SectorPatch>) {
    DeeplyDistinct(u) && !Overflows(u) && forall k :: k in u ==> !Overflows(u[k].segments)
  }

  /** An entry of the composition comes from one update or joins two. */
  lemma ComposedEntry(u: map<string, SectorPatch>, v: map<string, SectorPatch>, k: string)
    requires k in Compose(JoinSector, u, v)
    ensures var p := Compose(JoinSector, u, v)[k];
            || (exists l :: l in u && p == u[l]) || (exists l :: l in v && p == v[l])
            || exists l, m :: l in u && m in v && p == JoinSector(u[l], v[m])
  {
    hide IndexOf, Indices, JoinSector;
  }

  /** Compositions of such updates are such updates, so that composing can go on. */
  lemma CompositionIsTame(u: map<string, SectorPatch>, v: map<string, SectorPatch>)
    requires DeeplyDistinct(u) && DeeplyDistinct(v)
    ensures DeeplyDistinct(Compose(JoinSector, u, v))
    ensures DeeplyTame(u) && DeeplyTame(v) ==> DeeplyTame(Compose(JoinSector, u, v))
  {
    hide Compose, DistinctIndices, Overflows, IndexOf;
    var w := Compose(JoinSector, u, v);
    ComposedAt(JoinSector, u, v);
    if !Overflows(u) && !Overflows(v) { NoOverflowInUnion(JoinSector, u, v); }
    forall k | k in w
      ensures DistinctIndices(w[k].segments)
      ensures DeeplyTame(u) && DeeplyTame(v) ==> !Overflows(w[k].segments)
    {
      ComposedEntry(u, v, k);
      if l, m :| l in u && m in v && w[k] == JoinSector(u[l], v[m]) {
        ComposedAt(JoinSegment, u[l].segments, v[m].segments);
        if DeeplyTame(u) && DeeplyTame(v) { NoOverflowInUnion(JoinSegment, u[l].segments, v[m].segments); }
      }
    }
  }

  // ---- sequences of sector updates ----

  /** Any two patch updates of the sequence agree in growth on both levels. */
  ghost predicate DeepUniform(ups: seq<SliceUpdate<Sector, SectorPatch>>) {
    forall a, b :: 0 <= a < |ups| && 0 <= b < |ups| && ups[a].Merge? && ups[b].Merge?
                   ==> DeepGrowthAgrees(ups[a].patches, ups[b].patches)
  }

  ghost predicate DeeplyDefinite(ups: seq<SliceUpdate<Sector, SectorPatch>>) {
    forall k :: 0 <= k < |ups| && ups[k].Merge? ==> DeeplyDistinct(ups[k].patches)
  }

  /** The patch that u has for sector i names segment j. */
  ghost predicate NamesSegment(u: map<string, SectorPatch>, i: nat, j: nat) {
    PatchAt(u, i).Some? && j in Indices(PatchAt(u, i).value.segments)
  }

  lemma NamesSegmentComposed(u: map<string, SectorPatch>, v: map<string, SectorPatch>, i: nat, j: nat)
    ensures NamesSegment(Compose(JoinSector, u, v), i, j) <==> NamesSegment(u, i, j) || NamesSegment(v, i, j)
  {
    hide PatchAt, Compose, Indices;
    ComposedAt(JoinSector, u, v);
    var p, q := PatchAt(u, i), PatchAt(v, i);
    if p.Some? && q.Some? {
      ComposedAt(JoinSegment, p.value.segments, q.value.segments);
    }
  }

  lemma NoSegmentNamed(i: nat, j: nat)
    ensures !NamesSegment(map[], i, j)
  {
  }

  /** The composition names the segments that any of the patch updates names. */
  lemma {:induction false} CollapsedSegments(ups: seq<SliceUpdate<Sector, SectorPatch>>, i: nat, j: nat)
    requires !HasReplace(ups)
    ensures Collapsed(SECTOR, JoinSector, ups).Merge?
    ensures NamesSegment(Collapsed(SECTOR, JoinSector, ups).patches, i, j)
            <==> exists k :: 0 <= k < |ups| && ups[k].Merge? && NamesSegment(ups[k].patches, i, j)
  {
    hide NamesSegment, Compose, Merged, JoinSector;
    if ups == [] {
      NoSegmentNamed(i, j);
    } else {
      var n := |ups| - 1;
      ReplaceExtends(ups);
      CollapsedSegments(ups[..n], i, j);
      NamesSegmentComposed(Collapsed(SECTOR, JoinSector, ups[..n]).patches, ups[n].patches, i, j);
      if k :| 0 <= k < n && ups[..n][k].Merge? && NamesSegment(ups[..n][k].patches, i, j) {
        assert ups[k] == ups[..n][k];
      }
      if k :| 0 <= k < n && ups[k].Merge? && NamesSegment(ups[k].patches, i, j) {
        assert ups[k] == ups[..n][k];
      }
    }
  }

  lemma {:induction false} CollapsedIsDeeplyDistinct(ups: seq<SliceUpdate<Sector, SectorPatch>>)
    requires DeeplyDefinite(ups) && !HasReplace(ups)
    ensures Collapsed(SECTOR, JoinSector, ups).Merge? && DeeplyDistinct(Collapsed(SECTOR, JoinSector, ups).patches)
  {
    hide Compose, DeeplyDistinct, DeeplyTame;
    if ups == [] {
      NothingDeep();
    } else {
      var n := |ups| - 1;
      ReplaceExtends(ups);
      CollapsedIsDeeplyDistinct(ups[..n]);
      CompositionIsTame(Collapsed(SECTOR, JoinSector, ups[..n]).patches, ups[n].patches);
    }
  }

  lemma NothingDeep()
    ensures DeeplyDistinct(map[])
  {
  }

  lemma KeyNamesSegment(u: map<string, SectorPatch>, k: string, j: nat)
    requires DistinctIndices(u) && k in u && IndexOf(k).Some?
    ensures NamesSegment(u, IndexOf(k).value, j) <==> j in Indices(u[k].segments)
  {
    PatchAtKey(u, k);
  }

  /** One update of the sequence that names segment j of the sector with the key l has it agree in growth with v[l]. */
  lemma SegmentGrowthOf(
    ups: seq<SliceUpdate<Sector, SectorPatch>>, v: map<string, SectorPatch>, l: string, j: nat) returns (a: nat, k: string)
    requires !HasReplace(ups) && DeeplyDefinite(ups) && l in v && IndexOf(l).Some?
    requires forall a :: 0 <= a < |ups| && ups[a].Merge? ==> DeepGrowthAgrees(ups[a].patches, v)
    requires var w := Collapsed(SECTOR, JoinSector, ups); w.Merge? && NamesSegment(w.patches, IndexOf(l).value, j)
    ensures a < |ups| && ups[a].Merge? && k in ups[a].patches && IndexOf(k) == IndexOf(l)
    ensures j in Indices(ups[a].patches[k].segments) && GrowthAgrees(ups[a].patches[k].segments, v[l].segments)
  {
    hide Collapsed, IndexOf, Indices, GrowthAgrees, PatchAt;
    var i := IndexOf(l).value;
    CollapsedSegments(ups, i, j);
    a :| 0 <= a < |ups| && ups[a].Merge? && NamesSegment(ups[a].patches, i, j);
    k :| k in ups[a].patches && Names(k, i) && ups[a].patches[k] == PatchAt(ups[a].patches, i).value;
  }

  lemma SegmentsAgreeWithCollapsed(
    ups: seq<SliceUpdate<Sector, SectorPatch>>, v: map<string, SectorPatch>, k: string, l: string)
    requires !HasReplace(ups) && DeeplyDefinite(ups)
    requires forall a :: 0 <= a < |ups| && ups[a].Merge? ==> DeepGrowthAgrees(ups[a].patches, v)
    requires var w := Collapsed(SECTOR, JoinSector, ups);
             w.Merge? && k in w.patches && l in v && IndexOf(k).Some? && IndexOf(k) == IndexOf(l)
    ensures GrowthAgrees(Collapsed(SECTOR, JoinSector, ups).patches[k].segments, v[l].segments)
  {
    hide Collapsed, IndexOf, Indices, DeeplyDefinite, DeepGrowthAgrees, NamesSegment, DistinctIndices;
    var w, i := Collapsed(SECTOR, JoinSector, ups).patches, IndexOf(k).value;
    CollapsedIsDeeplyDistinct(ups);
    var x, y := w[k].segments, v[l].segments;
    if Indices(x) != {} && Indices(y) != {} {
      var j :| j in Indices(x);
      KeyNamesSegment(w, k, j);
      var a, m := SegmentGrowthOf(ups, v, l, j);
      KeyNamesSegment(w, k, MAX_INT64);
      if Overflows(x) {
        var b, n := SegmentGrowthOf(ups, v, l, MAX_INT64);
      } else if Overflows(y) {
        KeyNamesSegment(ups[a].patches, m, MAX_INT64) by { DefiniteAt(ups, a); }
        CollapsedSegments(ups, i, MAX_INT64);
      }
    }
  }

  lemma DefiniteAt(ups: seq<SliceUpdate<Sector, SectorPatch>>, a: nat)
    requires DeeplyDefinite(ups) && a < |ups| && ups[a].Merge?
    ensures DeeplyDistinct(ups[a].patches) && DistinctIndices(ups[a].patches)
  {
  }

  lemma DeepUniformWithCollapsed(ups: seq<SliceUpdate<Sector, SectorPatch>>, v: map<string, SectorPatch>)
    requires !HasReplace(ups) && DeeplyDefinite(ups) && DeepUniform(ups)
    requires forall a :: 0 <= a < |ups| && ups[a].Merge? ==> DeepGrowthAgrees(ups[a].patches, v)
    ensures Collapsed(SECTOR, JoinSector, ups).Merge?
    ensures DeepGrowthAgrees(Collapsed(SECTOR, JoinSector, ups).patches, v)
  {
    hide Collapsed, GrowthAgrees, DeeplyDefinite, IndexOf;
    UniformWithCollapsed(SECTOR, JoinSector, ups, v);
    var w := Collapsed(SECTOR, JoinSector, ups).patches;
    forall k, l | k in w && l in v && IndexOf(k).Some? && IndexOf(k) == IndexOf(l)
      ensures GrowthAgrees(w[k].segments, v[l].segments)
    {
      SegmentsAgreeWithCollapsed(ups, v, k, l);
    }
  }

  lemma {:induction false} DeepUniformCollapse(s: seq<Sector>, ups: seq<SliceUpdate<Sector, SectorPatch>>)
    requires DeeplyDefinite(ups) && (HasReplace(ups) || DeepUniform(ups))
    ensures CollapsesOn(SECTOR, JoinSector, s, ups)
  {
    hide Merged, Compose, DeepGrowthAgrees, DeeplyDistinct, HasReplace, JoinSector;
    if ups == [] {
      EmptyUpdate(SECTOR, s);
    } else if ups[|ups| - 1].Merge? {
      var n := |ups| - 1;
      ReplaceExtends(ups);
      DeepUniformCollapse(s, ups[..n]);
      ReplaceDecides(ups[..n]);
      if !HasReplace(ups[..n]) {
        CollapsedIsDeeplyDistinct(ups[..n]);
        DeepUniformWithCollapsed(ups[..n], ups[n].patches);
        SectorsComposeWhenGrowthAgrees(s, Collapsed(SECTOR, JoinSector, ups[..n]).patches, ups[n].patches);
      }
    }
  }

  lemma {:induction false} ReplaceDecides(ups: seq<SliceUpdate<Sector, SectorPatch>>)
    ensures Collapsed(SECTOR, JoinSector, ups).Replace? <==> HasReplace(ups)
  {
    hide Merged, Compose, JoinSector;
    if ups != [] {
      ReplaceExtends(ups);
      ReplaceDecides(ups[..|ups| - 1]);
    }
  }

  /** Patch updates never take a sector or a segment away. */
  lemma {:induction false} SegmentsGrow(s: seq<Sector>, ups: seq<SliceUpdate<Sector, SectorPatch>>, k: nat, i: nat)
    requires k <= |ups| && i < |s| && forall j :: 0 <= j < |ups| ==> ups[j].Merge?
    ensures |UpdatedBy(SECTOR, s, ups)| > i && |UpdatedBy(SECTOR, s, ups[..k])| > i
    ensures |UpdatedBy(SECTOR, s, ups)[i].segments| >= |UpdatedBy(SECTOR, s, ups[..k])[i].segments|
  {
    hide NewLength, PatchAt, UpdatedBy;
    LengthsGrow(SECTOR, s, ups, 0);
    LengthsGrow(SECTOR, s, ups[..k], 0);
    NoUpdates(s);
    assert ups[..0] == [] && ups[..k][..0] == [];
    if k == |ups| {
      assert ups[..k] == ups;
    } else {
      var n := |ups| - 1;
      SegmentsGrow(s, ups[..n], k, i);
      assert ups[..n][..k] == ups[..k] && ups[..n + 1] == ups;
      LastUpdate(SECTOR, s, ups, n);
    }
  }

  lemma NoUpdates(s: seq<Sector>)
    ensures UpdatedBy(SECTOR, s, []) == s
  {
  }

  /** Where the segments of one sector wrap in one update and not in another, sectors that reach that far tell the
      sequence from its composition. */
  lemma MixedSegmentsAreSeen(ups: seq<SliceUpdate<Sector, SectorPatch>>, a: nat, b: nat, k: string, l: string)
    requires DeeplyDefinite(ups) && !HasReplace(ups) && a < |ups| && b < |ups| && ups[a].Merge? && ups[b].Merge?
    requires k in ups[a].patches && l in ups[b].patches && IndexOf(k).Some? && IndexOf(k) == IndexOf(l)
    requires Overflows(ups[a].patches[k].segments)
    requires !Overflows(ups[b].patches[l].segments) && Indices(ups[b].patches[l].segments) != {}
    ensures !CollapsesOn(SECTOR, JoinSector, seq(IndexOf(k).value + 1, _ => ZERO_SECTOR), ups)
  {
    hide Collapsed, NewLength, UpdatedBy, IndexOf, Indices, MaxOf, DeeplyDefinite, PatchAt;
    var i := IndexOf(k).value;
    var s := seq(i + 1, _ => ZERO_SECTOR);
    DefiniteAt(ups, a);
    DefiniteAt(ups, b);
    CollapsedSegments(ups, i, MAX_INT64);
    KeyNamesSegment(ups[a].patches, k, MAX_INT64);
    var w := Collapsed(SECTOR, JoinSector, ups);
    LengthAfter(0, PatchAt(w.patches, i).value.segments);
    assert Updated(SECTOR, s, w)[i].segments == [];
    SegmentsGrow(s, ups, b + 1, i);
    LastUpdate(SECTOR, s, ups, b);
    SegmentsGrow(s, ups[..b], 0, i);
    PatchAtKey(ups[b].patches, l);
    LengthAfter(|UpdatedBy(SECTOR, s, ups[..b])[i].segments|, ups[b].patches[l].segments);
    assert MaxOf(Indices(ups[b].patches[l].segments)) >= 0;
  }

  /** A sequence of whole-array and patch updates of sectors, nested segment maps included, is one update, on every
      slice, exactly when it holds a whole array or its patches agree in growth on both levels. */
  lemma SectorUpdatesCollapse(ups: seq<SliceUpdate<Sector, SectorPatch>>)
    requires DeeplyDefinite(ups)
    ensures (forall s :: CollapsesOn(SECTOR, JoinSector, s, ups)) <==> HasReplace(ups) || DeepUniform(ups)
  {
    hide DeeplyDefinite, CollapsesOn, Indices, IndexOf, HasReplace;
    if HasReplace(ups) || DeepUniform(ups) {
      forall s
        ensures CollapsesOn(SECTOR, JoinSector, s, ups)
      {
        DeepUniformCollapse(s, ups);
      }
    } else {
      var a, b :| 0 <= a < |ups| && 0 <= b < |ups| && ups[a].Merge? && ups[b].Merge?
        && !DeepGrowthAgrees(ups[a].patches, ups[b].patches);
      var u, v := ups[a].patches, ups[b].patches;
      if !GrowthAgrees(u, v) {
        if Overflows(u) {
          MixedGrowthIsSeen(SECTOR, JoinSector, ups, a, b);
        } else {
          MixedGrowthIsSeen(SECTOR, JoinSector, ups, b, a);
        }
      } else {
        var k, l :| k in u && l in v && IndexOf(k).Some? && IndexOf(k) == IndexOf(l)
          && !GrowthAgrees(u[k].segments, v[l].segments);
        if Overflows(u[k].segments) {
          MixedSegmentsAreSeen(ups, a, b, k, l);
        } else {
          MixedSegmentsAreSeen(ups, b, a, l, k);
        }
      }
    }
  }

  ghost function SegmentDelta(a: SegmentStatus, b: SegmentStatus): SegmentPatch {
    SegmentPatch(Some(b.status))
  }

  ghost function SectorDelta(a: Sector, b: Sector): SectorPatch {
    SectorPatch(Some(b.stopped), Some(b.value), Some(b.status), Some(b.overallFastest), Some(b.personalFastest),
                Difference(SEGMENT, SegmentDelta, a.segments, b.segments), Some(b.previousValue))
  }

  function SegmentsAt(s: seq<Sector>, i: nat): Segments {
    if i < |s| then s[i].segments else []
  }

  /** Some single update takes any sectors to any others that are at least as long, segment by segment. */
  lemma EverySectorStateIsReachable(s: seq<Sector>, t: seq<Sector>)
    requires |s| <= |t| <= MAX_INT64
    requires forall i :: 0 <= i < |t| ==> |SegmentsAt(s, i)| <= |t[i].segments| <= MAX_INT64
    ensures Merged(SECTOR, s, Difference(SECTOR, SectorDelta, s, t)) == t
  {
    hide Merged, Difference, DistinctIndices;
    forall i | 0 <= i < |t|
      ensures var b := if i < |s| then s[i] else ZERO_SECTOR;
              PatchSector(b, SectorDelta(b, t[i])) == t[i]
    {
      var b := if i < |s| then s[i] else ZERO_SECTOR;
      assert SegmentsAt(s, i) == b.segments;
      DifferenceReaches(SEGMENT, SegmentDelta, b.segments, t[i].segments);
    }
    DifferenceReaches(SECTOR, SectorDelta, s, t);
  }

  /** What an index holds that the update brings into the slice and does not name: all fields zero. */
  lemma GapsHoldZero(
    segments: Segments, p: map<string, SegmentPatch>, sectors: seq<Sector>, u: map<string, SectorPatch>,
    flat: seq<Fields>, v: map<string, Fields>, i: nat)
    requires i !in Indices(p) && i !in Indices(u) && i !in Indices(v)
    ensures |segments| <= i < |Merged(SEGMENT, segments, p)| ==> Merged(SEGMENT, segments, p)[i] == SegmentStatus(0)
    ensures |sectors| <= i < |Merged(SECTOR, sectors, u)| ==>
              Merged(SECTOR, sectors, u)[i] == SectorTiming(false, "", 0, false, false, [], "")
    ensures |flat| <= i < |Merged(FLAT, flat, v)| ==> Merged(FLAT, flat, v)[i] == map[]
  {
    hide NewLength, Indices;
  }

  // ---- the updates and the queries of the live state ----

  /** after is the slice once up was applied to it, in some order of the range. */
  ghost predicate SliceUpdated(s: seq<Fields>, up: SliceUpdate<Fields, Fields>, after: seq<Fields>) {
    match up
    case Replace(items) => after == items
    case Merge(patches) => exists trace :: Linearizes(trace, patches) && after == Execute(FLAT, s, patches, trace)
  }

  /** The array-or-object dispatch shared by updateTopThree, updateTimingAppData, updateSessionData and
      updateTyreStintSeries. */
  method UpdateSlice(s: seq<Fields>, up: SliceUpdate<Fields, Fields>) returns (r: seq<Fields>)
    ensures SliceUpdated(s, up, r)
    ensures (up.Merge? ==> DistinctIndices(up.patches)) ==> r == Updated(FLAT, s, up)
  {
    hide Linearizes, Execute, Merged;
    match up
    case Replace(items) =>
      r := items;
    case Merge(patches) =>
      ghost var trace;
      r, trace := MergeUpdates(FLAT, s, patches);
  }

  function StatusAt(series: seq<Fields>, i: nat): string
    requires i < |series|
  {
    TextOf(series[i], "SessionStatus")
  }

  ghost predicate NoStatusFrom(series: seq<Fields>, i: nat) {
    forall j :: i <= j < |series| ==> StatusAt(series, j) == ""
  }

  /** The status of the last entry that has one, or "". */
  ghost predicate IsLastStatus(series: seq<Fields>, status: string) {
    if status == "" then NoStatusFrom(series, 0)
    else exists i :: 0 <= i < |series| && StatusAt(series, i) == status && NoStatusFrom(series, i + 1)
  }

  lemma LastStatusIsUnique(series: seq<Fields>, a: string, b: string)
    requires IsLastStatus(series, a) && IsLastStatus(series, b)
    ensures a == b
  {
  }

  /** GetLastSessionStatus: the loop from the end. */
  method GetLastSessionStatus(series: seq<Fields>) returns (status: string)
    ensures IsLastStatus(series, status)
  {
    hide StatusAt;
    var i := |series|;
    while i > 0
      invariant 0 <= i <= |series|
      invariant NoStatusFrom(series, i)
    {
      i := i - 1;
      if StatusAt(series, i) != "" {
        return StatusAt(series, i);
      }
    }
    return "";
  }

  /** The session has finished: its last status is "Finalised" or "Ends". */
  ghost predicate SessionFinished(series: seq<Fields>) {
    IsLastStatus(series, "Finalised") || IsLastStatus(series, "Ends")
  }

  /** The entry says so itself, in its field "SessionStatus". */
  predicate SaysStatus(f: Fields, status: string) {
    "SessionStatus" in f && f["SessionStatus"] == Text(status)
  }

  /** No entry from i on says anything but the empty text. */
  ghost predicate SilentAfter(series: seq<Fields>, i: nat) {
    forall j, status :: i <= j < |series| && SaysStatus(series[j], status) ==> status == ""
  }

  /** The session has finished exactly when some entry says "Finalised" or "Ends" and no later one says anything else
      but the empty text. */
  lemma SessionFinishedIff(series: seq<Fields>)
    ensures SessionFinished(series)
            <==> exists i :: 0 <= i < |series| && (SaysStatus(series[i], "Finalised") || SaysStatus(series[i], "Ends"))
                             && SilentAfter(series, i + 1)
  {
    hide SilentAfter;
    LastStatusSaid(series, "Finalised");
    LastStatusSaid(series, "Ends");
  }

  lemma LastStatusSaid(series: seq<Fields>, status: string)
    requires status != ""
    ensures IsLastStatus(series, status)
            <==> exists i :: 0 <= i < |series| && SaysStatus(series[i], status) && SilentAfter(series, i + 1)
  {
    hide SilentAfter, NoStatusFrom;
    forall i | 0 <= i < |series|
      ensures NoStatusFrom(series, i + 1) <==> SilentAfter(series, i + 1)
      ensures StatusAt(series, i) == status <==> SaysStatus(series[i], status)
    {
      SilentFrom(series, i + 1);
    }
    if IsLastStatus(series, status) {
      var i :| 0 <= i < |series| && StatusAt(series, i) == status && NoStatusFrom(series, i + 1);
      assert SaysStatus(series[i], status) && SilentAfter(series, i + 1);
    }
    if i :| 0 <= i < |series| && SaysStatus(series[i], status) && SilentAfter(series, i + 1) {
      assert StatusAt(series, i) == status && NoStatusFrom(series, i + 1);
    }
  }

  lemma SilentFrom(series: seq<Fields>, i: nat)
    ensures NoStatusFrom(series, i) <==> SilentAfter(series, i)
  {
    if NoStatusFrom(series, i) {
      forall j, status | i <= j < |series| && SaysStatus(series[j], status)
        ensures status == ""
      {
        assert StatusAt(series, j) == "";
      }
    }
    if SilentAfter(series, i) {
      forall j | i <= j < |series|
        ensures StatusAt(series, j) == ""
      {
        if StatusAt(series, j) != "" { assert SaysStatus(series[j], StatusAt(series, j)); }
      }
    }
  }

  /** What an update leaves, when it has one result. */
  lemma SliceUpdatedTo(s: seq<Fields>, up: SliceUpdate<Fields, Fields>, after: seq<Fields>)
    requires SliceUpdated(s, up, after)
    ensures up.Replace? ==> after == up.items
    ensures up.Merge? && DistinctIndices(up.patches) ==> after == Merged(FLAT, s, up.patches)
  {
    hide Linearizes, DistinctIndices, Execute, Merged;
    if up.Merge? && DistinctIndices(up.patches) {
      var trace :| Linearizes(trace, up.patches) && after == Execute(FLAT, s, up.patches, trace);
      OrderIsIrrelevant(FLAT, s, up.patches, trace);
    }
  }

  method IsSessionFinished(series: seq<Fields>) returns (finished: bool)
    ensures finished == SessionFinished(series)
  {
    hide IsLastStatus;
    var status := GetLastSessionStatus(series);
    finished := status == "Finalised" || status == "Ends";
    if IsLastStatus(series, "Finalised") { LastStatusIsUnique(series, status, "Finalised"); }
    if IsLastStatus(series, "Ends") { LastStatusIsUnique(series, status, "Ends"); }
  }
}
