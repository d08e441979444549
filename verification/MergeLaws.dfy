/** Merging is an action: updates compose, sequences of Replace and Merge updates collapse to
    one, and every slice can be reached from every shorter one. */
module MergeLaws {
  import opened Wrappers
  import opened Decimal
  import opened SliceMerge

  /** The key "9223372036854775807": maxIndex + 1 wraps, so the slice is not grown at all. */
  ghost predicate Overflows<P>(u: map<string, P>) {
    MAX_INT64 in Indices(u)
  }

  /** What the keys of an update mean, index by index; invalid keys mean nothing. */
  lemma MergedPointwise<T, P>(e: Element<T, P>, s: seq<T>, u: map<string, P>, i: nat)
    requires DistinctIndices(u) && i < |Merged(e, s, u)|
    ensures i !in Indices(u) ==> Merged(e, s, u)[i] == if i < |s| then s[i] else e.zero
    ensures forall k :: k in u && Names(k, i) ==>
                          Merged(e, s, u)[i] == e.apply(if i < |s| then s[i] else e.zero, u[k])
    ensures !Overflows(u) ==> |Merged(e, s, u)| == Grown(|s|, MaxOf(Indices(u))) >= MaxOf(Indices(u)) + 1
    ensures Overflows(u) ==> |Merged(e, s, u)| == |s|
  {
    forall k | k in u && Names(k, i)
      ensures PatchAt(u, i) == Some(u[k])
    {
      PatchAtKey(u, k);
    }
    LengthAfter(|s|, u);
  }

  lemma IndicesFitInt64<P>(u: map<string, P>)
    ensures forall i :: i in Indices(u) ==> i <= MAX_INT64
  {
  }

  lemma LengthAfter<P>(len: nat, u: map<string, P>)
    ensures Overflows(u) ==> NewLength(len, u) == len
    ensures !Overflows(u) ==> NewLength(len, u) == if MaxOf(Indices(u)) + 1 > len then MaxOf(Indices(u)) + 1 else len
  {
    hide Indices;
    IndicesFitInt64(u);
  }

  // ---- composition ----

  ghost function Joined<P>(c: (P, P) -> P, p: Option<P>, q: Option<P>): Option<P> {
    if p.None? then q else if q.None? then p else Some(c(p.value, q.value))
  }

  ghost function JoinedAt<P>(c: (P, P) -> P, u: map<string, P>, v: map<string, P>, i: nat): Option<P> {
    Joined(c, PatchAt(u, i), PatchAt(v, i))
  }

  ghost function KeysOf(indices: set<nat>): set<string> {
    set i | i in indices :: Itoa(i)
  }

  /** One update that stands for u and then v: the union of the named indices, keyed by Itoa. */
  ghost function Compose<P>(c: (P, P) -> P, u: map<string, P>, v: map<string, P>): map<string, P> {
    map k | k in KeysOf(Indices(u) + Indices(v)) && IndexOf(k).Some? && JoinedAt(c, u, v, IndexOf(k).value).Some?
      :: JoinedAt(c, u, v, IndexOf(k).value).value
  }

  lemma ItoaNames(i: nat)
    requires i <= MAX_INT64
    ensures IndexOf(Itoa(i)) == Some(i)
  {
    AtoiReadsPrinted(i, 0);
  }

  lemma ComposedAt<P>(c: (P, P) -> P, u: map<string, P>, v: map<string, P>)
    ensures DistinctIndices(Compose(c, u, v))
    ensures Indices(Compose(c, u, v)) == Indices(u) + Indices(v)
    ensures forall i: nat :: PatchAt(Compose(c, u, v), i) == JoinedAt(c, u, v, i)
  {
    hide IndexOf, Indices, Itoa;
    var w := Compose(c, u, v);
    var both := Indices(u) + Indices(v);
    IndicesFitInt64(u);
    IndicesFitInt64(v);
    forall k | k in w
      ensures IndexOf(k).Some? && IndexOf(k).value in both && k == Itoa(IndexOf(k).value)
    {
      var i :| i in both && Itoa(i) == k;
      ItoaNames(i);
    }
    forall i: nat
      ensures i in Indices(w) <==> i in both
      ensures PatchAt(w, i) == JoinedAt(c, u, v, i)
    {
      InIndices(w, i);
      if i in both {
        ItoaNames(i);
        PatchAtKey(w, Itoa(i));
      }
    }
  }

  lemma InIndices<P>(u: map<string, P>, i: nat)
    ensures i in Indices(u) <==> exists k :: k in u && IndexOf(k) == Some(i)
  {
  }

  /** The patches that meet at one index act one after the other like the joined patch. */
  ghost predicate Acts<T(!new), P>(e: Element<T, P>, c: (P, P) -> P, u: map<string, P>, v: map<string, P>) {
    forall t, k, l :: k in u && l in v && IndexOf(k).Some? && IndexOf(k) == IndexOf(l) ==>
                        e.apply(e.apply(t, u[k]), v[l]) == e.apply(t, c(u[k], v[l]))
  }

  /** Both updates wrap, neither does, or one of them names nothing. */
  ghost predicate GrowthAgrees<P, Q>(u: map<string, P>, v: map<string, Q>) {
    (Overflows(u) <==> Overflows(v)) || Indices(u) == {} || Indices(v) == {}
  }

  ghost predicate ComposesOn<T, P>(e: Element<T, P>, c: (P, P) -> P, u: map<string, P>, v: map<string, P>, s: seq<T>) {
    Merged(e, Merged(e, s, u), v) == Merged(e, s, Compose(c, u, v))
  }

  lemma MaxOfUnion(a: set<nat>, b: set<nat>)
    ensures MaxOf(a + b) == if MaxOf(a) > MaxOf(b) then MaxOf(a) else MaxOf(b)
  {
    hide MaxOf;
    var m := MaxOf(a + b);
    if a != {} { assert MaxOf(a) in a + b; }
    if b != {} { assert MaxOf(b) in a + b; }
    if a + b == {} { assert a == {} && b == {}; }
  }

  lemma LengthOfComposition<P>(c: (P, P) -> P, u: map<string, P>, v: map<string, P>, len: nat)
    ensures GrowthAgrees(u, v) ==> NewLength(NewLength(len, u), v) == NewLength(len, Compose(c, u, v))
    ensures !GrowthAgrees(u, v) ==> NewLength(NewLength(0, u), v) != NewLength(0, Compose(c, u, v))
  {
    hide NewLength, Indices, Compose, MaxOf;
    var w := Compose(c, u, v);
    ComposedAt(c, u, v);
    MaxOfUnion(Indices(u), Indices(v));
    LengthAfter(len, u);
    LengthAfter(NewLength(len, u), v);
    LengthAfter(len, w);
    LengthAfter(0, u);
    LengthAfter(NewLength(0, u), v);
    LengthAfter(0, w);
  }

  /** Two updates one after the other are one update, on every slice, exactly when their growth agrees. */
  lemma MergingIsAnAction<T(!new), P(!new)>(e: Element<T, P>, c: (P, P) -> P, u: map<string, P>, v: map<string, P>)
    requires DistinctIndices(u) && DistinctIndices(v) && Acts(e, c, u, v)
    ensures (forall s :: ComposesOn(e, c, u, v, s)) <==> GrowthAgrees(u, v)
  {
    hide NewLength, Compose, Overflows, Acts, DistinctIndices;
    if GrowthAgrees(u, v) {
      forall s
        ensures ComposesOn(e, c, u, v, s)
      {
        ComposesWhenGrowthAgrees(e, c, u, v, s);
      }
    } else {
      LengthOfComposition(c, u, v, 0);
      var nothing: seq<T> := [];
      assert !ComposesOn(e, c, u, v, nothing);
    }
  }

  lemma ComposesWhenGrowthAgrees<T(!new), P>(
    e: Element<T, P>, c: (P, P) -> P, u: map<string, P>, v: map<string, P>, s: seq<T>)
    requires DistinctIndices(u) && DistinctIndices(v) && Acts(e, c, u, v) && GrowthAgrees(u, v)
    ensures ComposesOn(e, c, u, v, s)
  {
    hide NewLength, Compose, GrowthAgrees, Acts, DistinctIndices, PatchAt;
    LengthOfComposition(c, u, v, |s|);
    ComposedAt(c, u, v);
    var once, twice := Merged(e, s, u), Merged(e, Merged(e, s, u), v);
    forall i | 0 <= i < |twice|
      ensures twice[i] == Merged(e, s, Compose(c, u, v))[i]
    {
      var t := if i < |s| then s[i] else e.zero;
      LayTwice(e, c, u, v, t, i);
      if i >= |once| { UnnamedBeyondLength(u, |s|, v, i); }
    }
  }

  lemma LayTwice<T(!new), P>(e: Element<T, P>, c: (P, P) -> P, u: map<string, P>, v: map<string, P>, t: T, i: nat)
    requires Acts(e, c, u, v)
    ensures Lay(e, Lay(e, t, PatchAt(u, i)), PatchAt(v, i)) == Lay(e, t, JoinedAt(c, u, v, i))
  {
    hide PatchAt, IndexOf;
    var p, q := PatchAt(u, i), PatchAt(v, i);
    if p.Some? && q.Some? {
      var k :| k in u && Names(k, i) && u[k] == p.value;
      var l :| l in v && Names(l, i) && v[l] == q.value;
      assert e.apply(e.apply(t, u[k]), v[l]) == e.apply(t, c(u[k], v[l]));
    }
  }

  /** An index the first update leaves outside the slice, and the second brings inside, was not named by the first. */
  lemma UnnamedBeyondLength<P>(u: map<string, P>, len: nat, v: map<string, P>, i: nat)
    requires GrowthAgrees(u, v) && NewLength(len, u) <= i < NewLength(NewLength(len, u), v)
    ensures PatchAt(u, i).None?
  {
    hide NewLength, Indices;
    LengthAfter(len, u);
    LengthAfter(NewLength(len, u), v);
  }

  // ---- Replace and Merge ----

  /** The two forms in which the feed sends a collection: the whole array, or a map of patches. */
  datatype SliceUpdate<T, P> = Replace(items: seq<T>) | Merge(patches: map<string, P>)

  ghost function Updated<T, P>(e: Element<T, P>, s: seq<T>, up: SliceUpdate<T, P>): seq<T> {
    match up
    case Replace(items) => items
    case Merge(u) => Merged(e, s, u)
  }

  /** The update gives one result whatever the order of the range. */
  ghost predicate Definite<T, P>(up: SliceUpdate<T, P>) {
    up.Merge? ==> DistinctIndices(up.patches)
  }

  ghost function UpdatedBy<T, P>(e: Element<T, P>, s: seq<T>, ups: seq<SliceUpdate<T, P>>): seq<T> {
    if ups == [] then s else Updated(e, UpdatedBy(e, s, ups[..|ups| - 1]), ups[|ups| - 1])
  }

  ghost function Then<T, P>(e: Element<T, P>, c: (P, P) -> P, a: SliceUpdate<T, P>, b: SliceUpdate<T, P>)
    : SliceUpdate<T, P>
  {
    match (a, b)
    case (_, Replace(_)) => b
    case (Replace(items), Merge(v)) => Replace(Merged(e, items, v))
    case (Merge(u), Merge(v)) => Merge(Compose(c, u, v))
  }

  ghost function Collapsed<T, P>(e: Element<T, P>, c: (P, P) -> P, ups: seq<SliceUpdate<T, P>>): SliceUpdate<T, P> {
    if ups == [] then Merge(map[]) else Then(e, c, Collapsed(e, c, ups[..|ups| - 1]), ups[|ups| - 1])
  }

  /** Joining patches is applying them in turn. */
  ghost predicate Joins<T(!new), P(!new)>(e: Element<T, P>, c: (P, P) -> P) {
    forall t, p, q :: e.apply(e.apply(t, p), q) == e.apply(t, c(p, q))
  }

  predicate HasReplace<T, P>(ups: seq<SliceUpdate<T, P>>) {
    exists k :: 0 <= k < |ups| && ups[k].Replace?
  }

  ghost predicate UniformGrowth<T, P>(ups: seq<SliceUpdate<T, P>>) {
    forall a, b :: 0 <= a < |ups| && 0 <= b < |ups| && ups[a].Merge? && ups[b].Merge?
                   ==> GrowthAgrees(ups[a].patches, ups[b].patches)
  }

  ghost predicate CollapsesOn<T, P>(e: Element<T, P>, c: (P, P) -> P, s: seq<T>, ups: seq<SliceUpdate<T, P>>) {
    UpdatedBy(e, s, ups) == Updated(e, s, Collapsed(e, c, ups))
  }

  lemma {:induction false} CollapsedIsDefinite<T, P>(e: Element<T, P>, c: (P, P) -> P, ups: seq<SliceUpdate<T, P>>)
    requires forall k :: 0 <= k < |ups| ==> Definite(ups[k])
    ensures Definite(Collapsed(e, c, ups))
    ensures Collapsed(e, c, ups).Replace? <==> HasReplace(ups)
  {
    hide Merged, Compose, DistinctIndices;
    if ups == [] {
      NothingNamed<P>();
    } else {
      var n := |ups| - 1;
      CollapsedIsDefinite(e, c, ups[..n]);
      assert HasReplace(ups) <==> HasReplace(ups[..n]) || ups[n].Replace? by { ReplaceExtends(ups); }
      var a := Collapsed(e, c, ups[..n]);
      if a.Merge? && ups[n].Merge? {
        ComposedAt(c, a.patches, ups[n].patches);
      }
    }
  }

  lemma ReplaceExtends<T, P>(ups: seq<SliceUpdate<T, P>>)
    requires ups != []
    ensures HasReplace(ups) <==> HasReplace(ups[..|ups| - 1]) || ups[|ups| - 1].Replace?
  {
    var front := ups[..|ups| - 1];
    if HasReplace(front) {
      var k :| 0 <= k < |front| && front[k].Replace?;
      assert ups[k].Replace?;
    }
    if HasReplace(ups) && ups[|ups| - 1].Merge? {
      var k :| 0 <= k < |ups| && ups[k].Replace?;
      assert front[k].Replace?;
    }
  }

  /** The composition of patch updates names what any of them names. */
  lemma {:induction false} CollapsedNames<T, P>(e: Element<T, P>, c: (P, P) -> P, ups: seq<SliceUpdate<T, P>>, i: nat)
    requires !HasReplace(ups)
    ensures Collapsed(e, c, ups).Merge?
    ensures i in Indices(Collapsed(e, c, ups).patches)
            <==> exists k :: 0 <= k < |ups| && ups[k].Merge? && i in Indices(ups[k].patches)
  {
    hide Merged, Compose, Indices;
    if ups == [] {
      NothingNamed<P>();
    } else {
      var n := |ups| - 1;
      ReplaceExtends(ups);
      CollapsedNames(e, c, ups[..n], i);
      ComposedAt(c, Collapsed(e, c, ups[..n]).patches, ups[n].patches);
      if k :| 0 <= k < n && ups[..n][k].Merge? && i in Indices(ups[..n][k].patches) {
        assert ups[k] == ups[..n][k];
      }
      if k :| 0 <= k < n && ups[k].Merge? && i in Indices(ups[k].patches) {
        assert ups[k] == ups[..n][k];
      }
    }
  }

  /** Patch updates that agree in their growth agree with their composition. */
  lemma UniformWithCollapsed<T, P>(e: Element<T, P>, c: (P, P) -> P, ups: seq<SliceUpdate<T, P>>, v: map<string, P>)
    requires !HasReplace(ups) && forall k :: 0 <= k < |ups| && ups[k].Merge? ==> GrowthAgrees(ups[k].patches, v)
    requires UniformGrowth(ups)
    ensures Collapsed(e, c, ups).Merge? && GrowthAgrees(Collapsed(e, c, ups).patches, v)
  {
    hide Collapsed, Indices;
    CollapsedNames(e, c, ups, MAX_INT64);
    var w := Collapsed(e, c, ups).patches;
    if Indices(v) != {} && Indices(w) != {} {
      var i :| i in Indices(w);
      CollapsedNames(e, c, ups, i);
      var k :| 0 <= k < |ups| && ups[k].Merge? && i in Indices(ups[k].patches);
      if Overflows(w) {
        var l :| 0 <= l < |ups| && ups[l].Merge? && MAX_INT64 in Indices(ups[l].patches);
        assert GrowthAgrees(ups[l].patches, v);
      } else {
        assert GrowthAgrees(ups[k].patches, v);
      }
    }
  }

  lemma {:induction false} UniformUpdatesCollapse<T(!new), P(!new)>(
    e: Element<T, P>, c: (P, P) -> P, s: seq<T>, ups: seq<SliceUpdate<T, P>>)
    requires Joins(e, c) && forall k :: 0 <= k < |ups| ==> Definite(ups[k])
    requires HasReplace(ups) || UniformGrowth(ups)
    ensures CollapsesOn(e, c, s, ups)
  {
    hide Merged, Compose, GrowthAgrees, DistinctIndices, HasReplace;
    if ups == [] {
      EmptyUpdate(e, s);
    } else if ups[|ups| - 1].Merge? {
      var n := |ups| - 1;
      ReplaceExtends(ups);
      assert UniformGrowth(ups) ==> UniformGrowth(ups[..n]);
      UniformUpdatesCollapse(e, c, s, ups[..n]);
      CollapsedIsDefinite(e, c, ups[..n]);
      var a, b := Collapsed(e, c, ups[..n]), ups[n];
      if a.Merge? {
        UniformWithCollapsed(e, c, ups[..n], b.patches);
        assert Acts(e, c, a.patches, b.patches);
        ComposesWhenGrowthAgrees(e, c, a.patches, b.patches, s);
      }
    }
  }

  /** Patch updates never make a slice shorter. */
  lemma {:induction false} LengthsGrow<T, P>(e: Element<T, P>, s: seq<T>, ups: seq<SliceUpdate<T, P>>, k: nat)
    requires k <= |ups| && forall j :: 0 <= j < |ups| ==> ups[j].Merge?
    ensures |UpdatedBy(e, s, ups)| >= |UpdatedBy(e, s, ups[..k])|
  {
    hide NewLength;
    if k == |ups| {
      assert ups[..k] == ups;
    } else {
      var n := |ups| - 1;
      LengthsGrow(e, s, ups[..n], k);
      assert ups[..n][..k] == ups[..k];
    }
  }

  /** Where one patch update wraps and another does not, the empty slice tells their sequence from their composition. */
  lemma MixedGrowthIsSeen<T(!new), P(!new)>(e: Element<T, P>, c: (P, P) -> P, ups: seq<SliceUpdate<T, P>>, a: nat, b: nat)
    requires !HasReplace(ups) && a < |ups| && b < |ups| && ups[a].Merge? && ups[b].Merge?
    requires Overflows(ups[a].patches) && !Overflows(ups[b].patches) && Indices(ups[b].patches) != {}
    ensures !CollapsesOn(e, c, [], ups)
  {
    hide Indices, Collapsed, NewLength, UpdatedBy;
    CollapsedNames(e, c, ups, MAX_INT64);
    var w := Collapsed(e, c, ups);
    LengthAfter(0, w.patches);
    assert |Updated(e, [], w)| == 0;
    LengthsGrow(e, [], ups, b + 1);
    var before := UpdatedBy(e, [], ups[..b]);
    assert UpdatedBy(e, [], ups[..b + 1]) == Updated(e, before, ups[b]) by { LastUpdate(e, [], ups, b); }
    LengthAfter(|before|, ups[b].patches);
    assert MaxOf(Indices(ups[b].patches)) >= 0;
  }

  lemma LastUpdate<T, P>(e: Element<T, P>, s: seq<T>, ups: seq<SliceUpdate<T, P>>, b: nat)
    requires b < |ups|
    ensures UpdatedBy(e, s, ups[..b + 1]) == Updated(e, UpdatedBy(e, s, ups[..b]), ups[b])
  {
    assert ups[..b + 1][..b] == ups[..b];
  }

  /** A sequence of updates acts, on every slice, like one update exactly when one of them replaces the whole slice or
      their growth agrees: all that name an index wrap, or none does. */
  lemma UpdatesCollapse<T(!new), P(!new)>(e: Element<T, P>, c: (P, P) -> P, ups: seq<SliceUpdate<T, P>>)
    requires Joins(e, c) && forall k :: 0 <= k < |ups| ==> Definite(ups[k])
    ensures (forall s :: CollapsesOn(e, c, s, ups)) <==> HasReplace(ups) || UniformGrowth(ups)
  {
    hide Joins, Definite, CollapsesOn, Indices;
    if HasReplace(ups) || UniformGrowth(ups) {
      forall s
        ensures CollapsesOn(e, c, s, ups)
      {
        UniformUpdatesCollapse(e, c, s, ups);
      }
    } else {
      var a, b :| 0 <= a < |ups| && 0 <= b < |ups| && ups[a].Merge? && ups[b].Merge?
        && !GrowthAgrees(ups[a].patches, ups[b].patches);
      if Overflows(ups[a].patches) {
        MixedGrowthIsSeen(e, c, ups, a, b);
      } else {
        MixedGrowthIsSeen(e, c, ups, b, a);
      }
    }
  }

  lemma NothingNamed<P>()
    ensures DistinctIndices<P>(map[]) && !Overflows<P>(map[]) && Indices<P>(map[]) == {}
  {
  }

  lemma EmptyUpdate<T, P>(e: Element<T, P>, s: seq<T>)
    ensures Merged(e, s, map[]) == s
  {
    NothingNamed<P>();
    LengthAfter<P>(|s|, map[]);
  }

  lemma NoOverflowInUnion<P>(c: (P, P) -> P, u: map<string, P>, v: map<string, P>)
    requires !Overflows(u) && !Overflows(v)
    ensures !Overflows(Compose(c, u, v))
  {
    hide Compose, Indices;
    ComposedAt(c, u, v);
  }

  // ---- every slice is reachable ----

  ghost function KeysBelow(n: nat): set<string> {
    set i | 0 <= i < n :: Itoa(i)
  }

  /** The update that writes t over s: d gives the patch that turns one element into another. */
  ghost function Difference<T, P>(e: Element<T, P>, d: (T, T) -> P, s: seq<T>, t: seq<T>): map<string, P> {
    map k | k in KeysBelow(|t|) && IndexOf(k).Some? && IndexOf(k).value < |t|
      :: d(if IndexOf(k).value < |s| then s[IndexOf(k).value] else e.zero, t[IndexOf(k).value])
  }

  /** Merging the difference of two slices into the first gives the second, whenever the second is
      not shorter and every element can be patched into its successor. */
  lemma DifferenceReaches<T, P>(e: Element<T, P>, d: (T, T) -> P, s: seq<T>, t: seq<T>)
    requires |s| <= |t| <= MAX_INT64
    requires forall i :: 0 <= i < |t| ==> var b := if i < |s| then s[i] else e.zero; e.apply(b, d(b, t[i])) == t[i]
    ensures DistinctIndices(Difference(e, d, s, t))
    ensures Merged(e, s, Difference(e, d, s, t)) == t
  {
    hide IndexOf, Indices, Itoa, NewLength, MaxOf;
    var u := Difference(e, d, s, t);
    forall k | k in u
      ensures IndexOf(k).Some? && IndexOf(k).value < |t| && k == Itoa(IndexOf(k).value)
    {
      var i: nat :| i < |t| && Itoa(i) == k;
      ItoaNames(i);
    }
    forall i: nat
      ensures i in Indices(u) <==> i < |t|
      ensures i < |t| ==> PatchAt(u, i) == Some(d(if i < |s| then s[i] else e.zero, t[i]))
    {
      InIndices(u, i);
      if i < |t| {
        ItoaNames(i);
        assert Itoa(i) in u;
        PatchAtKey(u, Itoa(i));
      }
    }
    MaxIsUnique(Indices(u), |t| - 1);
    LengthAfter(|s|, u);
  }
}
