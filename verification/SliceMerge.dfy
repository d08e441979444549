/** applyMapUpdatesToSlice of model/state.go on values: a slice, a map of patches keyed by
    decimal text, and a Go range over that map, which may visit the keys in any order. */
module SliceMerge {
  import opened Wrappers
  import opened Decimal

  /** What the merge needs to know of an element type: its zero value and how json.Unmarshal
      lays a decoded patch over an existing element. */
  datatype Element<!T, !P> = Element(zero: T, apply: (T, P) -> T)

  /** The index a key names; None for text that is no integer and for negative integers. */
  function IndexOf(key: string): Option<nat> {
    var a := Atoi(key);
    if a.Some? && a.value >= 0 then Some(a.value as nat) else None
  }

  ghost function Indices<P>(u: map<string, P>): set<nat> {
    set k | k in u && IndexOf(k).Some? :: IndexOf(k).value
  }

  predicate Names(key: string, i: nat) {
    IndexOf(key) == Some(i)
  }

  /** A key names an index exactly when it is a numeral of it, with or without a sign and leading zeros. */
  lemma KeyNamesIff(key: string, i: nat)
    ensures Names(key, i) <==> exists digits :: Writes(key, digits, i)
  {
    hide Writes, Atoi;
    AtoiIff(key, i);
  }

  lemma TwoKeysOneIndex()
    ensures IndexOf("1") == Some(1) == IndexOf("01")
  {
    AtoiOfNumeral("1");
    AtoiOfNumeral("01");
    assert "01"[..1] == "0" && "01"[..1][..0] == "" && "1"[..0] == "";
    assert DigitsValue("01") == DigitsValue("0") * 10 + 1;
  }

  ghost predicate DistinctIndices<P>(u: map<string, P>) {
    forall k, l :: k in u && l in u && IndexOf(k).Some? && IndexOf(k) == IndexOf(l) ==> k == l
  }

  /** The largest number in s, or -1. */
  ghost function MaxOf(s: set<nat>): (m: int)
    ensures s == {} ==> m == -1
    ensures s != {} ==> m in s && forall x :: x in s ==> x <= m
  {
    if s == {} then -1
    else
      var x :| x in s;
      var m := MaxOf(s - {x});
      assert forall y :: y in s ==> y == x || y in s - {x};
      if m > x then m else x
  }

  /** maxIndex + 1 in 64-bit arithmetic: the key 9223372036854775807 wraps and asks for no growth. */
  function Grown(len: nat, maxIndex: int): (n: nat)
    ensures n >= len
  {
    var required := Wrap64(maxIndex + 1);
    if required > len then required else len
  }

  ghost function NewLength<P>(len: nat, u: map<string, P>): (n: nat)
    ensures n >= len
  {
    Grown(len, MaxOf(Indices(u)))
  }

  function Extend<T>(s: seq<T>, zero: T, n: nat): (r: seq<T>)
    requires n >= |s|
    ensures |r| == n
  {
    s + seq(n - |s|, _ => zero)
  }

  // ---- one execution: the entries of the map in the order the range visited them ----

  function Step<T, P>(e: Element<T, P>, s: seq<T>, key: string, p: P): (r: seq<T>)
    ensures |r| == |s|
  {
    var i := IndexOf(key);
    if i.Some? && i.value < |s| then s[i.value := e.apply(s[i.value], p)] else s
  }

  function RunTrace<T, P>(e: Element<T, P>, s: seq<T>, trace: seq<(string, P)>): (r: seq<T>)
    ensures |r| == |s|
  {
    if trace == [] then s
    else
      var n := |trace| - 1;
      Step(e, RunTrace(e, s, trace[..n]), trace[n].0, trace[n].1)
  }

  /** trace lists every entry of u exactly once. */
  ghost predicate Linearizes<P>(trace: seq<(string, P)>, u: map<string, P>) {
    && (forall i, j :: 0 <= i < j < |trace| ==> trace[i].0 != trace[j].0)
    && (forall j :: 0 <= j < |trace| ==> trace[j].0 in u && u[trace[j].0] == trace[j].1)
    && (forall k :: k in u ==> exists j :: 0 <= j < |trace| && trace[j].0 == k)
  }

  ghost function Execute<T, P>(e: Element<T, P>, s: seq<T>, u: map<string, P>, trace: seq<(string, P)>): seq<T> {
    RunTrace(e, Extend(s, e.zero, NewLength(|s|, u)), trace)
  }

  // ---- the meaning, with no order in it ----

  ghost function PatchAt<P>(u: map<string, P>, i: nat): (p: Option<P>)
    ensures p.None? <==> i !in Indices(u)
    ensures p.Some? ==> exists k :: k in u && Names(k, i) && u[k] == p.value
  {
    if i in Indices(u) then
      var k :| k in u && Names(k, i);
      Some(u[k])
    else None
  }

  ghost function Lay<T, P>(e: Element<T, P>, t: T, p: Option<P>): T {
    if p.Some? then e.apply(t, p.value) else t
  }

  /** Every index of the grown slice receives the patch that names it; gaps hold the zero value. */
  ghost function Merged<T, P>(e: Element<T, P>, s: seq<T>, u: map<string, P>): (r: seq<T>)
    ensures |r| == NewLength(|s|, u)
  {
    var base := Extend(s, e.zero, NewLength(|s|, u));
    seq(|base|, i requires 0 <= i < |base| => Lay(e, base[i], PatchAt(u, i)))
  }

  lemma PatchAtKey<P>(u: map<string, P>, k: string)
    requires DistinctIndices(u) && k in u && IndexOf(k).Some?
    ensures PatchAt(u, IndexOf(k).value) == Some(u[k])
  {
    assert Names(k, IndexOf(k).value);
  }

  /** Position i after a trace whose keys name distinct indices. */
  lemma {:induction false} TraceAt<T, P>(e: Element<T, P>, s: seq<T>, trace: seq<(string, P)>, i: nat, j: int)
    requires i < |s|
    requires -1 <= j < |trace|
    requires j >= 0 ==> Names(trace[j].0, i)
    requires forall m :: 0 <= m < |trace| && m != j ==> !Names(trace[m].0, i)
    ensures RunTrace(e, s, trace)[i] == if j >= 0 then e.apply(s[i], trace[j].1) else s[i]
  {
    if trace != [] {
      var n := |trace| - 1;
      TraceAt(e, s, trace[..n], i, if j == n then -1 else j);
    }
  }

  lemma TracedPosition<T, P>(e: Element<T, P>, s: seq<T>, u: map<string, P>, trace: seq<(string, P)>, i: nat)
    requires Linearizes(trace, u) && DistinctIndices(u) && i < |s|
    ensures RunTrace(e, s, trace)[i] == Lay(e, s[i], PatchAt(u, i))
  {
    hide IndexOf, RunTrace, PatchAt;
    if i in Indices(u) {
      var k :| k in u && IndexOf(k).Some? && IndexOf(k).value == i;
      PatchAtKey(u, k);
      var j :| 0 <= j < |trace| && trace[j].0 == k;
      TraceAt(e, s, trace, i, j);
    } else {
      TraceAt(e, s, trace, i, -1);
    }
  }

  /** Iteration order is irrelevant when the keys name distinct indices: every
      execution yields the closed form. */
  lemma OrderIsIrrelevant<T, P>(e: Element<T, P>, s: seq<T>, u: map<string, P>, trace: seq<(string, P)>)
    requires Linearizes(trace, u) && DistinctIndices(u)
    ensures Execute(e, s, u, trace) == Merged(e, s, u)
  {
    hide NewLength, RunTrace, PatchAt, Linearizes, DistinctIndices, Lay;
    var base := Extend(s, e.zero, NewLength(|s|, u));
    forall i | 0 <= i < |base|
      ensures RunTrace(e, base, trace)[i] == Merged(e, s, u)[i]
    {
      TracedPosition(e, base, u, trace, i);
    }
  }

  lemma RunNone<T, P>(e: Element<T, P>, s: seq<T>)
    ensures RunTrace(e, s, []) == s
  {
  }

  lemma RunLast<T, P>(e: Element<T, P>, s: seq<T>, front: seq<(string, P)>, x: (string, P))
    ensures RunTrace(e, s, front + [x]) == Step(e, RunTrace(e, s, front), x.0, x.1)
  {
    assert (front + [x])[..|front|] == front;
  }

  /** The loops of applyMapUpdatesToSlice, the range visiting the keys in whatever order it likes. */
  method MergeUpdates<T, P>(e: Element<T, P>, s: seq<T>, u: map<string, P>)
    returns (r: seq<T>, ghost trace: seq<(string, P)>)
    ensures Linearizes(trace, u) && r == Execute(e, s, u, trace)
    ensures DistinctIndices(u) ==> r == Merged(e, s, u)
  {
    hide IndexOf;
    var maxIndex := LargestIndex(u);
    r := s;
    if |r| < Grown(|r|, maxIndex) {
      r := Extend(r, e.zero, Grown(|r|, maxIndex));
    }
    ghost var base := r;
    assert base == Extend(s, e.zero, NewLength(|s|, u));
    trace := [];
    var todo := u.Keys;
    while todo != {}
      invariant todo <= u.Keys
      invariant Linearizes(trace, u - todo)
      invariant r == RunTrace(e, base, trace)
      decreases todo
    {
      var key :| key in todo;
      var index := IndexOf(key);
      RunLast(e, base, trace, (key, u[key]));
      if index.Some? && index.value < |r| {
        r := r[index.value := e.apply(r[index.value], u[key])];
      }
      TraceGrows(u, todo, trace, key);
      trace := trace + [(key, u[key])];
      todo := todo - {key};
    }
    assert u - {} == u;
    if DistinctIndices(u) {
      OrderIsIrrelevant(e, s, u, trace);
    }
  }

  lemma TraceGrows<P>(u: map<string, P>, todo: set<string>, trace: seq<(string, P)>, key: string)
    requires todo <= u.Keys && key in todo && Linearizes(trace, u - todo)
    ensures Linearizes(trace + [(key, u[key])], u - (todo - {key}))
  {
    var next := trace + [(key, u[key])];
    forall k | k in u - (todo - {key})
      ensures exists j :: 0 <= j < |next| && next[j].0 == k
    {
      if k == key {
        assert next[|trace|].0 == k;
      } else {
        assert k in u - todo;
        var j :| 0 <= j < |trace| && trace[j].0 == k;
        assert next[j].0 == k;
      }
    }
  }

  /** The first loop: the largest index any key names, -1 when none does. */
  method LargestIndex<P>(u: map<string, P>) returns (maxIndex: int)
    ensures maxIndex == MaxOf(Indices(u))
  {
    hide MaxOf;
    maxIndex := -1;
    var todo := u.Keys;
    while todo != {}
      invariant todo <= u.Keys
      invariant maxIndex >= -1
      invariant maxIndex >= 0 ==> maxIndex in Indices(u)
      invariant forall k :: k in u.Keys - todo && IndexOf(k).Some? ==> IndexOf(k).value <= maxIndex
      decreases todo
    {
      var k :| k in todo;
      var idx := Atoi(k);
      if idx.Some? && idx.value > maxIndex {
        maxIndex := idx.value;
        assert IndexOf(k) == Some(maxIndex);
      }
      todo := todo - {k};
    }
    MaxIsUnique(Indices(u), maxIndex);
  }

  lemma MaxIsUnique(s: set<nat>, m: int)
    requires m >= -1 && (m >= 0 ==> m in s)
    requires forall x :: x in s ==> x <= m
    ensures m == MaxOf(s)
  {
  }
}
