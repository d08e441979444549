/** Keys that collide, such as "1" and "01": exactly when the order in which Go visits the
    map still cannot be seen in the merged slice. */
module MergeOrder {
  import opened SliceMerge

  ghost predicate CommuteAt<T, P>(e: Element<T, P>, t: T, p: P, q: P) {
    e.apply(e.apply(t, p), q) == e.apply(e.apply(t, q), p)
  }

  /** Any two entries of u that name one index may be applied in either order. */
  ghost predicate CollisionsCommute<T(!new), P>(e: Element<T, P>, u: map<string, P>) {
    forall k, l, t :: k in u && l in u && k != l && IndexOf(k).Some? && IndexOf(k) == IndexOf(l)
                      ==> CommuteAt(e, t, u[k], u[l])
  }

  ghost predicate OrderIndependent<T(!new), P(!new)>(e: Element<T, P>, u: map<string, P>) {
    forall s, a, b :: Linearizes(a, u) && Linearizes(b, u) ==> Execute(e, s, u, a) == Execute(e, s, u, b)
  }

  /** Whether two patches commute is a matter of the patches, not of the element under them. */
  ghost predicate Decisive<T(!new), P(!new)>(e: Element<T, P>) {
    forall t, t', p, q :: CommuteAt(e, t, p, q) ==> CommuteAt(e, t', p, q)
  }

  ghost predicate EntriesCommute<T(!new), P>(e: Element<T, P>, x: (string, P), y: (string, P)) {
    IndexOf(x.0).Some? && IndexOf(x.0) == IndexOf(y.0) ==> forall t :: CommuteAt(e, t, x.1, y.1)
  }

  lemma StepsCommute<T(!new), P>(e: Element<T, P>, s: seq<T>, x: (string, P), y: (string, P))
    requires EntriesCommute(e, x, y)
    ensures Step(e, Step(e, s, x.0, x.1), y.0, y.1) == Step(e, Step(e, s, y.0, y.1), x.0, x.1)
  {
    hide IndexOf;
    var i, j := IndexOf(x.0), IndexOf(y.0);
    if i.Some? && i == j && i.value < |s| {
      assert CommuteAt(e, s[i.value], x.1, y.1);
    }
  }

  function Without<X>(b: seq<X>, j: nat): seq<X>
    requires j < |b|
  {
    b[..j] + b[j + 1..]
  }

  lemma {:induction false} MoveToEnd<T(!new), P>(e: Element<T, P>, s: seq<T>, b: seq<(string, P)>, j: nat)
    requires j < |b|
    requires forall m :: 0 <= m < |b| && m != j ==> EntriesCommute(e, b[j], b[m])
    ensures RunTrace(e, s, b) == RunTrace(e, s, Without(b, j) + [b[j]])
  {
    hide EntriesCommute, Step, RunTrace;
    var n := |b| - 1;
    assert b == b[..n] + [b[n]];
    if j < n {
      var front := Without(b[..n], j);
      MoveToEnd(e, s, b[..n], j);
      RunLast(e, s, b[..n], b[n]);
      RunLast(e, s, front, b[j]);
      RunLast(e, s, front, b[n]);
      RunLast(e, s, front + [b[n]], b[j]);
      assert Without(b, j) == front + [b[n]];
      StepsCommute(e, RunTrace(e, s, front), b[j], b[n]);
    } else {
      assert Without(b, j) == b[..n];
    }
  }

  ghost predicate SameEntries<P(!new)>(a: seq<(string, P)>, b: seq<(string, P)>) {
    && |a| == |b|
    && (forall i, j :: 0 <= i < j < |a| ==> a[i] != a[j])
    && (forall i, j :: 0 <= i < j < |b| ==> b[i] != b[j])
    && (forall x :: x in a <==> x in b)
  }

  lemma {:induction false} ReorderingIsInvisible<T(!new), P(!new)>(
    e: Element<T, P>, s: seq<T>, a: seq<(string, P)>, b: seq<(string, P)>)
    requires SameEntries(a, b)
    requires forall x, y :: x in a && y in a && x != y ==> EntriesCommute(e, x, y)
    ensures RunTrace(e, s, a) == RunTrace(e, s, b)
    decreases |a|
  {
    hide EntriesCommute, RunTrace, Step, SameEntries;
    if a == [] {
      SameLength(a, b);
    } else {
      var n := |a| - 1;
      var j := FoundIn(a, b);
      var b' := Without(b, j);
      MoveToEnd(e, s, b, j);
      DropSame(a, b, j);
      ReorderingIsInvisible(e, s, a[..n], b');
      assert a == a[..n] + [a[n]];
      RunLast(e, s, a[..n], a[n]);
      RunLast(e, s, b', b[j]);
    }
  }

  lemma SameLength<P(!new)>(a: seq<(string, P)>, b: seq<(string, P)>)
    requires SameEntries(a, b)
    ensures |a| == |b|
  {
  }

  /** Where the last entry of a is in b; all others of b are other entries of a. */
  lemma FoundIn<P(!new)>(a: seq<(string, P)>, b: seq<(string, P)>) returns (j: nat)
    requires SameEntries(a, b) && a != []
    ensures j < |b| && b[j] == a[|a| - 1]
    ensures forall m :: 0 <= m < |b| ==> b[m] in a
    ensures forall m :: 0 <= m < |b| && m != j ==> b[m] != b[j]
  {
    assert a[|a| - 1] in b;
    j :| 0 <= j < |b| && b[j] == a[|a| - 1];
    assert forall m :: 0 <= m < |b| ==> b[m] in b;
  }

  lemma DropSame<P(!new)>(a: seq<(string, P)>, b: seq<(string, P)>, j: nat)
    requires SameEntries(a, b) && a != [] && j < |b| && b[j] == a[|a| - 1]
    ensures SameEntries(a[..|a| - 1], Without(b, j))
  {
    var n := |a| - 1;
    var b' := Without(b, j);
    forall x
      ensures x in a[..n] <==> x in b'
    {
      if x in a[..n] {
        assert x in b && x != b[j];
      }
      if x in b' {
        assert x in a && x != a[n];
      }
    }
  }

  lemma LinearizationsHaveSameEntries<P(!new)>(u: map<string, P>, a: seq<(string, P)>, b: seq<(string, P)>)
    requires Linearizes(a, u) && Linearizes(b, u)
    ensures SameEntries(a, b)
  {
    EntriesOf(u, a);
    EntriesOf(u, b);
    assert forall x :: x in a <==> x in b;
    LengthOf(u, a);
    LengthOf(u, b);
  }

  lemma EntriesOf<P(!new)>(u: map<string, P>, a: seq<(string, P)>)
    requires Linearizes(a, u)
    ensures forall x: (string, P) :: x in a <==> x.0 in u && u[x.0] == x.1
  {
    forall x: (string, P) | x.0 in u && u[x.0] == x.1
      ensures x in a
    {
      var j :| 0 <= j < |a| && a[j].0 == x.0;
      assert a[j] == x;
    }
  }

  lemma {:induction false} LengthOf<P(!new)>(u: map<string, P>, a: seq<(string, P)>)
    requires Linearizes(a, u)
    ensures |a| == |u.Keys|
    decreases |a|
  {
    if a == [] {
      assert u.Keys == {};
    } else {
      var n := |a| - 1;
      var rest := u - {a[n].0};
      assert rest.Keys == u.Keys - {a[n].0};
      forall k | k in rest
        ensures exists j :: 0 <= j < n && a[..n][j].0 == k
      {
        var j :| 0 <= j < |a| && a[j].0 == k;
        assert a[..n][j].0 == k;
      }
      LengthOf(rest, a[..n]);
    }
  }

  lemma AppendEntry<P(!new)>(u: map<string, P>, b: seq<(string, P)>, k: string)
    requires k in u && Linearizes(b, u - {k})
    ensures Linearizes(b + [(k, u[k])], u)
  {
    var a := b + [(k, u[k])];
    forall l | l in u
      ensures exists j :: 0 <= j < |a| && a[j].0 == l
    {
      if l == k {
        assert a[|b|].0 == l;
      } else {
        assert l in u - {k};
        var j :| 0 <= j < |b| && b[j].0 == l;
        assert a[j].0 == l;
      }
    }
  }

  lemma {:induction false} SomeLinearization<P(!new)>(u: map<string, P>) returns (a: seq<(string, P)>)
    ensures Linearizes(a, u)
    decreases |u|
  {
    if u == map[] {
      a := [];
    } else {
      var k :| k in u;
      var rest := u - {k};
      assert rest.Keys == u.Keys - {k};
      var b := SomeLinearization(rest);
      AppendEntry(u, b, k);
      a := b + [(k, u[k])];
    }
  }

  /** No order of the range can be told from another, for any slice, exactly when
      colliding entries commute. */
  lemma OrderIndependentIff<T(!new), P(!new)>(e: Element<T, P>, u: map<string, P>)
    requires Decisive(e)
    ensures OrderIndependent(e, u) <==> CollisionsCommute(e, u)
  {
    if CollisionsCommute(e, u) {
      CommutingCollisionsSuffice(e, u);
    }
    if OrderIndependent(e, u) {
      forall k, l, t | k in u && l in u && k != l && IndexOf(k).Some? && IndexOf(k) == IndexOf(l)
        ensures CommuteAt(e, t, u[k], u[l])
      {
        var r := CommutingCollisionsAreNeeded(e, u, k, l, t);
      }
    }
  }

  lemma CommutingCollisionsSuffice<T(!new), P(!new)>(e: Element<T, P>, u: map<string, P>)
    requires CollisionsCommute(e, u)
    ensures OrderIndependent(e, u)
  {
    hide RunTrace, NewLength, IndexOf;
    forall s, a, b | Linearizes(a, u) && Linearizes(b, u)
      ensures Execute(e, s, u, a) == Execute(e, s, u, b)
    {
      LinearizationsHaveSameEntries(u, a, b);
      EntriesOf(u, a);
      forall x, y | x in a && y in a && x != y
        ensures EntriesCommute(e, x, y)
      {
        assert x.0 != y.0;
      }
      ReorderingIsInvisible(e, Extend(s, e.zero, NewLength(|s|, u)), a, b);
    }
  }

  /** Two colliding entries commute at some element: the one all others leave of t. */
  lemma CommutingCollisionsAreNeeded<T(!new), P(!new)>(e: Element<T, P>, u: map<string, P>, k: string, l: string, t: T)
    returns (element: T)
    requires OrderIndependent(e, u)
    requires k in u && l in u && k != l && IndexOf(k).Some? && IndexOf(k) == IndexOf(l)
    ensures CommuteAt(e, element, u[k], u[l])
  {
    hide NewLength, IndexOf, RunTrace, Step, Linearizes;
    var i := IndexOf(k).value;
    var rest := SomeLinearization(u - {k, l});
    var x, y := (k, u[k]), (l, u[l]);
    var a, b := rest + [x] + [y], rest + [y] + [x];
    LastTwo(u, rest, k, l);
    assert u - {k, l} == u - {l, k};
    LastTwo(u, rest, l, k);
    var s := seq(i + 1, _ => t);
    var base := Extend(s, e.zero, NewLength(|s|, u));
    var r := RunTrace(e, base, rest);
    RunLast(e, base, rest, x);
    RunLast(e, base, rest, y);
    RunLast(e, base, rest + [x], y);
    RunLast(e, base, rest + [y], x);
    assert Execute(e, s, u, a) == Execute(e, s, u, b);
    TwoSteps(e, r, x, y, i);
    TwoSteps(e, r, y, x, i);
    element := r[i];
  }

  lemma TwoSteps<T, P>(e: Element<T, P>, r: seq<T>, x: (string, P), y: (string, P), i: nat)
    requires i < |r| && Names(x.0, i) && Names(y.0, i)
    ensures Step(e, Step(e, r, x.0, x.1), y.0, y.1)[i] == e.apply(e.apply(r[i], x.1), y.1)
  {
    hide IndexOf;
  }

  lemma LastTwo<P(!new)>(u: map<string, P>, rest: seq<(string, P)>, k: string, l: string)
    requires k in u && l in u && k != l && Linearizes(rest, u - {k, l})
    ensures Linearizes(rest + [(k, u[k])] + [(l, u[l])], u)
  {
    hide Linearizes;
    assert u - {l} - {k} == u - {k, l};
    AppendEntry(u - {l}, rest, k);
    AppendEntry(u, rest + [(k, u[k])], l);
  }
}
