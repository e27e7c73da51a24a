/** The sweep that measures how many half-open windows hold at once (crates/vyrm-core/src/schema.rs). */
module Overlap {
  import opened Common
  import opened Keys
  import opened RuntimeModel

  datatype Window = Window(from: Millis, to: Option<Millis>) {
    predicate Valid() {
      ValidWindow(from, to)
    }

    predicate At(t: Millis) {
      ValidAtWindow(from, to, t)
    }
  }

  /** How many windows hold at an instant. */
  function Count(ws: seq<Window>, t: Millis): nat {
    if ws == [] then 0 else Count(ws[..|ws| - 1], t) + if ws[|ws| - 1].At(t) then 1 else 0
  }

  // ---- Points ----

  datatype Point = Point(at: Millis, delta: int)

  predicate PointOk(p: Point) {
    p.delta == 1 || p.delta == -1
  }

  /** Ends come before starts at one instant. */
  predicate Before(p: Point, q: Point) {
    p.at < q.at || (p.at == q.at && p.delta <= q.delta)
  }

  ghost predicate Sorted(ps: seq<Point>) {
    forall i, j :: 0 <= i < j < |ps| ==> Before(ps[i], ps[j])
  }

  /** The sum of all deltas. */
  function Sum(ps: seq<Point>): int {
    if ps == [] then 0 else Sum(ps[..|ps| - 1]) + ps[|ps| - 1].delta
  }

  /** The sum of the deltas at or before an instant. */
  function Net(ps: seq<Point>, t: Millis): int {
    if ps == [] then 0 else Net(ps[..|ps| - 1], t) + if ps[|ps| - 1].at <= t then ps[|ps| - 1].delta else 0
  }

  lemma {:induction false} NetConcat(a: seq<Point>, b: seq<Point>, t: Millis)
    ensures Net(a + b, t) == Net(a, t) + Net(b, t)
  {
    if b == [] {
      assert a + b == a;
    } else {
      var n := |b| - 1;
      assert (a + b)[..|a + b| - 1] == a + b[..n];
      NetConcat(a, b[..n], t);
    }
  }

  lemma NetOne(p: Point, t: Millis)
    ensures Net([p], t) == if p.at <= t then p.delta else 0
  {
    assert [p][..0] == [];
  }

  lemma {:induction false} NetOfEarly(ps: seq<Point>, t: Millis)
    requires forall i :: 0 <= i < |ps| ==> ps[i].at <= t
    ensures Net(ps, t) == Sum(ps)
  {
    if ps != [] { NetOfEarly(ps[..|ps| - 1], t); }
  }

  lemma {:induction false} NetOfStarts(ps: seq<Point>, t: Millis)
    requires forall i :: 0 <= i < |ps| && ps[i].at <= t ==> ps[i].delta >= 0
    ensures Net(ps, t) >= 0
  {
    if ps != [] { NetOfStarts(ps[..|ps| - 1], t); }
  }

  /** In a sorted list the points up to an instant are a prefix. */
  lemma {:induction false} CutAt(ps: seq<Point>, t: Millis) returns (k: nat)
    requires Sorted(ps)
    ensures k <= |ps| && Net(ps, t) == Sum(ps[..k])
    decreases |ps|
  {
    if ps == [] {
      k := 0;
    } else if ps[|ps| - 1].at <= t {
      k := |ps|;
      assert ps[..k] == ps;
      forall i | 0 <= i < |ps| ensures ps[i].at <= t { assert i == |ps| - 1 || Before(ps[i], ps[|ps| - 1]); }
      NetOfEarly(ps, t);
    } else {
      var front := ps[..|ps| - 1];
      k := CutAt(front, t);
      assert front[..k] == ps[..k];
    }
  }

  /** After a start, the running sum is at most the net sum at that instant: only starts are left there. */
  lemma StartBound(ps: seq<Point>, k: nat)
    requires Sorted(ps) && 0 < k <= |ps| && (forall i :: 0 <= i < |ps| ==> PointOk(ps[i])) && ps[k - 1].delta == 1
    ensures Sum(ps[..k]) <= Net(ps, ps[k - 1].at)
  {
    var t := ps[k - 1].at;
    var a, b := ps[..k], ps[k..];
    assert ps == a + b;
    NetConcat(a, b, t);
    forall i | 0 <= i < |a| ensures a[i].at <= t { assert i == k - 1 || Before(ps[i], ps[k - 1]); }
    NetOfEarly(a, t);
    forall i | 0 <= i < |b| && b[i].at <= t ensures b[i].delta >= 0 { assert Before(ps[k - 1], ps[k + i]); }
    NetOfStarts(b, t);
  }

  /** Every running sum is at most zero or at most the net sum at some instant. */
  lemma {:induction false} RunningBound(ps: seq<Point>, k: nat) returns (t: Millis)
    requires Sorted(ps) && k <= |ps| && forall i :: 0 <= i < |ps| ==> PointOk(ps[i])
    ensures Sum(ps[..k]) <= 0 || Sum(ps[..k]) <= Net(ps, t)
    decreases k
  {
    t := 0;
    if k > 0 {
      assert ps[..k][..k - 1] == ps[..k - 1];
      if ps[k - 1].delta == 1 {
        t := ps[k - 1].at;
        StartBound(ps, k);
      } else {
        t := RunningBound(ps, k - 1);
      }
    }
  }

  // ---- Building and sorting the points ----

  method InsertPoint(sorted: seq<Point>, p: Point) returns (r: seq<Point>)
    requires Sorted(sorted) && PointOk(p) && forall i :: 0 <= i < |sorted| ==> PointOk(sorted[i])
    ensures Sorted(r) && forall i :: 0 <= i < |r| ==> PointOk(r[i])
    ensures forall t :: Net(r, t) == Net(sorted, t) + if p.at <= t then p.delta else 0
  {
    var i := |sorted|;
    while i > 0 && !Before(sorted[i - 1], p)
      invariant 0 <= i <= |sorted|
      invariant forall j :: i <= j < |sorted| ==> Before(p, sorted[j])
    {
      i := i - 1;
    }
    r := sorted[..i] + [p] + sorted[i..];
    forall x, y | 0 <= x < y < |r| ensures Before(r[x], r[y]) {
      if x < i <= y && y > i { assert r[y] == sorted[y - 1]; }
      if x < i && y == i { assert x == i - 1 || Before(sorted[x], sorted[i - 1]); }
    }
    forall t ensures Net(r, t) == Net(sorted, t) + if p.at <= t then p.delta else 0 {
      assert sorted == sorted[..i] + sorted[i..];
      NetConcat(sorted[..i], sorted[i..], t);
      NetConcat(sorted[..i] + [p], sorted[i..], t);
      NetConcat(sorted[..i], [p], t);
      NetOne(p, t);
    }
  }

  /** A start for every window and an end for every closed one, in sweep order. */
  method SweepPoints(ws: seq<Window>) returns (points: seq<Point>)
    requires forall i :: 0 <= i < |ws| ==> ws[i].Valid()
    ensures Sorted(points) && forall i :: 0 <= i < |points| ==> PointOk(points[i])
    ensures forall t :: Net(points, t) == Count(ws, t)
  {
    points := [];
    for i := 0 to |ws|
      invariant Sorted(points) && forall j :: 0 <= j < |points| ==> PointOk(points[j])
      invariant forall t :: Net(points, t) == Count(ws[..i], t)
    {
      assert ws[..i + 1][..i] == ws[..i];
      points := InsertPoint(points, Point(ws[i].from, 1));
      if ws[i].to.Some? {
        points := InsertPoint(points, Point(ws[i].to.value, -1));
      }
    }
    assert ws[..|ws|] == ws;
  }

  // ---- The sweep ----

  /** `m` is the greatest number of windows that hold at one instant. */
  ghost predicate IsMaximum(ws: seq<Window>, m: nat) {
    && (forall t :: Count(ws, t) <= m)
    && (m > 0 ==> exists t :: Count(ws, t) == m)
  }

  method MaxOverlap(ws: seq<Window>) returns (m: nat)
    requires forall i :: 0 <= i < |ws| ==> ws[i].Valid()
    ensures IsMaximum(ws, m)
  {
    var points := SweepPoints(ws);
    var current: int, maximum: int := 0, 0;
    ghost var best: nat := 0;
    for i := 0 to |points|
      invariant current == Sum(points[..i]) && maximum >= 0 && best <= i
      invariant forall k :: 0 <= k <= i ==> Sum(points[..k]) <= maximum
      invariant maximum == 0 || maximum == Sum(points[..best])
    {
      assert points[..i + 1][..i] == points[..i];
      current := current + points[i].delta;
      if current > maximum {
        maximum := current;
        best := i + 1;
      }
    }
    m := maximum;
    forall t ensures Count(ws, t) <= m {
      var k := CutAt(points, t);
    }
    if m > 0 {
      var t := RunningBound(points, best);
      assert Count(ws, t) == m;
    }
  }
}
