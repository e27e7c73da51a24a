/** Point and range reads over the memtable and the segments (crates/vyrm-kv/src/database.rs, segment.rs). */
module Reads {
  import opened Common
  import opened ByteOrder
  import opened Versions
  import opened EngineInvariant
  import E = Engine

  /** The running best of the segment loop: sequence zero stands for "nothing found". */
  ghost predicate BestIs(pool: set<Version>, s: nat, bestSequence: nat, bestValue: Option<Bytes>) {
    match NewestIn(pool, s)
    case None => bestSequence == 0 && bestValue == None
    case Some(v) => bestSequence == v.sequence && bestValue == v.value
  }

  /** The newest version of the union is the newer of the two newest versions. */
  lemma NewestOfUnion(a: set<Version>, b: set<Version>, s: nat)
    requires Coherent(a + b)
    ensures NewestIn(a + b, s) ==
            var x, y := NewestIn(a, s), NewestIn(b, s);
            if x.None? || (y.Some? && y.value.sequence > x.value.sequence) then y else x
  {
    var x, y := NewestIn(a, s), NewestIn(b, s);
    NewestUnique(a + b, s, if x.None? || (y.Some? && y.value.sequence > x.value.sequence) then y else x);
  }

  lemma FindNewestIs(vs: seq<Version>, s: nat)
    requires Ordered(vs)
    ensures FindNewest(vs, s) == NewestIn(Elements(vs), s)
  {
    OrderedCoherent(vs);
    FindNewestMeaning(vs, s);
    NewestUnique(Elements(vs), s, FindNewest(vs, s));
  }

  /** A segment's version list joins the running best. */
  lemma BestStep(pool: set<Version>, vs: seq<Version>, s: nat, bestSequence: nat, bestValue: Option<Bytes>)
    requires Ordered(vs) && Coherent(pool + Elements(vs)) && BestIs(pool, s, bestSequence, bestValue)
    requires forall v :: v in vs ==> v.sequence >= 1
    ensures var found := FindNewest(vs, s);
            if found.Some? && found.value.sequence > bestSequence
            then BestIs(pool + Elements(vs), s, found.value.sequence, found.value.value)
            else BestIs(pool + Elements(vs), s, bestSequence, bestValue)
  {
    NewestOfUnion(pool, Elements(vs), s);
    FindNewestIs(vs, s);
  }

  /** What the segment loops need to know about the segments. */
  lemma SegmentStep(ds: seq<E.Descriptor>, durable: nat, i: nat, k: Bytes)
    requires SegmentsOk(ds, durable) && i < |ds|
    ensures var vs := Lookup(ds[i].segment.table, k);
            && Ordered(vs) && (forall v :: v in vs ==> v.sequence >= 1)
            && E.SegmentPool(ds[..i + 1], k) == E.SegmentPool(ds[..i], k) + Elements(vs)
            && Coherent(E.SegmentPool(ds[..i + 1], k))
  {
    PoolOk(ds, durable, k);
    PoolOfPrefix(ds, i, k);
    assert ds[i] in ds;
    SegmentList(ds[i].segment, durable, k);
  }

  lemma SegmentList(s: E.Segment, durable: nat, k: Bytes)
    requires SegmentOk(s, durable)
    ensures Ordered(Lookup(s.table, k)) && forall v :: v in Lookup(s.table, k) ==> 1 <= v.sequence <= durable
  {
  }

  lemma PoolOfPrefix(ds: seq<E.Descriptor>, i: nat, k: Bytes)
    requires i < |ds|
    ensures E.SegmentPool(ds[..i + 1], k) == E.SegmentPool(ds[..i], k) + Elements(Lookup(ds[i].segment.table, k))
    ensures E.SegmentPool(ds[..i + 1], k) <= E.SegmentPool(ds, k)
  {
    var longer := ds[..i + 1];
    forall v | v in Lookup(ds[i].segment.table, k) ensures v in E.SegmentPool(longer, k) {
      assert v in Lookup(longer[i].segment.table, k);
    }
    forall v | v in E.SegmentPool(ds[..i], k) ensures v in E.SegmentPool(longer, k) {
      var j :| 0 <= j < i && v in Lookup(ds[..i][j].segment.table, k);
      assert v in Lookup(longer[j].segment.table, k);
    }
    forall v | v in E.SegmentPool(longer, k)
      ensures v in E.SegmentPool(ds, k) && v in E.SegmentPool(ds[..i], k) + Elements(Lookup(ds[i].segment.table, k))
    {
      var j :| 0 <= j < i + 1 && v in Lookup(longer[j].segment.table, k);
      assert v in Lookup(ds[j].segment.table, k);
      if j < i { assert v in Lookup(ds[..i][j].segment.table, k); }
    }
  }

  /** The memtable is newer than every segment, so what it shows decides, and what it does not show is below it. */
  lemma MemtableFirst(e: E.Engine, k: Bytes, s: nat)
    requires Inv(e)
    ensures var found := FindNewest(Lookup(e.memtable.versions, k), s);
            NewestIn(E.Visible(e, k), s) == if found.Some? then found else NewestIn(E.SegmentPool(e.segments, k), s)
  {
    hide E.SegmentPool;
    hide Inv;
    InvMemory(e);
    InvVisible(e, k);
    var vs := Lookup(e.memtable.versions, k);
    assert Ordered(vs);
    FindNewestIs(vs, s);
    NewestOfUnion(Elements(vs), E.SegmentPool(e.segments, k), s);
  }

  // ---- Segment reads ----

  /** `Segment::get_version` of several keys. */
  method SegmentGetVersions(table: Table, keys: seq<Bytes>, s: nat) returns (found: seq<Option<Version>>)
    ensures |found| == |keys|
    ensures forall i :: 0 <= i < |keys| ==> found[i] == FindNewest(Lookup(table, keys[i]), s)
  {
    found := [];
    for i := 0 to |keys|
      invariant |found| == i
      invariant forall j :: 0 <= j < i ==> found[j] == FindNewest(Lookup(table, keys[j]), s)
    {
      found := found + [FindNewest(Lookup(table, keys[i]), s)];
    }
  }

  type VisibleMap = map<Bytes, Version>

  /** The newest version at or below `s` of every key of the range. */
  ghost predicate VisibleIn(visible: VisibleMap, table: Table, start: Bytes, end: Option<Bytes>, s: nat) {
    forall k :: (k in visible <==> InRange(k, start, end) && FindNewest(Lookup(table, k), s).Some?)
             && (k in visible ==> Some(visible[k]) == FindNewest(Lookup(table, k), s))
  }

  method VisibleFrom(table: Table, start: Bytes, end: Option<Bytes>, s: nat) returns (visible: VisibleMap)
    ensures VisibleIn(visible, table, start, end, s)
  {
    hide Less;
    visible := map[];
    var remaining := table.Keys;
    ghost var done: set<Bytes> := {};
    while remaining != {}
      invariant done + remaining == table.Keys && done !! remaining
      invariant forall k ::
                (k in visible <==> k in done && InRange(k, start, end) && FindNewest(Lookup(table, k), s).Some?)
                         && (k in visible ==> Some(visible[k]) == FindNewest(Lookup(table, k), s))
      decreases remaining
    {
      var k :| k in remaining;
      var found := FindNewest(table[k], s);
      if InRange(k, start, end) && found.Some? {
        visible := visible[k := found.value];
      }
      remaining := remaining - {k};
      done := done + {k};
    }
    assert done == table.Keys;
  }

  /** Merges one table's visible versions into the running map; the newer version of a key wins. */
  method MergeVisible(visible: VisibleMap, newer: VisibleMap) returns (merged: VisibleMap)
    ensures merged.Keys == visible.Keys + newer.Keys
    ensures forall k :: k in merged ==>
              merged[k] == if k !in visible || (k in newer && newer[k].sequence > visible[k].sequence) then newer[k]
                  else visible[k]
  {
    merged := visible;
    var remaining := newer.Keys;
    ghost var done: set<Bytes> := {};
    while remaining != {}
      invariant done + remaining == newer.Keys && done !! remaining
      invariant merged.Keys == visible.Keys + done
      invariant forall k :: k in merged ==>
                  merged[k] == if k !in visible || (k in done && newer[k].sequence > visible[k].sequence) then newer[k]
                      else visible[k]
      decreases remaining
    {
      var k :| k in remaining;
      if k !in merged || newer[k].sequence > merged[k].sequence {
        merged := merged[k := newer[k]];
      }
      remaining := remaining - {k};
      done := done + {k};
    }
    assert done == newer.Keys;
  }

  /** One key of a merge: the newer of the two newest versions is the newest of the union. */
  lemma MergedNewest(pool: set<Version>, vs: seq<Version>, s: nat)
    requires Ordered(vs) && Coherent(pool + Elements(vs))
    ensures NewestIn(pool + Elements(vs), s) ==
            var x, y := NewestIn(pool, s), FindNewest(vs, s);
            if x.None? || (y.Some? && y.value.sequence > x.value.sequence) then y else x
  {
    NewestOfUnion(pool, Elements(vs), s);
    FindNewestIs(vs, s);
  }

  type Rows = seq<(Bytes, Bytes)>

  ghost predicate RowsAscend(rows: Rows) {
    forall i, j :: 0 <= i < j < |rows| ==> Less(rows[i].0, rows[j].0)
  }

  /** The live rows of a visible map in key order; tombstones are left out. */
  method LiveRows(visible: VisibleMap) returns (rows: Rows)
    ensures RowsAscend(rows)
    ensures forall k, v :: (k, v) in rows <==> k in visible && visible[k].value == Some(v)
  {
    hide Less;
    var keys := SortedKeys(visible.Keys);
    rows := [];
    for i := 0 to |keys|
      invariant RowsAscend(rows)
      invariant forall r :: r in rows ==> r.0 in keys[..i]
      invariant forall k, v :: (k, v) in rows <==> k in keys[..i] && k in visible && visible[k].value == Some(v)
    {
      var k := keys[i];
      assert forall r :: r in rows ==> Less(r.0, k);
      assert forall x :: x in keys[..i + 1] <==> x in keys[..i] || x == k;
      if visible[k].value.Some? {
        rows := rows + [(k, visible[k].value.value)];
      }
    }
    assert keys[..|keys|] == keys;
  }

  // ---- Batched point reads ----

  type Values = seq<Option<Bytes>>

  /** Positions still to be answered from the segments: distinct indexes of the request. */
  ghost predicate Positions(unresolved: seq<nat>, n: nat) {
    && (forall p :: 0 <= p < |unresolved| ==> unresolved[p] < n)
    && (forall p, q :: 0 <= p < q < |unresolved| ==> unresolved[p] < unresolved[q])
  }

  /** Positions outside `unresolved` (and below `seen`) hold their final answers. */
  ghost predicate Answered(values: Values, keys: seq<Bytes>, unresolved: seq<nat>, seen: nat, e: E.Engine, s: nat) {
    |values| == |keys| && forall j :: 0 <= j < seen <= |keys| && j !in unresolved ==> values[j] == E.Read(e, keys[j], s)
  }

  /** The unresolved positions hold the running bests over the pools of `ds`. */
  ghost predicate BestsAre(values: Values, best: seq<nat>, keys: seq<Bytes>, unresolved: seq<nat>,
                           ds: seq<E.Descriptor>, s: nat)
    requires |values| == |keys| && |best| == |unresolved| && Positions(unresolved, |keys|)
  {
    forall p :: 0 <= p < |unresolved| ==>
        BestIs(E.SegmentPool(ds, keys[unresolved[p]]), s, best[p], values[unresolved[p]])
  }

  /** What the memtable leaves open is decided by the segments. */
  ghost predicate LeftToSegments(keys: seq<Bytes>, unresolved: seq<nat>, e: E.Engine, s: nat) {
    forall j :: j in unresolved && j < |keys| ==>
      NewestIn(E.Visible(e, keys[j]), s) == NewestIn(E.SegmentPool(e.segments, keys[j]), s)
  }

  lemma SegmentsAnswer(values: Values, best: seq<nat>, keys: seq<Bytes>, unresolved: seq<nat>, e: E.Engine, s: nat)
    requires Positions(unresolved, |keys|) && |best| == |unresolved| && Answered(values, keys, unresolved, |keys|, e, s)
    requires LeftToSegments(keys, unresolved, e, s) && BestsAre(values, best, keys, unresolved, e.segments, s)
    ensures Answered(values, keys, [], |keys|, e, s)
  {
    hide E.Visible;
    hide E.SegmentPool;
    hide NewestIn;
  }

  /** One segment's answers join the running bests of the unresolved positions and touch no other position. */
  method MergeBest(found: seq<Option<Version>>, best: seq<nat>, values: Values, unresolved: seq<nat>)
    returns (best': seq<nat>, values': Values)
    requires |found| == |best| == |unresolved| && Positions(unresolved, |values|)
    ensures |best'| == |best| && |values'| == |values|
    ensures forall p :: 0 <= p < |best| ==>
              if found[p].Some? && found[p].value.sequence > best[p]
              then best'[p] == found[p].value.sequence && values'[unresolved[p]] == found[p].value.value
              else best'[p] == best[p] && values'[unresolved[p]] == values[unresolved[p]]
    ensures forall j :: 0 <= j < |values| && j !in unresolved ==> values'[j] == values[j]
  {
    best', values' := best, values;
    for p := 0 to |found|
      invariant |best'| == |best| && |values'| == |values|
      invariant forall q :: 0 <= q < p ==>
                  if found[q].Some? && found[q].value.sequence > best[q]
                  then best'[q] == found[q].value.sequence && values'[unresolved[q]] == found[q].value.value
                  else best'[q] == best[q] && values'[unresolved[q]] == values[unresolved[q]]
      invariant forall q :: p <= q < |best| ==> best'[q] == best[q] && values'[unresolved[q]] == values[unresolved[q]]
      invariant forall j :: 0 <= j < |values| && j !in unresolved ==> values'[j] == values[j]
    {
      if found[p].Some? && found[p].value.sequence > best'[p] {
        best' := best'[p := found[p].value.sequence];
        values' := values'[unresolved[p] := found[p].value.value];
      }
    }
  }

  /** With one segment and an empty memtable the first answer is the only one. */
  method FillAnswers(found: seq<Option<Version>>, values: Values, unresolved: seq<nat>) returns (values': Values)
    requires |found| == |unresolved| && Positions(unresolved, |values|)
    ensures |values'| == |values|
    ensures forall p :: 0 <= p < |found| ==> values'[unresolved[p]] == ValueOf(found[p])
    ensures forall j :: 0 <= j < |values| && j !in unresolved ==> values'[j] == values[j]
  {
    values' := values;
    for p := 0 to |found|
      invariant |values'| == |values|
      invariant forall q :: 0 <= q < p ==> values'[unresolved[q]] == ValueOf(found[q])
      invariant forall j :: 0 <= j < |values| && j !in unresolved ==> values'[j] == values[j]
    {
      values' := values'[unresolved[p] := ValueOf(found[p])];
    }
  }

  lemma SingleSegment(ds: seq<E.Descriptor>, durable: nat, k: Bytes, s: nat)
    requires SegmentsOk(ds, durable) && |ds| == 1
    ensures FindNewest(Lookup(ds[0].segment.table, k), s) == NewestIn(E.SegmentPool(ds, k), s)
  {
    hide SegmentsOk;
    SegmentStep(ds, durable, 0, k);
    assert ds[..1] == ds && E.SegmentPool(ds[..0], k) == {};
    assert E.SegmentPool(ds, k) == Elements(Lookup(ds[0].segment.table, k));
    FindNewestIs(Lookup(ds[0].segment.table, k), s);
  }

  // ---- Scans ----

  ghost predicate SegmentsScanned(visible: VisibleMap, ds: seq<E.Descriptor>, start: Bytes, end: Option<Bytes>,
                                  s: nat) {
    forall k :: (k in visible <==> InRange(k, start, end) && NewestIn(E.SegmentPool(ds, k), s).Some?)
             && (k in visible ==> Some(visible[k]) == NewestIn(E.SegmentPool(ds, k), s))
  }

  /** The rows a scan promises: every live key of the range with its newest value, in key order. */
  ghost predicate ScanResult(rows: Rows, e: E.Engine, start: Bytes, end: Option<Bytes>, s: nat) {
    && RowsAscend(rows)
    && forall k, v :: (k, v) in rows <==> InRange(k, start, end) && E.Read(e, k, s) == Some(v)
  }

  lemma ScanStep(visible: VisibleMap, found: VisibleMap, merged: VisibleMap, ds: seq<E.Descriptor>, durable: nat,
                 i: nat,
                 start: Bytes, end: Option<Bytes>, s: nat)
    requires SegmentsOk(ds, durable) && i < |ds|
    requires SegmentsScanned(visible, ds[..i], start, end, s) && VisibleIn(found, ds[i].segment.table, start, end, s)
    requires merged.Keys == visible.Keys + found.Keys
    requires forall k :: k in merged ==>
               merged[k] == if k !in visible || (k in found && found[k].sequence > visible[k].sequence) then found[k]
                   else visible[k]
    ensures SegmentsScanned(merged, ds[..i + 1], start, end, s)
  {
    hide InRange;
    hide SegmentsOk;
    hide E.SegmentPool;
    hide NewestIn;
    hide FindNewest;
    hide Lookup;
    hide Coherent;
    hide Ordered;
    forall k ensures (k in merged <==> InRange(k, start, end) && NewestIn(E.SegmentPool(ds[..i + 1], k), s).Some?)
      ensures k in merged ==> Some(merged[k]) == NewestIn(E.SegmentPool(ds[..i + 1], k), s)
    {
      SegmentStep(ds, durable, i, k);
      MergedNewest(E.SegmentPool(ds[..i], k), Lookup(ds[i].segment.table, k), s);
    }
  }

  lemma ScanMemtable(visible: VisibleMap, found: VisibleMap, merged: VisibleMap, e: E.Engine,
                     start: Bytes, end: Option<Bytes>, s: nat)
    requires Inv(e)
    requires SegmentsScanned(visible, e.segments, start, end, s) && VisibleIn(found, e.memtable.versions, start, end, s)
    requires merged.Keys == visible.Keys + found.Keys
    requires forall k :: k in merged ==>
               merged[k] == if k !in visible || (k in found && found[k].sequence > visible[k].sequence) then found[k]
                   else visible[k]
    ensures forall k :: (k in merged <==> InRange(k, start, end) && NewestIn(E.Visible(e, k), s).Some?)
                     && (k in merged ==> Some(merged[k]) == NewestIn(E.Visible(e, k), s))
  {
    hide InRange;
    hide Inv;
    hide E.SegmentPool;
    hide NewestIn;
    hide FindNewest;
    hide Lookup;
    forall k ensures (k in merged <==> InRange(k, start, end) && NewestIn(E.Visible(e, k), s).Some?)
      ensures k in merged ==> Some(merged[k]) == NewestIn(E.Visible(e, k), s)
    {
      MemtableFirst(e, k, s);
      MemtableNewer(e, k, s);
    }
  }

  lemma MemtableNewer(e: E.Engine, k: Bytes, s: nat)
    requires Inv(e)
    ensures var x, y := NewestIn(E.SegmentPool(e.segments, k), s), FindNewest(Lookup(e.memtable.versions, k), s);
            x.Some? && y.Some? ==> y.value.sequence > x.value.sequence
  {
    hide Inv;
    hide E.SegmentPool;
    InvVisible(e, k);
    InvMemory(e);
    assert Ordered(Lookup(e.memtable.versions, k));
    FindNewestIs(Lookup(e.memtable.versions, k), s);
  }

  lemma NoVersions(ds: seq<E.Descriptor>, k: Bytes, s: nat)
    ensures BestIs(E.SegmentPool(ds[..0], k), s, 0, None)
    ensures NewestIn(E.SegmentPool(ds[..0], k), s) == None
  {
    assert E.SegmentPool(ds[..0], k) == {};
  }

  lemma PositionsBound(unresolved: seq<nat>, n: nat)
    requires Positions(unresolved, n)
    ensures forall p :: 0 <= p < |unresolved| ==> unresolved[p] < n
  {
  }

  lemma LeftToSegmentsAt(keys: seq<Bytes>, unresolved: seq<nat>, e: E.Engine, s: nat, j: nat)
    requires LeftToSegments(keys, unresolved, e, s) && j in unresolved && j < |keys|
    ensures E.Read(e, keys[j], s) == ValueOf(NewestIn(E.SegmentPool(e.segments, keys[j]), s))
  {
  }

  lemma NoBests(values: Values, keys: seq<Bytes>, unresolved: seq<nat>, ds: seq<E.Descriptor>, s: nat)
    requires |values| == |keys| && Positions(unresolved, |keys|)
    requires forall j :: j in unresolved && j < |values| ==> values[j] == None
    ensures BestsAre(values, seq(|unresolved|, _ => 0), keys, unresolved, ds[..0], s)
  {
    forall p | 0 <= p < |unresolved| ensures BestIs(E.SegmentPool(ds[..0], keys[unresolved[p]]), s, 0, None) {
      NoVersions(ds, keys[unresolved[p]], s);
    }
  }

  /** One segment more for every unresolved position at once. */
  lemma BestsStep(values: Values, best: seq<nat>, values': Values, best': seq<nat>, keys: seq<Bytes>,
                  unresolved: seq<nat>,
                  found: seq<Option<Version>>, ds: seq<E.Descriptor>, durable: nat, i: nat, s: nat)
    requires |values| == |values'| == |keys| && |best| == |best'| == |unresolved| == |found|
    requires Positions(unresolved, |keys|)
    requires SegmentsOk(ds, durable) && i < |ds| && BestsAre(values, best, keys, unresolved, ds[..i], s)
    requires forall p :: 0 <= p < |found| ==>
             found[p] == FindNewest(Lookup(ds[i].segment.table, keys[unresolved[p]]), s)
    requires forall p :: 0 <= p < |best| ==>
               if found[p].Some? && found[p].value.sequence > best[p]
               then best'[p] == found[p].value.sequence && values'[unresolved[p]] == found[p].value.value
               else best'[p] == best[p] && values'[unresolved[p]] == values[unresolved[p]]
    ensures BestsAre(values', best', keys, unresolved, ds[..i + 1], s)
  {
    hide BestIs;
    hide SegmentsOk;
    hide E.SegmentPool;
    hide Coherent;
    hide Ordered;
    hide FindNewest;
    forall p | 0 <= p < |unresolved|
      ensures BestIs(E.SegmentPool(ds[..i + 1], keys[unresolved[p]]), s, best'[p], values'[unresolved[p]])
    {
      var k := keys[unresolved[p]];
      SegmentStep(ds, durable, i, k);
      BestStep(E.SegmentPool(ds[..i], k), Lookup(ds[i].segment.table, k), s, best[p], values[unresolved[p]]);
    }
  }
}
