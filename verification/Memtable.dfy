/** The mutable in-memory table (crates/vyrm-kv/src/memtable.rs). */
module ActiveMemtable {
  import opened Common
  import opened Batch
  import opened Versions
  import E = Engine

  class Memtable {
    var versions: Table
    var maximumSequence: nat

    ghost function Value(): E.Memtable
      reads this
    {
      E.Memtable(versions, maximumSequence)
    }

    constructor AtSequence(sequence: nat)
      ensures Value() == E.Memtable(map[], sequence)
    {
      versions := map[];
      maximumSequence := sequence;
    }

    /** Applies one batch numbered `first..=last`; a batch that does not continue the sequence changes nothing. */
    method ApplyWriteBatch(batch: WriteBatch, first: nat, last: nat) returns (accepted: bool)
      requires batch != []
      modifies this
      ensures accepted <==> first == old(maximumSequence) + 1 && last == first + |batch| - 1
      ensures accepted ==> Value() == E.Memtable(ApplyOperations(old(versions), batch, first), last)
      ensures !accepted ==> Value() == old(Value())
    {
      if first != maximumSequence + 1 || last != first + |batch| - 1 {
        return false;
      }
      var i := 0;
      while i < |batch|
        invariant 0 <= i <= |batch|
        invariant versions == ApplyOperations(old(versions), batch[..i], first)
        invariant maximumSequence == old(maximumSequence)
      {
        assert batch[..i + 1][..i] == batch[..i];
        var key := batch[i].key;
        var value := if batch[i].Put? then Some(batch[i].value) else None;
        var list := if key in versions then versions[key] else [];
        versions := versions[key := list + [Version(first + i, value)]];
        i := i + 1;
      }
      assert batch[..|batch|] == batch;
      maximumSequence := last;
      return true;
    }

    /** The newest version of `key` at or below `readSequence`, searched from the newest end. */
    method GetVersion(key: Bytes, readSequence: nat) returns (r: Option<Version>)
      ensures r == FindNewest(Lookup(versions, key), readSequence)
    {
      var list := if key in versions then versions[key] else [];
      var i := |list|;
      assert list[..|list|] == list;
      while i > 0
        invariant 0 <= i <= |list|
        invariant FindNewest(list, readSequence) == FindNewest(list[..i], readSequence)
      {
        if list[i - 1].sequence <= readSequence {
          assert list[..i][|list[..i]| - 1] == list[i - 1];
          return Some(list[i - 1]);
        }
        assert list[..i][..i - 1] == list[..i - 1];
        i := i - 1;
      }
      return None;
    }

    method IsEmpty() returns (empty: bool)
      ensures empty <==> !E.HasVersions(versions)
    {
      var count := 0;
      var remaining := versions.Keys;
      ghost var done: set<Bytes> := {};
      while remaining != {}
        invariant done + remaining == versions.Keys
        invariant count >= 0
        invariant count == 0 <==> forall k :: k in done ==> versions[k] == []
        decreases remaining
      {
        var k :| k in remaining;
        count := count + |versions[k]|;
        remaining := remaining - {k};
        done := done + {k};
      }
      return count == 0;
    }
  }

  /** `Memtable::from_versions`: compacted lists must be non-empty, strictly ordered and within the durable sequence. */
  method FromVersions(versions: Table, maximum: nat) returns (accepted: bool)
    ensures accepted <==> TableOk(versions, 1, maximum)
  {
    var remaining := versions.Keys;
    ghost var done: set<Bytes> := {};
    while remaining != {}
      invariant done + remaining == versions.Keys
      invariant forall k :: k in done ==> k != [] && versions[k] != [] && Ordered(versions[k])
      invariant forall k, v :: k in done && v in versions[k] ==> 1 <= v.sequence <= maximum
      decreases remaining
    {
      var k :| k in remaining;
      if k == [] || versions[k] == [] {
        return false;
      }
      var ordered := StrictlyOrdered(versions[k], maximum);
      if !ordered {
        return false;
      }
      remaining := remaining - {k};
      done := done + {k};
    }
    return true;
  }

  method StrictlyOrdered(values: seq<Version>, maximum: nat) returns (ordered: bool)
    ensures ordered <==> Ordered(values) && forall v :: v in values ==> 1 <= v.sequence <= maximum
  {
    var previous := 0;
    for i := 0 to |values|
      invariant previous == if i == 0 then 0 else values[i - 1].sequence
      invariant Ordered(values[..i])
      invariant forall j :: 0 <= j < i ==> 1 <= values[j].sequence <= maximum
    {
      if values[i].sequence == 0 || values[i].sequence <= previous || values[i].sequence > maximum {
        assert values[i] in values;
        return false;
      }
      previous := values[i].sequence;
    }
    assert values[..|values|] == values;
    return true;
  }

  /** Rebuilds the memtable from recovered frames, or fails on the first frame that is refused. */
  method RecoverFrom(records: seq<E.Record>, previousSequence: nat) returns (r: Option<Memtable>)
    ensures r.Some? <==> E.Replay(records, previousSequence).Some?
    ensures r.Some? ==> fresh(r.value) && r.value.Value() == E.Replay(records, previousSequence).value
  {
    var table := new Memtable.AtSequence(previousSequence);
    var i := 0;
    while i < |records|
      invariant 0 <= i <= |records|
      invariant fresh(table)
      invariant E.Replay(records[..i], previousSequence) == Some(table.Value())
    {
      hide ApplyOperations;
      hide DecodeBatch;
      hide E.Replay;
      ReplayNext(records, i, previousSequence);
      var decoded := Decode(records[i].payload);
      if decoded.Err? || decoded.value == [] {
        ReplayStopsAt(records, i, previousSequence);
        return None;
      }
      var accepted := table.ApplyWriteBatch(decoded.value, records[i].first, records[i].last);
      if !accepted {
        ReplayStopsAt(records, i, previousSequence);
        return None;
      }
      i := i + 1;
    }
    assert records[..|records|] == records;
    return Some(table);
  }

  lemma ReplayNext(records: seq<E.Record>, i: nat, durable: nat)
    requires i < |records| && E.Replay(records[..i], durable).Some?
    ensures E.Replay(records[..i + 1], durable) == E.ReplayRecord(E.Replay(records[..i], durable).value, records[i])
  {
    assert records[..i + 1][..i] == records[..i];
  }

  /** A refused frame makes the whole file unreadable. */
  lemma {:induction false} ReplayStopsAt(records: seq<E.Record>, i: nat, durable: nat)
    requires i < |records| && E.Replay(records[..i + 1], durable).None?
    ensures E.Replay(records, durable).None?
    decreases |records|
  {
    if i + 1 < |records| {
      var front := records[..|records| - 1];
      assert front[..i + 1] == records[..i + 1];
      ReplayStopsAt(front, i, durable);
    } else {
      assert records[..i + 1] == records;
    }
  }
}
