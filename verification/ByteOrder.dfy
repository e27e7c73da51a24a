/** Byte-lexicographic order and the ordered iteration it gives a map. */
module ByteOrder {
  import opened Common

  lemma {:induction false} LessIrreflexive(a: Bytes)
    ensures !Less(a, a)
  {
    if a != [] { LessIrreflexive(a[1..]); }
  }

  lemma {:induction false} LessTotal(a: Bytes, b: Bytes)
    ensures Less(a, b) || a == b || Less(b, a)
  {
    if a != [] && b != [] && a[0] == b[0] {
      LessTotal(a[1..], b[1..]);
      assert a == [a[0]] + a[1..] && b == [b[0]] + b[1..];
    }
  }

  lemma {:induction false} LessTransitive(a: Bytes, b: Bytes, c: Bytes)
    requires Less(a, b) && Less(b, c)
    ensures Less(a, c)
  {
    if a != [] && a[0] == b[0] == c[0] {
      LessTransitive(a[1..], b[1..], c[1..]);
    }
  }

  lemma LessAsymmetric(a: Bytes, b: Bytes)
    requires Less(a, b)
    ensures !Less(b, a) && a != b
  {
    LessIrreflexive(a);
    if Less(b, a) { LessTransitive(a, b, a); }
  }

  /** A shared prefix does not decide the order. */
  lemma {:induction false} LessSharedPrefix(p: Bytes, a: Bytes, b: Bytes)
    ensures Less(p + a, p + b) <==> Less(a, b)
  {
    if p == [] {
      assert p + a == a && p + b == b;
    } else {
      assert (p + a)[1..] == p[1..] + a && (p + b)[1..] == p[1..] + b;
      LessSharedPrefix(p[1..], a, b);
    }
  }

  /** Strictly ascending keys. */
  ghost predicate Ascends(keys: seq<Bytes>) {
    forall i, j :: 0 <= i < j < |keys| ==> Less(keys[i], keys[j])
  }

  lemma InsertAscends(keys: seq<Bytes>, i: nat, k: Bytes)
    requires Ascends(keys) && i <= |keys|
    requires forall j :: 0 <= j < i ==> Less(keys[j], k)
    requires forall j :: i <= j < |keys| ==> Less(k, keys[j])
    ensures Ascends(keys[..i] + [k] + keys[i..])
  {
    var longer := keys[..i] + [k] + keys[i..];
    forall x, y | 0 <= x < y < |longer| ensures Less(longer[x], longer[y]) {
      if x < i && y > i { assert longer[x] == keys[x] && longer[y] == keys[y - 1]; }
    }
  }

  /** The keys of an ordered map in iteration order. */
  method SortedKeys(keys: set<Bytes>) returns (sorted: seq<Bytes>)
    ensures Ascends(sorted)
    ensures forall k :: k in sorted <==> k in keys
  {
    sorted := [];
    var remaining := keys;
    ghost var done: set<Bytes> := {};
    while remaining != {}
      invariant done + remaining == keys && done !! remaining
      invariant Ascends(sorted) && forall k :: k in sorted <==> k in done
      decreases remaining
    {
      var k :| k in remaining;
      var i := 0;
      while i < |sorted| && Less(sorted[i], k)
        invariant 0 <= i <= |sorted|
        invariant forall j :: 0 <= j < i ==> Less(sorted[j], k)
      {
        i := i + 1;
      }
      forall j | i <= j < |sorted| ensures Less(k, sorted[j]) {
        assert sorted[i] in done;
        LessTotal(sorted[i], k);
        if j > i { LessTransitive(k, sorted[i], sorted[j]); }
      }
      InsertAscends(sorted, i, k);
      var longer := sorted[..i] + [k] + sorted[i..];
      assert forall x :: x in longer <==> x in sorted || x == k by {
        assert sorted == sorted[..i] + sorted[i..];
      }
      sorted := longer;
      remaining := remaining - {k};
      done := done + {k};
    }
    assert done == keys;
  }

  /** Ascending sequences with the same elements are the same sequence. */
  lemma {:induction false} AscendsUnique(a: seq<Bytes>, b: seq<Bytes>)
    requires Ascends(a) && Ascends(b) && forall k :: k in a <==> k in b
    ensures a == b
    decreases |a|
  {
    if a == [] {
      if b != [] { HasElement(b); }
    } else {
      assert a[0] in b;
      assert b[0] in a;
      var i :| 0 <= i < |b| && b[i] == a[0];
      var j :| 0 <= j < |a| && a[j] == b[0];
      if i > 0 {
        assert j > 0 by { LessIrreflexive(a[0]); }
        LessAsymmetric(b[0], b[i]);
      }
      forall k ensures k in a[1..] <==> k in b[1..] {
        HeadOnce(a, k);
        HeadOnce(b, k);
      }
      AscendsUnique(a[1..], b[1..]);
      assert a == [a[0]] + a[1..] && b == [b[0]] + b[1..];
    }
  }

  lemma HasElement<T>(s: seq<T>)
    requires s != []
    ensures exists x :: x in s
  {
    assert s[0] in s;
  }

  lemma HeadOnce(a: seq<Bytes>, k: Bytes)
    requires Ascends(a) && a != []
    ensures k in a[1..] <==> k in a && k != a[0]
  {
    assert a == [a[0]] + a[1..];
    LessIrreflexive(a[0]);
    if k in a[1..] {
      var i :| 0 <= i < |a[1..]| && a[1..][i] == k;
      assert a[i + 1] == k;
    }
  }
}
