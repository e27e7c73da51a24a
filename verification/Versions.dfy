/** Multi-version tables and what a read of them means (crates/vyrm-kv/src/memtable.rs). */
module Versions {
  import opened Common
  import opened Batch

  datatype Version = Version(sequence: nat, value: Option<Bytes>)

  /** Each key's versions in the order they were pushed. */
  type Table = map<Bytes, seq<Version>>

  function Lookup(t: Table, k: Bytes): seq<Version> {
    if k in t then t[k] else []
  }

  predicate Ordered(vs: seq<Version>) {
    forall i, j :: 0 <= i < j < |vs| ==> vs[i].sequence < vs[j].sequence
  }

  /** Non-empty ordered version lists whose sequences lie in `low..=high`. */
  ghost predicate TableOk(t: Table, low: nat, high: nat) {
    && (forall k :: k in t ==> k != [] && t[k] != [] && Ordered(t[k]))
    && (forall k, v :: k in t && v in t[k] ==> low <= v.sequence <= high)
  }

  // ---- The meaning of a read ----

  /** `r` is the newest version of `pool` at or below `s`. */
  ghost predicate IsNewest(pool: set<Version>, s: nat, r: Option<Version>) {
    match r
    case None => forall v :: v in pool ==> v.sequence > s
    case Some(n) =>
      && n in pool && n.sequence <= s
      && forall v :: v in pool && v.sequence <= s ==> v.sequence <= n.sequence
  }

  /** No two versions share a sequence. */
  ghost predicate Coherent(pool: set<Version>) {
    forall v, w :: v in pool && w in pool && v.sequence == w.sequence ==> v == w
  }

  ghost function NewestIn(pool: set<Version>, s: nat): (r: Option<Version>)
    ensures IsNewest(pool, s, r)
    decreases |pool|
  {
    if v :| v in pool && v.sequence <= s then
      var r := NewestIn(pool - {v}, s);
      if r.None? || r.value.sequence < v.sequence then Some(v) else r
    else None
  }

  lemma NewestUnique(pool: set<Version>, s: nat, r: Option<Version>)
    requires Coherent(pool) && IsNewest(pool, s, r)
    ensures r == NewestIn(pool, s)
  {
  }

  function ValueOf(r: Option<Version>): Option<Bytes> {
    if r.Some? then r.value.value else None
  }

  ghost function ReadIn(pool: set<Version>, s: nat): Option<Bytes> {
    ValueOf(NewestIn(pool, s))
  }

  ghost function Elements(vs: seq<Version>): set<Version> {
    set v | v in vs
  }

  /** The backwards search over one version list. */
  function FindNewest(vs: seq<Version>, s: nat): (r: Option<Version>)
  {
    if vs == [] then None
    else if vs[|vs| - 1].sequence <= s then Some(vs[|vs| - 1])
    else FindNewest(vs[..|vs| - 1], s)
  }

  lemma {:induction false} FindNewestMeaning(vs: seq<Version>, s: nat)
    requires Ordered(vs)
    ensures IsNewest(Elements(vs), s, FindNewest(vs, s))
  {
    if vs != [] && vs[|vs| - 1].sequence > s {
      var front := vs[..|vs| - 1];
      FindNewestMeaning(front, s);
      assert vs == front + [vs[|vs| - 1]];
    }
  }

  // ---- What compaction keeps ----

  /** The versions that answer a read at some sequence of `protected`. */
  ghost function Kept(pool: set<Version>, protected: set<nat>): set<Version> {
    set p | p in protected && NewestIn(pool, p).Some? :: NewestIn(pool, p).value
  }

  /** Every kept version answers some protected read, and every protected read keeps its answer. */
  lemma KeptIsAnswers(pool: set<Version>, protected: set<nat>, v: Version)
    requires Coherent(pool)
    ensures v in Kept(pool, protected) <==> exists p :: p in protected && IsNewest(pool, p, Some(v))
  {
    forall p | p in protected && IsNewest(pool, p, Some(v)) ensures v in Kept(pool, protected) {
      NewestUnique(pool, p, Some(v));
    }
    if v in Kept(pool, protected) {
      var p :| p in protected && NewestIn(pool, p) == Some(v);
      assert IsNewest(pool, p, Some(v));
    }
  }

  /** A read at a protected sequence, or at one no version of the pool exceeds, keeps its answer. */
  lemma KeptReads(pool: set<Version>, protected: set<nat>, head: nat, s: nat)
    requires Coherent(pool) && head in protected
    requires forall v :: v in pool ==> v.sequence <= head
    requires s in protected || s >= head
    ensures Coherent(Kept(pool, protected)) && Kept(pool, protected) <= pool
    ensures NewestIn(Kept(pool, protected), s) == NewestIn(pool, s)
  {
    var kept := Kept(pool, protected);
    var p := if s in protected then s else head;
    var n := NewestIn(pool, p);
    assert IsNewest(pool, s, n);
    NewestUnique(pool, s, n);
    assert n.Some? ==> n.value in kept;
    assert IsNewest(kept, s, n);
    NewestUnique(kept, s, n);
  }

  /** A key whose kept versions are all tombstones can be dropped: every such read is already empty. */
  lemma DroppedReads(pool: set<Version>, protected: set<nat>, head: nat, s: nat)
    requires Coherent(pool) && head in protected
    requires forall v :: v in pool ==> v.sequence <= head
    requires forall v :: v in Kept(pool, protected) ==> v.value.None?
    requires s in protected || s >= head
    ensures ReadIn(pool, s) == None == ReadIn({}, s)
  {
    KeptReads(pool, protected, head, s);
  }

  /** Keeping twice with the same protections keeps the same versions. */
  lemma KeptIdempotent(pool: set<Version>, protected: set<nat>, head: nat)
    requires Coherent(pool) && head in protected
    requires forall v :: v in pool ==> v.sequence <= head
    ensures Kept(Kept(pool, protected), protected) == Kept(pool, protected)
  {
    forall p | p in protected ensures NewestIn(Kept(pool, protected), p) == NewestIn(pool, p) {
      KeptReads(pool, protected, head, p);
    }
  }

  // ---- Version lists as maps ----

  /** A coherent pool seen as the ordered map the compactor builds. */
  ghost function MapOf(pool: set<Version>): (m: map<nat, Option<Bytes>>)
    requires Coherent(pool)
    ensures AsSet(m) == pool
  {
    var m := map v | v in pool :: v.sequence := v.value;
    assert forall v :: v in pool ==> v == Version(v.sequence, m[v.sequence]);
    m
  }

  ghost function AsSet(m: map<nat, Option<Bytes>>): set<Version> {
    set s | s in m :: Version(s, m[s])
  }

  lemma AsSetInjective(a: map<nat, Option<Bytes>>, b: map<nat, Option<Bytes>>)
    requires AsSet(a) == AsSet(b)
    ensures a == b
  {
    forall s | s in a ensures s in b && a[s] == b[s] { assert Version(s, a[s]) in AsSet(b); }
    forall s | s in b ensures s in a { assert Version(s, b[s]) in AsSet(a); }
  }

  /** The entries of an ordered map below `bound`, in key order. */
  function Ascending(m: map<nat, Option<Bytes>>, bound: nat): (vs: seq<Version>)
  {
    if bound == 0 then []
    else Ascending(m, bound - 1) + if bound - 1 in m then [Version(bound - 1, m[bound - 1])] else []
  }

  lemma {:induction false} AscendingMeaning(m: map<nat, Option<Bytes>>, bound: nat)
    ensures Ordered(Ascending(m, bound))
    ensures forall v :: v in Ascending(m, bound) <==> v.sequence < bound && v in AsSet(m)
  {
    if bound > 0 {
      AscendingMeaning(m, bound - 1);
    }
  }

  // ---- Applying batches ----

  function Push(t: Table, k: Bytes, v: Version): Table {
    t[k := Lookup(t, k) + [v]]
  }

  function Written(m: Mutation): Option<Bytes> {
    if m.Put? then Some(m.value) else None
  }

  /** One version per operation, numbered from `first`. */
  function ApplyOperations(t: Table, ops: WriteBatch, first: nat): Table {
    if ops == [] then t
    else
      var n := |ops| - 1;
      Push(ApplyOperations(t, ops[..n], first), ops[n].key, Version(first + n, Written(ops[n])))
  }

  /** The abstract store: a plain map. */
  type Store = map<Bytes, Bytes>

  function StoreGet(m: Store, k: Bytes): Option<Bytes> {
    if k in m then Some(m[k]) else None
  }

  function ApplyToStore(m: Store, ops: WriteBatch): Store {
    if ops == [] then m
    else
      var before := ApplyToStore(m, ops[..|ops| - 1]);
      match ops[|ops| - 1]
      case Put(k, v) => before[k := v]
      case Delete(k) => before - {k}
  }

  lemma PushOk(t: Table, key: Bytes, v: Version, low: nat, head: nat)
    requires TableOk(t, low, head) && low <= head + 1 == v.sequence && key != []
    ensures TableOk(Push(t, key, v), low, head + 1)
  {
  }

  /** New versions are numbered after every old one, so they only ever extend the ordered lists. */
  lemma {:induction false} ApplyOperationsOk(t: Table, ops: WriteBatch, low: nat, head: nat)
    requires TableOk(t, low, head) && 1 <= low <= head + 1
    requires forall i :: 0 <= i < |ops| ==> ValidMutation(ops[i])
    ensures TableOk(ApplyOperations(t, ops, head + 1), low, head + |ops|)
  {
    hide TableOk;
    hide Push;
    if ops != [] {
      var n := |ops| - 1;
      ApplyOperationsOk(t, ops[..n], low, head);
      PushOk(ApplyOperations(t, ops[..n], head + 1), ops[n].key, Version(head + 1 + n, Written(ops[n])), low, head + n);
    }
  }

  lemma OrderedCoherent(vs: seq<Version>)
    requires Ordered(vs)
    ensures Coherent(Elements(vs))
  {
  }

  /** A version newer than the whole pool answers its own sequence and leaves older reads alone. */
  lemma NewerVersionReads(pool: set<Version>, v: Version, s: nat)
    requires Coherent(pool) && forall w :: w in pool ==> w.sequence < v.sequence
    ensures Coherent(pool + {v})
    ensures ReadIn(pool + {v}, v.sequence) == v.value
    ensures s < v.sequence ==> NewestIn(pool + {v}, s) == NewestIn(pool, s)
  {
    assert IsNewest(pool + {v}, v.sequence, Some(v));
    NewestUnique(pool + {v}, v.sequence, Some(v));
    if s < v.sequence {
      NewestUnique(pool + {v}, s, NewestIn(pool, s));
    }
  }

  /** Reads at or above every sequence of the pool are all the read of its head. */
  lemma HeadRead(pool: set<Version>, head: nat, s: nat)
    requires Coherent(pool) && head <= s
    requires forall v :: v in pool ==> v.sequence <= head
    ensures NewestIn(pool, s) == NewestIn(pool, head)
  {
    NewestUnique(pool, s, NewestIn(pool, head));
  }

  /** The versions of `k` in a live table over older immutable ones. */
  ghost function Over(t: Table, k: Bytes, below: set<Version>): set<Version> {
    Elements(Lookup(t, k)) + below
  }

  lemma OverCoherent(t: Table, k: Bytes, below: set<Version>, low: nat, high: nat)
    requires TableOk(t, low, high) && low <= high + 1
    requires Coherent(below) && forall v :: v in below ==> v.sequence < low
    ensures Coherent(Over(t, k, below)) && forall v :: v in Over(t, k, below) ==> v.sequence <= high
  {
    OrderedCoherent(Lookup(t, k));
  }

  lemma PushOver(t: Table, key: Bytes, v: Version, k: Bytes, below: set<Version>)
    ensures Over(Push(t, key, v), k, below) == Over(t, k, below) + if k == key then {v} else {}
  {
  }

  lemma ApplyToStoreLast(m: Store, ops: WriteBatch, k: Bytes)
    requires ops != []
    ensures var n := |ops| - 1;
            StoreGet(ApplyToStore(m, ops), k) ==
            if k == ops[n].key then Written(ops[n]) else StoreGet(ApplyToStore(m, ops[..n]), k)
  {
  }

  /** One operation more: the new version decides its own key at the new head, and nothing older changes. */
  lemma PushReads(t: Table, key: Bytes, v: Version, k: Bytes, below: set<Version>, low: nat, head: nat, s: nat)
    requires TableOk(t, low, head) && low <= head + 1 == v.sequence
    requires Coherent(below) && forall v :: v in below ==> v.sequence < low
    ensures var before, after := Over(t, k, below), Over(Push(t, key, v), k, below);
            && ReadIn(after, head + 1) == (if k == key then v.value else ReadIn(before, head))
            && (s <= head ==> NewestIn(after, s) == NewestIn(before, s))
  {
    hide NewestIn;
    hide TableOk;
    var pool := Over(t, k, below);
    OverCoherent(t, k, below, low, head);
    PushOver(t, key, v, k, below);
    if k == key {
      NewerVersionReads(pool, v, s);
    } else {
      assert pool + {} == pool;
      HeadRead(pool, head, head + 1);
    }
  }

  /** A batch adds only versions numbered after the old head. */
  lemma {:induction false} ApplyOperationsReads(t: Table, ops: WriteBatch, low: nat, head: nat, k: Bytes,
                                                below: set<Version>, m: Store, s: nat)
    requires TableOk(t, low, head) && 1 <= low <= head + 1
    requires forall i :: 0 <= i < |ops| ==> ValidMutation(ops[i])
    requires Coherent(below) && forall v :: v in below ==> v.sequence < low
    requires ReadIn(Over(t, k, below), head) == StoreGet(m, k)
    ensures var after := Over(ApplyOperations(t, ops, head + 1), k, below);
            // the new head reads the batch applied to the old head, and older reads stay
            && ReadIn(after, head + |ops|) == StoreGet(ApplyToStore(m, ops), k)
            && (s <= head ==> NewestIn(after, s) == NewestIn(Over(t, k, below), s))
  {
    hide NewestIn;
    hide TableOk;
    hide Coherent;
    hide Over;
    hide Push;
    hide ReadIn;
    hide StoreGet;
    if ops != [] {
      var n := |ops| - 1;
      ApplyOperationsReads(t, ops[..n], low, head, k, below, m, s);
      ApplyOperationsOk(t, ops[..n], low, head);
      ApplyToStoreLast(m, ops, k);
      PushReads(ApplyOperations(t, ops[..n], head + 1), ops[n].key, Version(head + 1 + n, Written(ops[n])), k, below,
                low, head + n, s);
    }
  }
}
