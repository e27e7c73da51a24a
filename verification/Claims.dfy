/**
 Bi-temporal claims: validity, the reference store and as-of resolution
 (crates/vyrm-core/src/claim.rs, reference.rs, temporal.rs).
 A claim's digest is modelled by the claim.
 */
module Claims {
  import opened Common
  import opened Keys

  datatype Claim = Claim(
    subject: Ident, pred: Ident, obj: Bytes, validFrom: Millis, validTo: Option<Millis>, txTime: Millis,
    actor: Bytes, supersedes: Option<Claim>)

  /** Half-open validity window. */
  predicate ValidAt(c: Claim, t: Millis) {
    c.validFrom <= t && (c.validTo.Some? ==> t < c.validTo.value)
  }

  predicate ValidClaim(c: Claim) {
    c.validTo.Some? ==> c.validTo.value > c.validFrom
  }

  function KeyOf(c: Claim): Bytes {
    ClaimKey(c.subject, c.pred, c.validFrom, c.txTime)
  }

  // ---- The relational meaning ----

  type Rows = map<Bytes, Claim>

  ghost predicate RowsOk(rows: Rows) {
    forall k :: k in rows ==> k == KeyOf(rows[k]) && ValidClaim(rows[k])
  }

  predicate About(c: Claim, s: Ident, p: Ident) {
    c.subject == s && c.pred == p
  }

  /** `c` is the latest-recorded correction of its claim: nothing recorded later has the same valid-time start. */
  ghost predicate Latest(rows: Rows, c: Claim) {
    && c in rows.Values
    && forall d :: d in rows.Values && About(d, c.subject, c.pred) && d.validFrom == c.validFrom ==>
       d.txTime <= c.txTime
  }

  /** The greatest valid-time start whose latest-recorded correction is valid at `t`. */
  ghost predicate IsAsOf(rows: Rows, s: Ident, p: Ident, t: Millis, r: Option<Claim>) {
    match r
    case None => forall c :: c in rows.Values && About(c, s, p) && Latest(rows, c) ==> !ValidAt(c, t)
    case Some(c) =>
      && About(c, s, p) && Latest(rows, c) && ValidAt(c, t)
      && forall d :: d in rows.Values && About(d, s, p) && Latest(rows, d) && ValidAt(d, t) ==>
         d.validFrom <= c.validFrom
  }

  lemma SameKeySameClaim(rows: Rows, c: Claim, d: Claim)
    requires RowsOk(rows) && c in rows.Values && d in rows.Values
    requires About(d, c.subject, c.pred) && c.validFrom == d.validFrom && c.txTime == d.txTime
    ensures c == d
  {
    var k :| k in rows && rows[k] == c;
    var j :| j in rows && rows[j] == d;
  }

  lemma AsOfUnique(rows: Rows, s: Ident, p: Ident, t: Millis, r: Option<Claim>, q: Option<Claim>)
    requires RowsOk(rows) && IsAsOf(rows, s, p, t, r) && IsAsOf(rows, s, p, t, q)
    ensures r == q
  {
    if r.Some? && q.Some? {
      assert r.value.validFrom == q.value.validFrom;
      assert r.value.txTime == q.value.txTime;
      SameKeySameClaim(rows, r.value, q.value);
    }
  }

  // ---- Resolution over newest-first candidates ----

  ghost predicate KeyAscending(list: seq<Claim>) {
    forall i, j :: 0 <= i < j < |list| ==> Less(KeyOf(list[i]), KeyOf(list[j]))
  }

  /** Where a run of corrections of one valid-time start begins. */
  ghost predicate RunHead(list: seq<Claim>, i: nat)
    requires i < |list|
  {
    i == 0 || list[i - 1].validFrom != list[i].validFrom
  }

  /** The first run head that is valid at `t`. */
  ghost predicate ResolvesTo(list: seq<Claim>, t: Millis, r: Option<Claim>) {
    match r
    case None => forall i :: 0 <= i < |list| && RunHead(list, i) ==> !ValidAt(list[i], t)
    case Some(c) =>
      exists i :: 0 <= i < |list| && list[i] == c && RunHead(list, i) && ValidAt(c, t)
               && forall j :: 0 <= j < i && RunHead(list, j) ==> !ValidAt(list[j], t)
  }

  method ResolveAsOf(candidates: seq<Claim>, t: Millis) returns (r: Option<Claim>)
    ensures ResolvesTo(candidates, t, r)
  {
    var index := 0;
    while index < |candidates|
      invariant 0 <= index <= |candidates|
      invariant index < |candidates| ==> RunHead(candidates, index)
      invariant forall j :: 0 <= j < index && RunHead(candidates, j) ==> !ValidAt(candidates[j], t)
    {
      var start := index;
      var validFrom := candidates[index].validFrom;
      var newest := candidates[index];
      while index < |candidates| && candidates[index].validFrom == validFrom
        invariant start <= index <= |candidates|
        invariant forall j :: start <= j < index ==> candidates[j].validFrom == validFrom
        decreases |candidates| - index
      {
        index := index + 1;
      }
      if ValidAt(newest, t) {
        assert candidates[start] == newest && RunHead(candidates, start);
        return Some(newest);
      }
    }
    return None;
  }

  predicate Later(a: Claim, b: Claim) {
    a.validFrom > b.validFrom || (a.validFrom == b.validFrom && a.txTime > b.txTime)
  }

  lemma VersionsNewestFirst(list: seq<Claim>, s: Ident, p: Ident)
    requires KeyAscending(list) && forall c :: c in list ==> About(c, s, p)
    ensures NewestFirstList(list)
  {
    hide ClaimKey;
    forall i, j | 0 <= i < j < |list| ensures Later(list[i], list[j]) {
      assert About(list[i], s, p) && About(list[j], s, p);
      NewestFirst(s, p, list[i].validFrom, list[i].txTime, list[j].validFrom, list[j].txTime);
    }
  }

  ghost predicate NewestFirstList(list: seq<Claim>) {
    forall i, j :: 0 <= i < j < |list| ==> Later(list[i], list[j])
  }

  lemma SameStartNoHead(list: seq<Claim>, j: nat, i: nat)
    requires NewestFirstList(list) && j < i < |list| && list[j].validFrom == list[i].validFrom
    ensures !RunHead(list, i)
  {
    assert Later(list[i - 1], list[i]);
    assert j < i - 1 ==> Later(list[j], list[i - 1]);
  }

  /** In a newest-first list of all versions up to some instant, run heads are the latest corrections. */
  lemma HeadsAreLatest(rows: Rows, s: Ident, p: Ident, bound: Millis, list: seq<Claim>, i: nat)
    requires forall c :: c in list <==> c in rows.Values && About(c, s, p) && c.validFrom <= bound
    requires NewestFirstList(list) && i < |list|
    ensures RunHead(list, i) <==> Latest(rows, list[i])
  {
    var c := list[i];
    assert c in list;
    if RunHead(list, i) {
      forall d | d in rows.Values && About(d, c.subject, c.pred) && d.validFrom == c.validFrom
          ensures d.txTime <= c.txTime {
        assert d in list;
        var j :| 0 <= j < |list| && list[j] == d;
        if j < i { SameStartNoHead(list, j, i); }
      }
    } else {
      assert list[i - 1] in list;
      assert Later(list[i - 1], list[i]);
    }
  }

  /** The first valid run head has the greatest start among the valid run heads. */
  lemma FirstHeadGreatest(list: seq<Claim>, t: Millis, r: Option<Claim>, j: nat)
    requires NewestFirstList(list) && ResolvesTo(list, t, r) && j < |list| && RunHead(list, j) && ValidAt(list[j], t)
    ensures r.Some? && list[j].validFrom <= r.value.validFrom
  {
    hide RunHead;
    var i :| 0 <= i < |list| && list[i] == r.value && RunHead(list, i) && ValidAt(r.value, t)
             && forall j :: 0 <= j < i && RunHead(list, j) ==> !ValidAt(list[j], t);
    assert i < j ==> Later(list[i], list[j]);
  }

  /**
   Resolving the versions that start at or before `bound` gives the relational answer at every `t` up to `bound`:
   claims that start later cannot be valid at `t`, and runs of corrections are never cut.
   */
  lemma VersionsResolve(rows: Rows, s: Ident, p: Ident, t: Millis, bound: Millis, list: seq<Claim>, r: Option<Claim>)
    requires t <= bound && KeyAscending(list)
    requires forall c :: c in list <==> c in rows.Values && About(c, s, p) && c.validFrom <= bound
    requires ResolvesTo(list, t, r)
    ensures IsAsOf(rows, s, p, t, r)
  {
    VersionsNewestFirst(list, s, p);
    hide KeyAscending;
    hide NewestFirstList;
    if r.Some? {
      var i :| 0 <= i < |list| && list[i] == r.value && RunHead(list, i) && ValidAt(r.value, t);
      HeadsAreLatest(rows, s, p, bound, list, i);
      assert r.value in list;
    }
    hide Latest;
    forall d | d in rows.Values && About(d, s, p) && Latest(rows, d) && ValidAt(d, t)
      ensures r.Some? && d.validFrom <= r.value.validFrom
    {
      assert d in list;
      var j :| 0 <= j < |list| && list[j] == d;
      HeadsAreLatest(rows, s, p, bound, list, j);
      FirstHeadGreatest(list, t, r, j);
    }
  }

  // ---- Superseding ----

  datatype SupersedeError = PairMismatch | InvalidOrder | InvalidWindow

  /** The retirement of the previous claim and its successor, to be appended together. */
  function Supersede(previous: Claim, successor: Claim): Result<(Claim, Claim), SupersedeError> {
    if previous.subject != successor.subject || previous.pred != successor.pred then Err(PairMismatch)
    else if successor.validFrom <= previous.validFrom || successor.txTime <= previous.txTime then Err(InvalidOrder)
    else
      var retirement :=
          previous.(validTo := Some(successor.validFrom), txTime := successor.txTime, supersedes := Some(previous));
      var next := successor.(supersedes := Some(previous));
      if ValidClaim(retirement) && ValidClaim(next) then Ok((retirement, next)) else Err(InvalidWindow)
  }

  /** Retiring narrows the previous window exactly when that window was open or reached the successor. */
  lemma SupersedeNarrowsIff(previous: Claim, successor: Claim)
    requires Supersede(previous, successor).Ok?
    ensures var retirement := Supersede(previous, successor).value.0;
            (forall t: Millis :: ValidAt(retirement, t) ==> ValidAt(previous, t)) <==>
            (previous.validTo.None? || successor.validFrom <= previous.validTo.value)
  {
    var retirement := Supersede(previous, successor).value.0;
    if previous.validTo.Some? && previous.validTo.value < successor.validFrom {
      var t: Millis := if previous.validTo.value >= previous.validFrom then previous.validTo.value
          else previous.validFrom;
      assert ValidAt(retirement, t) && !ValidAt(previous, t);
    }
  }

  /** A claim closed at 5 and superseded from 9 on becomes valid at 7. */
  lemma SupersedeCanWiden(s: Ident, p: Ident)
    ensures var previous := Claim(s, p, [], 1, Some(5), 1, [], None);
            var successor := Claim(s, p, [], 9, None, 2, [], None);
            && Supersede(previous, successor).Ok?
            && !ValidAt(previous, 7) && ValidAt(Supersede(previous, successor).value.0, 7)
  {
  }

  /** Both entries of a supersession in the store. */
  function Appended(rows: Rows, retirement: Claim, successor: Claim): Rows {
    rows[KeyOf(retirement) := retirement][KeyOf(successor) := successor]
  }

  lemma AppendedValues(rows: Rows, a: Claim, b: Claim)
    requires RowsOk(rows) && ValidClaim(a) && ValidClaim(b)
    requires KeyOf(a) !in rows && KeyOf(b) !in rows && KeyOf(a) != KeyOf(b)
    ensures RowsOk(Appended(rows, a, b)) && Appended(rows, a, b).Values == rows.Values + {a, b}
  {
    hide KeyOf;
    var after := Appended(rows, a, b);
    forall c | c in rows.Values + {a, b} ensures c in after.Values {
      if c in rows.Values {
        var k :| k in rows && rows[k] == c;
        assert after[k] == c;
      } else {
        assert after[KeyOf(c)] == c;
      }
    }
  }

  /** After a supersession of the newest claim, its start belongs to the retirement and a new start to the successor. */
  lemma SupersededLatest(rows: Rows, after: Rows, previous: Claim, a: Claim, b: Claim, c: Claim)
    requires after.Values == rows.Values + {a, b} && c in rows.Values && About(c, previous.subject, previous.pred)
    requires About(a, previous.subject, previous.pred) && About(b, previous.subject, previous.pred)
    requires a.validFrom == previous.validFrom < b.validFrom && previous in rows.Values && a.txTime == b.txTime
    requires forall c :: c in rows.Values && About(c, previous.subject, previous.pred) ==>
               c.validFrom <= previous.validFrom && c.txTime < a.txTime
    ensures Latest(after, a) && Latest(after, b)
    ensures Latest(after, c) <==> Latest(rows, c) && c.validFrom != previous.validFrom
  {
    if c.validFrom == previous.validFrom { assert a in after.Values; }
  }

  /**
   Superseding the newest claim: before its start nothing changes, from its start to the successor's the retirement
   resolves, and from the successor's start on the successor does while it is valid.
   */
  lemma SupersedeResolves(rows: Rows, previous: Claim, successor: Claim, t: Millis, before: Option<Claim>)
    requires RowsOk(rows) && previous in rows.Values && Supersede(previous, successor).Ok?
    requires forall c :: c in rows.Values && About(c, previous.subject, previous.pred) ==>
               c.validFrom <= previous.validFrom && c.txTime < successor.txTime
    requires IsAsOf(rows, previous.subject, previous.pred, t, before)
    ensures var (retirement, next) := Supersede(previous, successor).value;
            var after := Appended(rows, retirement, next);
            && RowsOk(after)
            && (t < previous.validFrom ==> IsAsOf(after, previous.subject, previous.pred, t, before))
            && (previous.validFrom <= t < successor.validFrom ==>
                IsAsOf(after, previous.subject, previous.pred, t, Some(retirement)))
            && (ValidAt(next, t) ==> IsAsOf(after, previous.subject, previous.pred, t, Some(next)))
  {
    var (a, b) := Supersede(previous, successor).value;
    SupersedeFreshKeys(rows, previous, a, b);
    hide KeyOf;
    AppendedValues(rows, a, b);
    var after := Appended(rows, a, b);
    hide Appended;
    hide RowsOk;
    SupersededLatest(rows, after, previous, a, b, previous);
    forall c | c in rows.Values && About(c, previous.subject, previous.pred)
      ensures Latest(after, c) <==> Latest(rows, c) && c.validFrom != previous.validFrom
    {
      SupersededLatest(rows, after, previous, a, b, c);
    }
    hide Latest;
    hide IsAsOf;
    SupersededAsOf(rows, after, previous, a, b, t, before);
  }

  lemma SupersededAsOf(rows: Rows, after: Rows, previous: Claim, a: Claim, b: Claim, t: Millis, before: Option<Claim>)
    requires after.Values == rows.Values + {a, b} && Latest(after, a) && Latest(after, b)
    requires About(a, previous.subject, previous.pred) && About(b, previous.subject, previous.pred)
    requires a.validFrom == previous.validFrom && a.validTo == Some(b.validFrom) && a.validFrom < b.validFrom
    requires forall c :: c in rows.Values && About(c, previous.subject, previous.pred) ==>
               c.validFrom <= previous.validFrom &&
                   (Latest(after, c) <==> Latest(rows, c) && c.validFrom != previous.validFrom)
    requires IsAsOf(rows, previous.subject, previous.pred, t, before)
    ensures t < previous.validFrom ==> IsAsOf(after, previous.subject, previous.pred, t, before)
    ensures previous.validFrom <= t < b.validFrom ==> IsAsOf(after, previous.subject, previous.pred, t, Some(a))
    ensures ValidAt(b, t) ==> IsAsOf(after, previous.subject, previous.pred, t, Some(b))
  {
    assert before.Some? ==> Latest(rows, before.value) && before.value in rows.Values;
    hide Latest;
  }

  lemma SupersedeFreshKeys(rows: Rows, previous: Claim, a: Claim, b: Claim)
    requires RowsOk(rows) && a.validFrom != b.validFrom && a.txTime == b.txTime
    requires About(a, previous.subject, previous.pred) && About(b, previous.subject, previous.pred)
    requires forall c :: c in rows.Values && About(c, previous.subject, previous.pred) ==> c.txTime < a.txTime
    ensures KeyOf(a) !in rows && KeyOf(b) !in rows && KeyOf(a) != KeyOf(b)
  {
    hide ClaimKey;
    forall c | c in rows.Values ensures KeyOf(c) != KeyOf(a) && KeyOf(c) != KeyOf(b) {
      if KeyOf(c) == KeyOf(a) { SameFields(c, a); }
      if KeyOf(c) == KeyOf(b) { SameFields(c, b); }
    }
    if KeyOf(a) == KeyOf(b) { SameFields(a, b); }
    assert forall k :: k in rows ==> rows[k] in rows.Values;
  }

  lemma SameFields(c: Claim, d: Claim)
    requires KeyOf(c) == KeyOf(d)
    ensures About(c, d.subject, d.pred) && c.validFrom == d.validFrom && c.txTime == d.txTime
  {
    ClaimKeyInjective(c.subject, c.pred, c.validFrom, c.txTime, d.subject, d.pred, d.validFrom, d.txTime);
  }

  // ---- Windows ----

  /**
   A claim is valid from its start up to, and not including, its end, for ever when it has none; the store takes exactly
   the claims that are valid at some instant.
   */
  lemma WindowsAreHalfOpen(c: Claim, t: Millis)
    ensures ValidClaim(c) <==> ValidAt(c, c.validFrom)
    ensures ValidAt(c, t) ==> ValidClaim(c) && t >= c.validFrom
    ensures c.validTo.Some? ==> !ValidAt(c, c.validTo.value) && (t >= c.validTo.value ==> !ValidAt(c, t))
    ensures t >= c.validFrom && (c.validTo.None? || t < c.validTo.value) ==> ValidAt(c, t)
  {
  }
}
