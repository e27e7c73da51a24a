/** The reference store as an object and recall over it (crates/vyrm-core/src/reference.rs, recall.rs). */
module Recall {
  import opened Common
  import opened ByteOrder
  import opened Keys
  import opened Claims

  /** `list` is the range scan of the rows: exactly the claims whose keys lie in the range, in key order. */
  ghost predicate IsRange(rows: Rows, start: Bytes, end: Option<Bytes>, list: seq<Claim>) {
    && KeyAscending(list)
    && forall c :: c in list <==> c in rows.Values && InRange(KeyOf(c), start, end)
  }

  lemma RowKey(rows: Rows, c: Claim)
    requires RowsOk(rows) && c in rows.Values
    ensures KeyOf(c) in rows && rows[KeyOf(c)] == c
  {
    var k :| k in rows && rows[k] == c;
  }

  /** A seek never starts behind the end of its scan, so the ordered map's range is well formed. */
  lemma SeekInPrefix(subject: Ident, pred: Ident, asOf: Millis, k: Bytes)
    ensures InRange(SeekKey(subject, pred, asOf), VersionPrefix(subject, pred),
                    PrefixBound(VersionPrefix(subject, pred)))
    ensures InRange(k, SeekKey(subject, pred, asOf), PrefixBound(VersionPrefix(subject, pred))) ==>
              InRange(k, VersionPrefix(subject, pred), PrefixBound(VersionPrefix(subject, pred)))
  {
    hide VersionPrefix;
    hide Inverted;
    var prefix, seek := VersionPrefix(subject, pred), SeekKey(subject, pred, asOf);
    assert prefix <= seek;
    PrefixRange(prefix, seek);
    if !Less(k, seek) && Less(k, prefix) {
      LessExtends(k, prefix, Inverted(asOf) + [SEP]);
    }
  }

  class MemoryClaims {
    var rows: Rows

    ghost predicate Valid()
      reads this
    {
      RowsOk(rows)
    }

    constructor ()
      ensures rows == map[] && Valid()
    {
      rows := map[];
    }

    method Insert(claim: Claim) returns (accepted: bool)
      modifies this
      ensures accepted <==> ValidClaim(claim)
      ensures rows == if accepted then old(rows)[KeyOf(claim) := claim] else old(rows)
      ensures old(Valid()) ==> Valid()
    {
      if !ValidClaim(claim) { return false; }
      rows := rows[ClaimKey(claim.subject, claim.pred, claim.validFrom, claim.txTime) := claim];
      return true;
    }

    /** The ordered map's range; an ordered map refuses a range that ends before it starts. */
    method Range(start: Bytes, end: Option<Bytes>) returns (list: seq<Claim>)
      requires Valid() && (end.Some? ==> !Less(end.value, start))
      ensures IsRange(rows, start, end, list)
    {
      hide Less;
      hide ClaimKey;
      var keys := SortedKeys(set k | k in rows && InRange(k, start, end));
      list := [];
      for i := 0 to |keys|
        invariant |list| == i
        invariant forall j :: 0 <= j < i ==> keys[j] in rows && list[j] == rows[keys[j]]
      {
        assert keys[i] in keys;
        list := list + [rows[keys[i]]];
      }
      forall j | 0 <= j < |list| ensures KeyOf(list[j]) == keys[j] && InRange(keys[j], start, end) {
        assert keys[j] in keys;
      }
      forall c | c in rows.Values && InRange(KeyOf(c), start, end) ensures c in list {
        RowKey(rows, c);
        assert KeyOf(c) in keys;
        var j :| 0 <= j < |keys| && keys[j] == KeyOf(c);
        assert list[j] == c;
      }
    }

    /** One seek: the versions of a subject and predicate that start at or before `asOf`. */
    method VersionsAtOrBefore(subject: Ident, pred: Ident, asOf: Millis) returns (list: seq<Claim>)
      requires Valid()
      ensures KeyAscending(list)
      ensures forall c :: c in list <==> c in rows.Values && About(c, subject, pred) && c.validFrom <= asOf
    {
      hide Less;
      hide InRange;
      hide VersionPrefix;
      hide SeekKey;
      hide ClaimKey;
      var prefix, seek := VersionPrefix(subject, pred), SeekKey(subject, pred, asOf);
      var end := PrefixEnd(prefix);
      SeekBeforeEnd(subject, pred, asOf);
      list := Range(seek, end);
      forall c | c in rows.Values
          ensures InRange(KeyOf(c), seek, end) <==> About(c, subject, pred) && c.validFrom <= asOf {
        VersionsRange(c, subject, pred, asOf);
      }
    }

    /** One seek over a subject: all its claims, grouped by predicate. */
    method SubjectVersions(subject: Ident) returns (list: seq<Claim>)
      requires Valid()
      ensures KeyAscending(list)
      ensures forall c :: c in list <==> c in rows.Values && c.subject == subject
    {
      hide Less;
      hide InRange;
      hide SubjectPrefix;
      hide ClaimKey;
      var prefix := SubjectPrefix(subject);
      var end := PrefixEnd(prefix);
      PrefixBeforeEnd(prefix);
      list := Range(prefix, end);
      forall c | c in rows.Values ensures InRange(KeyOf(c), prefix, end) <==> c.subject == subject {
        PrefixRange(prefix, KeyOf(c));
        SubjectPrefixCovers(subject, c.subject, c.pred, c.validFrom, c.txTime);
      }
    }

    /** The byte-range scan and the resolution together give the relational answer. */
    method AsOf(subject: Ident, pred: Ident, at: Millis) returns (r: Option<Claim>)
      requires Valid()
      ensures IsAsOf(rows, subject, pred, at, r)
    {
      var candidates := VersionsAtOrBefore(subject, pred, at);
      r := ResolveAsOf(candidates, at);
      VersionsResolve(rows, subject, pred, at, at, candidates, r);
    }
  }

  lemma PrefixBeforeEnd(prefix: Bytes)
    ensures PrefixBound(prefix).Some? ==> !Less(PrefixBound(prefix).value, prefix)
  {
    PrefixRange(prefix, prefix);
    if PrefixBound(prefix).Some? { LessAsymmetric(prefix, PrefixBound(prefix).value); }
  }

  lemma SeekBeforeEnd(subject: Ident, pred: Ident, asOf: Millis)
    ensures var end := PrefixBound(VersionPrefix(subject, pred));
            end.Some? ==> !Less(end.value, SeekKey(subject, pred, asOf))
  {
    hide SeekKey;
    hide VersionPrefix;
    SeekInPrefix(subject, pred, asOf, []);
    var end := PrefixBound(VersionPrefix(subject, pred));
    if end.Some? { LessAsymmetric(SeekKey(subject, pred, asOf), end.value); }
  }

  /** The key range of a seek, in terms of claims. */
  lemma VersionsRange(c: Claim, subject: Ident, pred: Ident, asOf: Millis)
    ensures InRange(KeyOf(c), SeekKey(subject, pred, asOf), PrefixBound(VersionPrefix(subject, pred))) <==>
            About(c, subject, pred) && c.validFrom <= asOf
  {
    hide SeekKey;
    hide VersionPrefix;
    hide ClaimKey;
    var prefix := VersionPrefix(subject, pred);
    PrefixRange(prefix, KeyOf(c));
    VersionPrefixCovers(subject, pred, c.subject, c.pred, c.validFrom, c.txTime);
    SeekInPrefix(subject, pred, asOf, KeyOf(c));
    if About(c, subject, pred) { SeekSkipsFuture(subject, pred, asOf, c.validFrom, c.txTime); }
  }

  // ---- Recall ----

  datatype Query = Query(subjects: seq<Ident>, preds: Option<seq<Ident>>, asOf: Millis)

  datatype RecallSet = RecallSet(claims: seq<Claim>, tokenEstimate: nat, truncated: bool)

  predicate Wanted(query: Query, pred: Ident) {
    query.preds.None? || pred in query.preds.value
  }

  /** One token per four bytes, rounded up. */
  function Cost(c: Claim): nat {
    (|c.subject| + |c.pred| + |c.obj| + |c.actor| + 3) / 4
  }

  /** The claims in force for one subject, in key order. */
  ghost predicate InForce(rows: Rows, subject: Ident, query: Query, list: seq<Claim>) {
    && KeyAscending(list)
    && forall c :: c in list <==>
       c.subject == subject && (query.preds.None? || c.pred in query.preds.value) &&
           IsAsOf(rows, subject, c.pred, query.asOf, Some(c))
  }

  /** The claims in force are one determined list. */
  lemma InForceUnique(rows: Rows, subject: Ident, query: Query, a: seq<Claim>, b: seq<Claim>)
    requires RowsOk(rows) && InForce(rows, subject, query, a) && InForce(rows, subject, query, b)
    ensures a == b
  {
    hide ClaimKey;
    hide RowsOk;
    SameKeys(a, b);
    SameKeys(b, a);
    AscendsUnique(KeysOf(a), KeysOf(b));
    forall i | 0 <= i < |a| ensures a[i] == b[i] {
      assert a[i] in a && b[i] in b && KeysOf(a)[i] == KeysOf(b)[i];
      RowKey(rows, a[i]);
      RowKey(rows, b[i]);
    }
  }

  function KeysOf(list: seq<Claim>): seq<Bytes> {
    seq(|list|, i requires 0 <= i < |list| => KeyOf(list[i]))
  }

  lemma SameKeys(a: seq<Claim>, b: seq<Claim>)
    requires forall c :: c in a ==> c in b
    ensures forall k :: k in KeysOf(a) ==> k in KeysOf(b)
  {
    hide KeyOf;
    forall k | k in KeysOf(a) ensures k in KeysOf(b) {
      var i :| 0 <= i < |a| && KeysOf(a)[i] == k;
      assert a[i] in b;
      var j :| 0 <= j < |b| && b[j] == a[i];
      assert KeysOf(b)[j] == k;
    }
  }

  /** A match is taken while it fits, and the first match is always taken. */
  function Take(r: RecallSet, next: Claim, budget: nat): RecallSet {
    if r.claims == [] || r.tokenEstimate + Cost(next) <= budget
    then RecallSet(r.claims + [next], r.tokenEstimate + Cost(next), r.truncated)
    else r.(truncated := true)
  }

  /** The budget fill over all matches in order. */
  function Fill(matches: seq<Claim>, budget: nat): RecallSet {
    if matches == [] then RecallSet([], 0, false)
    else Take(Fill(matches[..|matches| - 1], budget), matches[|matches| - 1], budget)
  }

  lemma FillAppend(matches: seq<Claim>, next: Claim, budget: nat)
    ensures Fill(matches + [next], budget) == Take(Fill(matches, budget), next, budget)
  {
    assert (matches + [next])[..|matches|] == matches;
  }

  function Flatten(lists: seq<seq<Claim>>): seq<Claim> {
    if lists == [] then [] else Flatten(lists[..|lists| - 1]) + lists[|lists| - 1]
  }

  /** Subjects in query order, repeats skipped. */
  function Distinct(subjects: seq<Ident>): seq<Ident> {
    if subjects == [] then []
    else
      var before, last := Distinct(subjects[..|subjects| - 1]), subjects[|subjects| - 1];
      if last in before then before else before + [last]
  }

  /** Keys between two extensions of a prefix extend it too, so a predicate's claims are one run of the scan. */
  lemma PrefixConvex(p: Bytes, a: Bytes, b: Bytes, c: Bytes)
    requires p <= a && p <= c && Less(a, b) && Less(b, c)
    ensures p <= b
  {
    PrefixRange(p, a);
    PrefixRange(p, b);
    PrefixRange(p, c);
    if Less(b, p) { LessTransitive(a, b, p); }
    if PrefixBound(p).Some? { LessTransitive(b, c, PrefixBound(p).value); }
  }

  lemma RunsAreWhole(list: seq<Claim>, i: nat, j: nat, k: nat)
    requires KeyAscending(list) && i < j < k < |list|
    requires list[i].subject == list[k].subject && list[i].pred == list[k].pred
    ensures list[j].pred == list[i].pred
  {
    hide ClaimKey;
    hide VersionPrefix;
    var p := VersionPrefix(list[i].subject, list[i].pred);
    VersionPrefixCovers(list[i].subject, list[i].pred, list[i].subject, list[i].pred, list[i].validFrom,
                        list[i].txTime);
    VersionPrefixCovers(list[i].subject, list[i].pred, list[j].subject, list[j].pred, list[j].validFrom,
                        list[j].txTime);
    VersionPrefixCovers(list[i].subject, list[i].pred, list[k].subject, list[k].pred, list[k].validFrom,
                        list[k].txTime);
    PrefixConvex(p, KeyOf(list[i]), KeyOf(list[j]), KeyOf(list[k]));
  }

  /** No predicate has claims on both sides of a group boundary. */
  ghost predicate Boundary(list: seq<Claim>, index: nat) {
    index <= |list| && forall i, j :: 0 <= i < index <= j < |list| ==> list[i].pred != list[j].pred
  }

  lemma NextBoundary(list: seq<Claim>, subject: Ident, index: nat, end: nat)
    requires KeyAscending(list) && (forall c :: c in list ==> c.subject == subject) && Boundary(list, index)
    requires index < end <= |list| && (forall i :: index <= i < end ==> list[i].pred == list[index].pred)
    requires end == |list| || list[end].pred != list[index].pred
    ensures Boundary(list, end)
  {
    forall i, j | 0 <= i < end <= j < |list| ensures list[i].pred != list[j].pred {
      assert list[i] in list && list[j] in list;
      if i >= index && end < j && list[i].pred == list[j].pred { RunsAreWhole(list, i, end, j); }
    }
  }

  /** A whole group is every version of its predicate. */
  lemma GroupIsAll(rows: Rows, list: seq<Claim>, subject: Ident, index: nat, end: nat)
    requires index < end <= |list| && Boundary(list, index) && Boundary(list, end) && KeyAscending(list)
    requires forall c :: c in list <==> c in rows.Values && c.subject == subject
    requires forall i :: index <= i < end ==> list[i].pred == list[index].pred
    ensures KeyAscending(list[index..end])
    ensures forall c :: c in list[index..end] <==>
            c in rows.Values && About(c, subject, list[index].pred) && c.validFrom <= U64_MAX
  {
    hide KeyOf;
    var p, group := list[index].pred, list[index..end];
    forall c | c in rows.Values && About(c, subject, p) ensures c in group {
      assert c in list;
      var i :| 0 <= i < |list| && list[i] == c;
      assert index <= i < end;
      assert group[i - index] == c;
    }
  }

  /** The part of `found` contributed by the scan up to `index`. */
  ghost predicate FoundUpTo(rows: Rows, list: seq<Claim>, subject: Ident, query: Query, index: nat, found: seq<Claim>)
    requires index <= |list|
  {
    && KeyAscending(found)
    && forall c :: c in found <==>
       c in list[..index] && Wanted(query, c.pred) && IsAsOf(rows, subject, c.pred, query.asOf, Some(c))
  }

  /** Within one whole group only the resolved claim is an as-of answer. */
  lemma GroupAnswer(rows: Rows, group: seq<Claim>, subject: Ident, pred: Ident, t: Millis, r: Option<Claim>, c: Claim)
    requires RowsOk(rows) && (forall c :: c in group ==> c.pred == pred) && IsAsOf(rows, subject, pred, t, r)
    requires r.Some? ==> r.value in group
    ensures c in group && IsAsOf(rows, subject, c.pred, t, Some(c)) <==> r == Some(c)
  {
    hide IsAsOf;
    hide RowsOk;
    if c in group && IsAsOf(rows, subject, c.pred, t, Some(c)) {
      AsOfUnique(rows, subject, pred, t, r, Some(c));
    }
  }

  lemma AppendAscending(list: seq<Claim>, index: nat, end: nat, found: seq<Claim>, c: Claim)
    requires KeyAscending(list) && index <= end <= |list| && KeyAscending(found)
    requires (forall x :: x in found ==> x in list[..index]) && c in list[index..end]
    ensures KeyAscending(found + [c])
  {
    hide KeyOf;
    var j :| 0 <= j < end - index && list[index..end][j] == c;
    assert list[index + j] == c;
    forall i | 0 <= i < |found| ensures Less(KeyOf(found[i]), KeyOf(c)) {
      assert found[i] in list[..index];
      var x :| 0 <= x < index && list[..index][x] == found[i];
      assert list[x] == found[i];
    }
  }

  lemma FoundGroup(rows: Rows, list: seq<Claim>, subject: Ident, query: Query, index: nat, end: nat, found: seq<Claim>,
                   r: Option<Claim>)
    requires RowsOk(rows) && KeyAscending(list) && index < end <= |list|
    requires FoundUpTo(rows, list, subject, query, index, found)
    requires forall i :: index <= i < end ==> list[i].pred == list[index].pred
    requires IsAsOf(rows, subject, list[index].pred, query.asOf, r)
    requires r.Some? ==> r.value in list[index..end]
    ensures FoundUpTo(rows, list, subject, query, end,
                      if r.Some? && Wanted(query, list[index].pred) then found + [r.value] else found)
  {
    hide KeyAscending;
    hide IsAsOf;
    hide RowsOk;
    var p, group := list[index].pred, list[index..end];
    var found' := if r.Some? && Wanted(query, p) then found + [r.value] else found;
    assert forall c :: c in group ==> c.pred == p;
    assert list[..end] == list[..index] + group;
    if r.Some? { AppendAscending(list, index, end, found, r.value); }
    forall c ensures c in found' <==>
        c in list[..end] && Wanted(query, c.pred) && IsAsOf(rows, subject, c.pred, query.asOf, Some(c)) {
      GroupAnswer(rows, group, subject, p, query.asOf, r, c);
    }
  }

  lemma FoundAll(rows: Rows, list: seq<Claim>, subject: Ident, query: Query, found: seq<Claim>)
    requires FoundUpTo(rows, list, subject, query, |list|, found)
    requires forall c :: c in list <==> c in rows.Values && c.subject == subject
    ensures InForce(rows, subject, query, found)
  {
    hide KeyOf;
    assert list[..|list|] == list;
  }

  /** The grouping loop over one subject's scan, filling the budget as it goes. */
  method RecallSubject(store: MemoryClaims, subject: Ident, query: Query, budget: nat, ghost before: seq<Claim>,
                       so: RecallSet)
    returns (recalled: RecallSet)
    requires store.Valid() && so == Fill(before, budget)
    ensures exists found :: InForce(store.rows, subject, query, found) && recalled == Fill(before + found, budget)
  {
    hide KeyOf;
    hide InForce;
    hide FoundUpTo;
    hide Boundary;
    hide IsAsOf;
    hide RowsOk;
    hide KeyAscending;
    hide Fill;
    hide ResolvesTo;
    var versions := store.SubjectVersions(subject);
    var included: seq<Claim>, spent: nat, truncated := so.claims, so.tokenEstimate, so.truncated;
    ghost var found: seq<Claim> := [];
    StartScan(store.rows, versions, subject, query);
    assert before + found == before;
    var index := 0;
    while index < |versions|
      invariant 0 <= index <= |versions| && Boundary(versions, index)
      invariant FoundUpTo(store.rows, versions, subject, query, index, found)
      invariant RecallSet(included, spent, truncated) == Fill(before + found, budget)
    {
      var pred := versions[index].pred;
      var end := index;
      while end < |versions| && versions[end].pred == pred
        invariant index <= end <= |versions|
        invariant forall i :: index <= i < end ==> versions[i].pred == pred
        decreases |versions| - end
      {
        end := end + 1;
      }
      NextBoundary(versions, subject, index, end);
      GroupIsAll(store.rows, versions, subject, index, end);
      var group := versions[index..end];
      var current := ResolveAsOf(group, query.asOf);
      VersionsResolve(store.rows, subject, pred, query.asOf, U64_MAX, group, current);
      ResolvedMember(group, query.asOf, current);
      FoundGroup(store.rows, versions, subject, query, index, end, found, current);
      index := end;
      if Wanted(query, pred) && current.Some? {
        var cost := Cost(current.value);
        FillAppend(before + found, current.value, budget);
        AppendAssoc(before, found, [current.value]);
        if included == [] || spent + cost <= budget {
          spent := spent + cost;
          included := included + [current.value];
        } else {
          truncated := true;
        }
        found := found + [current.value];
      }
    }
    FoundAll(store.rows, versions, subject, query, found);
    recalled := RecallSet(included, spent, truncated);
  }

  lemma StartScan(rows: Rows, list: seq<Claim>, subject: Ident, query: Query)
    ensures Boundary(list, 0) && FoundUpTo(rows, list, subject, query, 0, [])
  {
  }

  lemma ResolvedMember(list: seq<Claim>, t: Millis, r: Option<Claim>)
    requires ResolvesTo(list, t, r)
    ensures r.Some? ==> r.value in list
  {
  }

  /** One list per subject: its claims in force, each the relational as-of answer of its predicate. */
  ghost predicate AllInForce(rows: Rows, subjects: seq<Ident>, query: Query, lists: seq<seq<Claim>>) {
    |lists| == |subjects| && forall i :: 0 <= i < |lists| ==> InForce(rows, subjects[i], query, lists[i])
  }

  /** Recall visits the distinct subjects in query order and fills the budget with the claims in force of them all. */
  ghost predicate IsRecall(rows: Rows, query: Query, budget: nat, recalled: RecallSet) {
    exists lists :: AllInForce(rows, Distinct(query.subjects), query, lists) && recalled == Fill(Flatten(lists), budget)
  }

  /** Rows, query and budget determine the recalled set. */
  lemma RecallDetermined(rows: Rows, query: Query, budget: nat, a: RecallSet, b: RecallSet)
    requires RowsOk(rows) && IsRecall(rows, query, budget, a) && IsRecall(rows, query, budget, b)
    ensures a == b
  {
    hide InForce;
    hide RowsOk;
    hide Fill;
    var subjects := Distinct(query.subjects);
    var x :| AllInForce(rows, subjects, query, x) && a == Fill(Flatten(x), budget);
    var y :| AllInForce(rows, subjects, query, y) && b == Fill(Flatten(y), budget);
    forall i | 0 <= i < |x| ensures x[i] == y[i] {
      InForceUnique(rows, subjects[i], query, x[i], y[i]);
    }
    assert x == y;
  }

  method Recall(store: MemoryClaims, query: Query, budget: nat) returns (recalled: RecallSet)
    requires store.Valid()
    ensures IsRecall(store.rows, query, budget, recalled)
  {
    hide InForce;
    var visited: seq<Ident> := [];
    recalled := RecallSet([], 0, false);
    ghost var lists: seq<seq<Claim>> := [];
    for i := 0 to |query.subjects|
      invariant visited == Distinct(query.subjects[..i]) && AllInForce(store.rows, visited, query, lists)
      invariant recalled == Fill(Flatten(lists), budget)
    {
      var subject := query.subjects[i];
      assert query.subjects[..i + 1][..i] == query.subjects[..i];
      if subject !in visited {
        visited := visited + [subject];
        recalled := RecallSubject(store, subject, query, budget, Flatten(lists), recalled);
        ghost var found :| InForce(store.rows, subject, query, found) &&
            recalled == Fill(Flatten(lists) + found, budget);
        assert (lists + [found])[..|lists|] == lists;
        lists := lists + [found];
      }
    }
    assert query.subjects[..|query.subjects|] == query.subjects;
  }

  // ---- What the fill promises ----

  function Total(claims: seq<Claim>): nat {
    if claims == [] then 0 else Total(claims[..|claims| - 1]) + Cost(claims[|claims| - 1])
  }

  /** The estimate is exact, truncation is reported exactly, and only a single oversized claim exceeds the budget. */
  ghost predicate FillOk(matches: seq<Claim>, budget: nat, r: RecallSet) {
    && r.tokenEstimate == Total(r.claims)
    && (r.truncated <==> |r.claims| < |matches|) && |r.claims| <= |matches|
    && (forall c :: c in r.claims ==> c in matches)
    && (matches != [] ==> r.claims != [] && r.claims[0] == matches[0])
    && (r.tokenEstimate <= budget || |r.claims| == 1)
  }

  lemma TakeKeeps(matches: seq<Claim>, budget: nat, r: RecallSet, next: Claim)
    requires FillOk(matches, budget, r)
    ensures FillOk(matches + [next], budget, Take(r, next, budget))
  {
    hide Cost;
    var longer := r.claims + [next];
    assert Total(longer) == Total(r.claims) + Cost(next) by { assert longer[..|r.claims|] == r.claims; }
    hide Total;
  }

  lemma {:induction false} FillMeaning(matches: seq<Claim>, budget: nat)
    ensures FillOk(matches, budget, Fill(matches, budget))
  {
    if matches != [] {
      var front, last := matches[..|matches| - 1], matches[|matches| - 1];
      FillMeaning(front, budget);
      hide FillOk;
      assert matches == front + [last];
      FillAppend(front, last, budget);
      TakeKeeps(front, budget, Fill(front, budget), last);
    }
  }

  /** `f` is the first match that does not fit. */
  ghost predicate FirstOverflow(matches: seq<Claim>, budget: nat, f: nat) {
    && 0 < f < |matches|
    && Fill(matches[..f], budget).claims == matches[..f]
    && Fill(matches[..f], budget).tokenEstimate + Cost(matches[f]) > budget
  }

  ghost predicate NoneFits(matches: seq<Claim>, from: nat, spent: nat, budget: nat) {
    forall j :: from <= j < |matches| ==> spent + Cost(matches[j]) > budget
  }

  lemma StopsStep(r: RecallSet, next: Claim, budget: nat, spent: nat, f: nat)
    requires 0 < f <= |r.claims| && (|r.claims| == f ==> r.tokenEstimate == spent)
    ensures var t := Take(r, next, budget);
            && |t.claims| >= f
            && (|t.claims| == f <==> |r.claims| == f && spent + Cost(next) > budget)
            && (|t.claims| == f ==> t.claims == r.claims && t.tokenEstimate == spent)
  {
    hide Cost;
  }

  lemma {:induction false} StopsAtOverflow(matches: seq<Claim>, budget: nat, f: nat, spent: nat)
    requires FirstOverflow(matches, budget, f) && spent == Fill(matches[..f], budget).tokenEstimate
    ensures var r := Fill(matches, budget);
            && |r.claims| >= f && (|r.claims| == f <==> NoneFits(matches, f + 1, spent, budget))
            && (|r.claims| == f ==> r.claims == matches[..f] && r.tokenEstimate == spent)
    decreases |matches|
  {
    hide Cost;
    hide Take;
    var n := |matches| - 1;
    var front, last := matches[..n], matches[n];
    assert matches == front + [last];
    FillAppend(front, last, budget);
    hide Fill;
    var r := Fill(front, budget);
    if f < n {
      assert front[..f] == matches[..f];
      StopsAtOverflow(front, budget, f, spent);
      StopsStep(r, last, budget, spent, f);
      assert NoneFits(matches, f + 1, spent, budget) <==>
             NoneFits(front, f + 1, spent, budget) && spent + Cost(last) > budget;
    } else {
      assert front == matches[..f];
      StopsStep(r, last, budget, spent, f);
      assert NoneFits(matches, f + 1, spent, budget);
    }
  }

  /**
   The fill stops at the first claim that does not fit exactly when no later match fits either; otherwise it skips
   that claim and goes on.
   */
  lemma StopsAtOverflowIff(matches: seq<Claim>, budget: nat, f: nat)
    requires FirstOverflow(matches, budget, f)
    ensures Fill(matches, budget).claims == matches[..f] <==>
            NoneFits(matches, f + 1, Fill(matches[..f], budget).tokenEstimate, budget)
  {
    hide Fill;
    hide NoneFits;
    StopsAtOverflow(matches, budget, f, Fill(matches[..f], budget).tokenEstimate);
  }

  // ---- A recall that goes on after an overflow ----

  const ABOUT: Ident := [112]

  /** The only claim about its subject, of one token plus one per four bytes of its object. */
  function Only(subject: Byte, obj: Bytes): Claim
    requires subject != SEP
  {
    Claim([subject], ABOUT, obj, 0, None, 0, [97], None)
  }

  const SMALL: Claim := Only(1, [])
  const LARGE: Claim := Only(2, [0, 0, 0, 0, 0, 0, 0, 0])
  const LAST: Claim := Only(3, [])
  const THREE: Rows := map[KeyOf(SMALL) := SMALL, KeyOf(LARGE) := LARGE, KeyOf(LAST) := LAST]
  const ALL: Query := Query([[1], [2], [3]], None, 0)

  lemma ThreeRows()
    ensures RowsOk(THREE) && THREE.Values == {SMALL, LARGE, LAST}
  {
    hide ClaimKey;
    if KeyOf(SMALL) == KeyOf(LARGE) { ClaimKeyInjective([1], ABOUT, 0, 0, [2], ABOUT, 0, 0); }
    if KeyOf(SMALL) == KeyOf(LAST) { ClaimKeyInjective([1], ABOUT, 0, 0, [3], ABOUT, 0, 0); }
    if KeyOf(LARGE) == KeyOf(LAST) { ClaimKeyInjective([2], ABOUT, 0, 0, [3], ABOUT, 0, 0); }
    assert THREE[KeyOf(SMALL)] == SMALL && THREE[KeyOf(LARGE)] == LARGE && THREE[KeyOf(LAST)] == LAST;
    assert SMALL in THREE.Values && LARGE in THREE.Values && LAST in THREE.Values;
  }

  lemma OnlyInForce(c: Claim)
    requires c in {SMALL, LARGE, LAST}
    ensures InForce(THREE, c.subject, ALL, [c])
  {
    hide ClaimKey;
    ThreeRows();
    assert SMALL.subject[0] == 1 && LARGE.subject[0] == 2 && LAST.subject[0] == 3;
    forall d ensures d in [c] <==>
        d.subject == c.subject && Wanted(ALL, d.pred) && IsAsOf(THREE, c.subject, d.pred, ALL.asOf, Some(d)) {
      if IsAsOf(THREE, c.subject, d.pred, ALL.asOf, Some(d)) && d.subject == c.subject { assert d in THREE.Values; }
      assert Latest(THREE, c);
    }
  }

  lemma SmallTwice()
    ensures Fill([SMALL, LARGE, LAST], 2) == RecallSet([SMALL, LAST], 2, true)
  {
    var matches := [SMALL, LARGE, LAST];
    assert matches[..2] == [SMALL, LARGE] && [SMALL, LARGE][..1] == [SMALL] && [SMALL][..0] == [];
    assert Fill([SMALL], 2) == RecallSet([SMALL], 1, false);
    assert Fill([SMALL, LARGE], 2) == RecallSet([SMALL], 1, true);
  }

  lemma ThreeSubjects()
    ensures Distinct(ALL.subjects) == [SMALL.subject, LARGE.subject, LAST.subject]
    ensures Flatten([[SMALL], [LARGE], [LAST]]) == [SMALL, LARGE, LAST]
  {
    var subjects := ALL.subjects;
    assert subjects[..2][..1] == subjects[..1] && subjects[..1][..0] == [];
    assert Distinct(subjects[..1]) == [subjects[0]];
    assert subjects[0][0] == 1 && subjects[1][0] == 2 && subjects[2][0] == 3;
    assert Distinct(subjects[..2]) == [subjects[0], subjects[1]];
    var lists := [[SMALL], [LARGE], [LAST]];
    assert lists[..2] == [[SMALL], [LARGE]] && [[SMALL], [LARGE]][..1] == [[SMALL]] && [[SMALL]][..0] == [];
    assert Flatten([[SMALL]]) == [SMALL];
    assert Flatten([[SMALL], [LARGE]]) == [SMALL, LARGE];
  }

  /** Recalling three subjects with room for two tokens passes over the second, larger claim and takes the third. */
  lemma SkipsAndContinues(recalled: RecallSet)
    ensures RowsOk(THREE) && (IsRecall(THREE, ALL, 2, recalled) <==> recalled == RecallSet([SMALL, LAST], 2, true))
  {
    hide InForce;
    hide Fill;
    hide Distinct;
    hide Flatten;
    ThreeRows();
    hide RowsOk;
    OnlyInForce(SMALL);
    OnlyInForce(LARGE);
    OnlyInForce(LAST);
    SmallTwice();
    ThreeSubjects();
    var expected := RecallSet([SMALL, LAST], 2, true);
    assert AllInForce(THREE, Distinct(ALL.subjects), ALL, [[SMALL], [LARGE], [LAST]]);
    assert IsRecall(THREE, ALL, 2, expected);
    hide IsRecall;
    if IsRecall(THREE, ALL, 2, recalled) { RecallDetermined(THREE, ALL, 2, recalled, expected); }
  }
}
