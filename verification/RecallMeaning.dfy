/** What a recall contains, spelt out (crates/vyrm-core/src/recall.rs). */
module RecallMeaning {
  import opened Common
  import opened ByteOrder
  import opened Keys
  import opened Claims
  import opened Recall

  // ---- The claims of some predicates ----

  /** The claims of a list about the given predicates, in order. */
  function About(list: seq<Claim>, preds: seq<Ident>): (r: seq<Claim>)
    ensures forall c :: c in r <==> c in list && c.pred in preds
  {
    if list == [] then []
    else
      var front, last := list[..|list| - 1], list[|list| - 1];
      assert list == front + [last];
      About(front, preds) + if last.pred in preds then [last] else []
  }

  lemma {:induction false} AboutConcat(a: seq<Claim>, b: seq<Claim>, preds: seq<Ident>)
    ensures About(a + b, preds) == About(a, preds) + About(b, preds)
  {
    if b == [] {
      assert a + b == a;
    } else {
      var n := |b| - 1;
      assert (a + b)[..|a + b| - 1] == a + b[..n];
      AboutConcat(a, b[..n], preds);
    }
  }

  lemma {:induction false} AboutAscends(list: seq<Claim>, preds: seq<Ident>)
    requires KeyAscending(list)
    ensures KeyAscending(About(list, preds))
  {
    hide KeyOf;
    if list != [] {
      var front, last := list[..|list| - 1], list[|list| - 1];
      AboutAscends(front, preds);
      var few := About(front, preds);
      forall i | 0 <= i < |few| ensures Less(KeyOf(few[i]), KeyOf(last)) {
        assert few[i] in front;
        var j :| 0 <= j < |front| && front[j] == few[i];
        assert list[j] == few[i];
      }
    }
  }

  /** Naming predicates leaves, of the claims in force for a subject, exactly those about them. */
  lemma InForceFiltered(rows: Rows, subject: Ident, query: Query, all: seq<Claim>, list: seq<Claim>)
    requires RowsOk(rows) && query.preds.Some?
    requires InForce(rows, subject, query.(preds := None), all)
    ensures InForce(rows, subject, query, list) <==> list == About(all, query.preds.value)
  {
    var few := About(all, query.preds.value);
    AboutAscends(all, query.preds.value);
    hide KeyAscending;
    hide IsAsOf;
    hide RowsOk;
    assert InForce(rows, subject, query, few);
    if InForce(rows, subject, query, list) { InForceUnique(rows, subject, query, few, list); }
  }

  function EachAbout(lists: seq<seq<Claim>>, preds: seq<Ident>): seq<seq<Claim>> {
    seq(|lists|, i requires 0 <= i < |lists| => About(lists[i], preds))
  }

  lemma {:induction false} FlattenAbout(lists: seq<seq<Claim>>, preds: seq<Ident>)
    ensures Flatten(EachAbout(lists, preds)) == About(Flatten(lists), preds)
  {
    if lists != [] {
      var front, last := lists[..|lists| - 1], lists[|lists| - 1];
      FlattenAbout(front, preds);
      AboutConcat(Flatten(front), last, preds);
      assert EachAbout(lists, preds)[..|lists| - 1] == EachAbout(front, preds);
    }
  }

  /**
   A recall of named predicates fills the budget with the claims about them alone: whatever all predicates would bring
   is filtered first.
   */
  lemma RecallFiltered(rows: Rows, query: Query, budget: nat, lists: seq<seq<Claim>>, recalled: RecallSet)
    requires RowsOk(rows) && query.preds.Some?
    requires AllInForce(rows, Distinct(query.subjects), query.(preds := None), lists)
    ensures IsRecall(rows, query, budget, recalled) <==>
            recalled == Fill(About(Flatten(lists), query.preds.value), budget)
  {
    hide InForce;
    hide RowsOk;
    hide Fill;
    hide Flatten;
    hide Distinct;
    var subjects, preds := Distinct(query.subjects), query.preds.value;
    forall i | 0 <= i < |lists| ensures InForce(rows, subjects[i], query, EachAbout(lists, preds)[i]) {
      InForceFiltered(rows, subjects[i], query, lists[i], EachAbout(lists, preds)[i]);
    }
    FlattenAbout(lists, preds);
    assert AllInForce(rows, subjects, query, EachAbout(lists, preds));
    var expected := Fill(About(Flatten(lists), preds), budget);
    assert IsRecall(rows, query, budget, expected);
    if IsRecall(rows, query, budget, recalled) { RecallDetermined(rows, query, budget, recalled, expected); }
  }

  /** Without named predicates every claim in force counts. */
  lemma InForceWithoutFilter(rows: Rows, subject: Ident, query: Query, list: seq<Claim>, c: Claim)
    requires query.preds.None? && InForce(rows, subject, query, list)
    ensures c in list <==> c.subject == subject && IsAsOf(rows, subject, c.pred, query.asOf, Some(c))
  {
    hide IsAsOf;
  }

  lemma {:induction false} Flattened(lists: seq<seq<Claim>>, c: Claim)
    ensures c in Flatten(lists) <==> exists i :: 0 <= i < |lists| && c in lists[i]
  {
    if lists != [] {
      Flattened(lists[..|lists| - 1], c);
      assert lists == lists[..|lists| - 1] + [lists[|lists| - 1]];
    }
  }

  /** Every recalled claim is asked for: by subject, by predicate, and in force at the instant. */
  lemma RecalledIsWanted(rows: Rows, query: Query, budget: nat, recalled: RecallSet, c: Claim)
    requires RowsOk(rows) && IsRecall(rows, query, budget, recalled) && c in recalled.claims
    ensures c.subject in query.subjects && IsAsOf(rows, c.subject, c.pred, query.asOf, Some(c))
    ensures query.preds.Some? ==> c.pred in query.preds.value
  {
    hide RowsOk;
    hide IsAsOf;
    hide Fill;
    hide KeyAscending;
    var subjects := Distinct(query.subjects);
    var lists :| AllInForce(rows, subjects, query, lists) && recalled == Fill(Flatten(lists), budget);
    FillMeaning(Flatten(lists), budget);
    Flattened(lists, c);
    var i :| 0 <= i < |lists| && c in lists[i];
    assert InForce(rows, subjects[i], query, lists[i]);
    DistinctMeaning(query.subjects);
  }

  // ---- The order of subjects ----


  /** Every subject once, in the order of first mentions. */
  lemma {:induction false} DistinctMeaning(subjects: seq<Ident>)
    ensures forall s :: s in Distinct(subjects) <==> s in subjects
    ensures forall i, j :: 0 <= i < j < |Distinct(subjects)| ==> Distinct(subjects)[i] != Distinct(subjects)[j]
    ensures forall i, j :: 0 <= i < j < |Distinct(subjects)| ==>
              exists p :: 0 <= p < |subjects| && subjects[p] == Distinct(subjects)[i] &&
                  Distinct(subjects)[j] !in subjects[..p]
  {
    if subjects != [] {
      var n := |subjects| - 1;
      var front, last := subjects[..n], subjects[n];
      DistinctMeaning(front);
      assert subjects == front + [last];
      var before, all := Distinct(front), Distinct(subjects);
      forall i, j | 0 <= i < j < |all|
        ensures exists p :: 0 <= p < |subjects| && subjects[p] == all[i] && all[j] !in subjects[..p]
      {
        if j < |before| {
          var p :| 0 <= p < |front| && front[p] == before[i] && before[j] !in front[..p];
          assert subjects[p] == all[i] && subjects[..p] == front[..p];
        } else {
          assert before[i] in front;
          var p :| 0 <= p < |front| && front[p] == before[i];
          assert subjects[p] == all[i];
          assert subjects[..p] == front[..p];
          assert last !in front;
        }
      }
    }
  }

  /** Lists are joined in order. */
  lemma {:induction false} FlattenConcat(a: seq<seq<Claim>>, b: seq<seq<Claim>>)
    ensures Flatten(a + b) == Flatten(a) + Flatten(b)
    ensures forall list :: Flatten([list]) == list
  {
    forall list ensures Flatten([list]) == list {
      assert [list][..0] == [];
    }
    if b == [] {
      assert a + b == a;
    } else {
      var n := |b| - 1;
      assert (a + b)[..|a + b| - 1] == a + b[..n];
      FlattenConcat(a, b[..n]);
    }
  }

  /** The estimate of a claim is the least number of four-byte tokens that holds its texts. */
  lemma CostMeaning(c: Claim, tokens: nat)
    ensures var bytes := |c.subject| + |c.pred| + |c.obj| + |c.actor|; Cost(c) <= tokens <==> bytes <= 4 * tokens
  {
  }
}
