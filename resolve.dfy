/**
 * The uniqueness resolver: `_assert_one_or_none` and `_assert_unique`.
 * Each is specified as a function of the collection before the call that
 * returns the outcome together with the collection after it (the only change
 * it can make is the `dedup` it runs on true duplicates).
 */
module Resolve {
  import opened Wrappers
  import opened Documents
  import opened Dedup

  /** The error kinds: `KeyError` on an ambiguous key, `ValueError` on non-unique or no documents. */
  datatype ResolveError = AmbiguousKey(field: string, values: set<Value>) | NonUnique(count: nat) | NoMatch

  datatype Outcome = Pass | Fail(error: ResolveError)

  /** The first primary-key field, in declaration order, with more than one distinct value among the live matches. */
  function FirstAmbiguous(docs: seq<Doc>, q: Query, keys: seq<string>): (r: Option<string>)
    ensures r.Some? ==> r.value in keys && |DistinctValues(docs, q, r.value)| > 1
  {
    if keys == [] then None
    else if |DistinctValues(docs, q, keys[0])| > 1 then Some(keys[0])
    else FirstAmbiguous(docs, q, keys[1..])
  }

  /** `_assert_one_or_none` on collection `docs`; `now` is the time a `dedup` would stamp. */
  function OneOrNone(docs: seq<Doc>, q: Query, pk: seq<string>, now: int): (res: (Result<nat, ResolveError>, seq<Doc>))
    ensures res.0.Ok? ==> res.0.value <= 1 && res.0.value == |Matches(res.1, q)|
    ensures |Matches(docs, q)| <= 1 ==> res == (Ok(|Matches(docs, q)|), docs)
    ensures res.1 == docs || res.1 == Deduped(docs, q, pk, now)
    ensures res.0.Err? && res.0.error.AmbiguousKey? ==>
              res.1 == docs && res.0.error.field in pk && |res.0.error.values| > 1
    ensures res.0.Err? ==> !res.0.error.NoMatch?
    ensures res.0.Err? && res.0.error.AmbiguousKey? ==>
              res.0.error.values == DistinctValues(docs, q, res.0.error.field)
    ensures |Matches(docs, q)| > 1 && |pk| > 0 && FirstAmbiguous(docs, q, pk).None? ==>
              && res.1 == Deduped(docs, q, pk, now)
              && res.0 == (if |Matches(res.1, q)| <= 1 then Ok(|Matches(res.1, q)|) else Err(NonUnique(|Matches(res.1, q)|)))
  {
    var n := |Matches(docs, q)|;
    if n <= 1 then (Ok(n), docs)
    else if |pk| == 0 then (Err(NonUnique(n)), docs)
    else match FirstAmbiguous(docs, q, pk)
      case Some(f) => (Err(AmbiguousKey(f, DistinctValues(docs, q, f))), docs)
      case None =>
        var after := Deduped(docs, q, pk, now);
        var m := |Matches(after, q)|;
        if m <= 1 then (Ok(m), after) else (Err(NonUnique(m)), after)
  }

  /** `_assert_unique`: as `OneOrNone`, and a count of zero is a failure too. */
  function Unique(docs: seq<Doc>, q: Query, pk: seq<string>, now: int): (res: (Outcome, seq<Doc>))
    ensures res.0.Pass? ==> |Matches(res.1, q)| == 1
    ensures |Matches(docs, q)| == 0 ==> res == (Fail(NoMatch), docs)
    ensures res.1 == OneOrNone(docs, q, pk, now).1
    ensures res.0.Pass? <==> OneOrNone(docs, q, pk, now).0 == Ok(1)
    ensures OneOrNone(docs, q, pk, now).0.Err? ==> res.0 == Fail(OneOrNone(docs, q, pk, now).0.error)
    ensures |Matches(docs, q)| == 1 ==> res == (Pass, docs)
  {
    var (r, after) := OneOrNone(docs, q, pk, now);
    match r
    case Ok(n) => if n == 0 then (Fail(NoMatch), after) else (Pass, after)
    case Err(e) => (Fail(e), after)
  }

  /** No field is ambiguous exactly when every primary-key field has at most one distinct value. */
  lemma {:induction false} FirstAmbiguousNone(docs: seq<Doc>, q: Query, keys: seq<string>)
    ensures FirstAmbiguous(docs, q, keys).None? <==> forall f :: f in keys ==> |DistinctValues(docs, q, f)| <= 1
  {
    if keys != [] {
      FirstAmbiguousNone(docs, q, keys[1..]);
      assert forall f :: f in keys <==> f == keys[0] || f in keys[1..];
    }
  }

  /**
   * Several matches and a key field with several values: a key error, and nothing is
   * marked deleted, since `dedup` does not run.
   */
  lemma AmbiguousLeavesCollection(docs: seq<Doc>, q: Query, pk: seq<string>, now: int, f: string)
    requires |Matches(docs, q)| > 1
    requires f in pk && |DistinctValues(docs, q, f)| > 1
    ensures var (r, after) := OneOrNone(docs, q, pk, now);
      after == docs && r.Err? && r.error.AmbiguousKey? && r.error.field in pk && |r.error.values| > 1
  {
    FirstAmbiguousNone(docs, q, pk);
  }

  /** Several matches and no primary key: non-unique, with the count, and nothing changes. */
  lemma NoKeyNonUnique(docs: seq<Doc>, q: Query, now: int)
    requires |Matches(docs, q)| > 1
    ensures OneOrNone(docs, q, [], now) == (Err(NonUnique(|Matches(docs, q)|)), docs)
  {
  }

  lemma SmallSetSame(s: set<Value>, a: Value, b: Value)
    requires |s| <= 1 && a in s && b in s
    ensures a == b
  {
    if a != b {
      assert {a, b} <= s;
      assert |{a, b}| == 2;
      SubsetCard({a, b}, s);
    }
  }

  lemma SubsetCard(a: set<Value>, b: set<Value>)
    requires a <= b
    ensures |a| <= |b|
  {
    assert b == a + (b - a);
  }

  /** Every live match carries every primary-key field. */
  predicate KeysPresent(docs: seq<Doc>, q: Query, pk: seq<string>) {
    forall i, f :: 0 <= i < |docs| && Visible(q, docs[i]) && f in pk ==> f in docs[i].fields
  }

  /** When no key field is ambiguous and every match carries the key fields, all matches share one key. */
  lemma SameKeyWhenUnambiguous(docs: seq<Doc>, q: Query, pk: seq<string>, a: nat, b: nat)
    requires FirstAmbiguous(docs, q, pk).None? && KeysPresent(docs, q, pk)
    requires a < |docs| && b < |docs| && Visible(q, docs[a]) && Visible(q, docs[b])
    ensures KeyOf(docs[a], pk) == KeyOf(docs[b], pk)
  {
    FirstAmbiguousNone(docs, q, pk);
    forall t | 0 <= t < |pk| ensures Get(docs[a], pk[t]) == Get(docs[b], pk[t]) {
      var f := pk[t];
      assert f in pk;
      assert f in docs[a].fields && f in docs[b].fields;
      assert docs[a].fields[f] in DistinctValues(docs, q, f);
      assert docs[b].fields[f] in DistinctValues(docs, q, f);
      SmallSetSame(DistinctValues(docs, q, f), docs[a].fields[f], docs[b].fields[f]);
    }
  }

  /**
   * True duplicates resolve: with several matches that all carry the same key, `dedup`
   * leaves exactly the most recent one, and the resolver returns 1.
   */
  lemma TrueDuplicatesResolve(docs: seq<Doc>, q: Query, pk: seq<string>, now: int) returns (m: nat)
    requires IdsIncreasing(docs) && |pk| > 0
    requires |Matches(docs, q)| > 1
    requires FirstAmbiguous(docs, q, pk).None? && KeysPresent(docs, q, pk)
    ensures OneOrNone(docs, q, pk, now) == (Ok(1), Deduped(docs, q, pk, now))
    ensures m < |docs| && Matches(Deduped(docs, q, pk, now), q) == [docs[m]]
    ensures forall j :: 0 <= j < |docs| && Visible(q, docs[j]) ==> docs[j].id <= docs[m].id
  {
    var after := Deduped(docs, q, pk, now);
    MatchesEmpty(docs, q);
    var i :| 0 <= i < |docs| && Visible(q, docs[i]);
    m := DedupSurvivor(docs, q, pk, now, i);
    DedupUnique(docs, q, pk, now);
    forall j | 0 <= j < |docs| && Visible(q, docs[j]) ensures KeyOf(docs[j], pk) == KeyOf(docs[i], pk) {
      SameKeyWhenUnambiguous(docs, q, pk, j, i);
    }
    forall j | 0 <= j < |after| && j != m ensures !Visible(q, after[j]) {
      if Visible(q, docs[j]) {
        assert j < m;
        assert IsLoser(docs, q, pk, j);
      }
    }
    MatchesSingle(after, q, m);
  }

  /**
   * Without concurrent writers, a non-unique failure with a declared primary key means some
   * live match lacks a key field: the deduplicate-then-recount remedy succeeds otherwise.
   */
  lemma NonUniqueNeedsMissingField(docs: seq<Doc>, q: Query, pk: seq<string>, now: int)
    requires IdsIncreasing(docs) && |pk| > 0
    requires OneOrNone(docs, q, pk, now).0.Err? && OneOrNone(docs, q, pk, now).0.error.NonUnique?
    ensures !KeysPresent(docs, q, pk)
  {
    if KeysPresent(docs, q, pk) {
      var _ := TrueDuplicatesResolve(docs, q, pk, now);
    }
  }

  /** A query with no live match: `_assert_one_or_none` returns 0, `_assert_unique` fails with no match. */
  lemma NoMatchResults(docs: seq<Doc>, q: Query, pk: seq<string>, now: int)
    requires forall i :: 0 <= i < |docs| ==> !Visible(q, docs[i])
    ensures OneOrNone(docs, q, pk, now) == (Ok(0), docs)
    ensures Unique(docs, q, pk, now) == (Fail(NoMatch), docs)
  {
    MatchesEmpty(docs, q);
  }
}
