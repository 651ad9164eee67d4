/**
 * Worked examples: three documents with primary key `k`, two of them duplicates
 * under `k = 1`.
 */
module Scenarios {
  import opened Wrappers
  import opened Documents
  import opened Dedup
  import opened Resolve
  import opened Selectors

  const D1 := Doc(1, map["k" := Num(1)], Live)
  const D2 := Doc(2, map["k" := Num(1)], Live)
  const D3 := Doc(3, map["k" := Num(2)], Live)

  function KIs(v: int): Query {
    d => Get(d, "k") == Num(v)
  }

  lemma MatchesK1(docs: seq<Doc>)
    requires docs == [D1, D2, D3]
    ensures Matches(docs, KIs(1)) == [D1, D2]
  {
    var q := KIs(1);
    assert Visible(q, D1) && Visible(q, D2) && !Visible(q, D3);
    assert docs[1..] == [D2, D3] && docs[1..][1..] == [D3] && docs[1..][1..][1..] == [];
    assert Matches([D3], q) == [];
  }

  lemma DistinctK1(docs: seq<Doc>)
    requires docs == [D1, D2, D3]
    ensures DistinctValues(docs, KIs(1), "k") == {Num(1)}
  {
    var q := KIs(1);
    assert !Visible(q, docs[2]);
    assert docs[0].fields["k"] == Num(1);
  }

  lemma DedupK1(docs: seq<Doc>, now: int)
    requires docs == [D1, D2, D3]
    ensures Deduped(docs, KIs(1), ["k"], now) == [Delete(D1, now), D2, D3]
  {
    var q, pk := KIs(1), ["k"];
    assert IsLoser(docs, q, pk, 0) by {
      assert Visible(q, docs[1]) && KeyOf(docs[1], pk) == KeyOf(docs[0], pk);
    }
    assert !IsLoser(docs, q, pk, 1) && !IsLoser(docs, q, pk, 2);
  }

  /**
   * Under `k = 1` two documents match; resolving soft-deletes the older one and returns 1,
   * after which `read(0)` yields the document with `_id` 2.
   */
  lemma DuplicateKeyScenario(now: int)
    ensures |Matches([D1, D2, D3], KIs(1))| == 2
    ensures OneOrNone([D1, D2, D3], KIs(1), ["k"], now) == (Ok(1), [Delete(D1, now), D2, D3])
    ensures ReadAt(Matches([Delete(D1, now), D2, D3], KIs(1)), 0) == Ok(D2)
  {
    var docs, q, pk := [D1, D2, D3], KIs(1), ["k"];
    MatchesK1(docs);
    DistinctK1(docs);
    assert FirstAmbiguous(docs, q, pk) == None;
    assert KeysPresent(docs, q, pk);
    var m := TrueDuplicatesResolve(docs, q, pk, now);
    DedupK1(docs, now);
  }

  /** `distinct('k')` over all three documents holds the two values. */
  lemma DistinctScenario()
    ensures DistinctValues([D1, D2, D3], d => true, "k") == {Num(1), Num(2)}
  {
    var docs: seq<Doc> := [D1, D2, D3];
    assert docs[0].fields["k"] == Num(1) && docs[2].fields["k"] == Num(2);
  }

  /** A key error: under no constraint the two keys 1 and 2 both match, so nothing is deleted. */
  lemma AmbiguousScenario(now: int)
    ensures OneOrNone([D1, D3], d => true, ["k"], now) == (Err(AmbiguousKey("k", {Num(1), Num(2)})), [D1, D3])
  {
    var docs: seq<Doc> := [D1, D3];
    var q: Query := d => true;
    assert docs[1..] == [D3] && docs[1..][1..] == [];
    assert Matches(docs, q) == [D1, D3];
    assert docs[0].fields["k"] == Num(1) && docs[1].fields["k"] == Num(2);
    var vals := DistinctValues(docs, q, "k");
    assert vals == {Num(1), Num(2)};
    assert |vals| == 2;
    assert FirstAmbiguous(docs, q, ["k"]) == Some("k");
  }

  /** The query that matches every document. */
  function Any(): Query {
    d => true
  }

  const E1 := Doc(1, map[], Live)
  const E2 := Doc(2, map[], Live)

  lemma MissingDistinct(docs: seq<Doc>)
    requires docs == [E1, E2, D2.(id := 3)]
    ensures DistinctValues(docs, Any(), "k") == {Num(1)}
  {
    assert "k" !in docs[0].fields && "k" !in docs[1].fields;
    assert docs[2].fields["k"] == Num(1);
  }

  lemma MissingDeduped(docs: seq<Doc>, now: int)
    requires docs == [E1, E2, D2.(id := 3)]
    ensures Deduped(docs, Any(), ["k"], now) == [Delete(E1, now), E2, D2.(id := 3)]
  {
    var q := Any();
    var pk := ["k"];
    assert KeyOf(docs[0], pk) == [Null] == KeyOf(docs[1], pk);
    assert KeyOf(docs[2], pk) == [Num(1)];
    assert IsLoser(docs, q, pk, 0);
    assert !IsLoser(docs, q, pk, 1) && !IsLoser(docs, q, pk, 2);
  }

  lemma MissingCounts(docs: seq<Doc>, now: int)
    requires docs == [E1, E2, D2.(id := 3)]
    ensures |Matches(docs, Any())| == 3
    ensures |Matches([Delete(E1, now), E2, D2.(id := 3)], Any())| == 2
  {
    var after := [Delete(E1, now), E2, D2.(id := 3)];
    var q := Any();
    assert docs[1..] == [E2, D2.(id := 3)] && docs[1..][1..] == [D2.(id := 3)] && docs[1..][1..][1..] == [];
    assert Matches([D2.(id := 3)], q) == [D2.(id := 3)];
    assert Matches([E2, D2.(id := 3)], q) == [E2, D2.(id := 3)];
    assert after[1..] == docs[1..];
    assert !Visible(q, after[0]);
  }

  /**
   * Two documents without `k` and one with `k = 1`: one distinct value, so no key error;
   * `dedup` groups the two without `k` under the missing value and deletes `_id` 1, and
   * the recount still finds two matches.
   */
  lemma MissingFieldScenario(now: int)
    ensures OneOrNone([E1, E2, D2.(id := 3)], Any(), ["k"], now) ==
            (Err(NonUnique(2)), [Delete(E1, now), E2, D2.(id := 3)])
  {
    var docs := [E1, E2, D2.(id := 3)];
    MissingDistinct(docs);
    assert FirstAmbiguous(docs, Any(), ["k"]) == None;
    MissingDeduped(docs, now);
    MissingCounts(docs, now);
  }
}
