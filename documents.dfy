/**
 * The in-memory stand-in for the MongoDB collection that the reader views.
 * A document has a store-assigned `_id`, its fields, and the soft-delete marker
 * `_deleted` (absent while live, a timestamp once soft-deleted). A query is a
 * predicate over documents; every read sees only the live documents it matches.
 */
module Documents {

  /** Field values; a field a document lacks reads as `Null` when projected into a table. */
  datatype Value = Null | Num(n: int) | Text(s: string)

  /** The `_deleted` marker: absent, or the time of the soft delete. */
  datatype Marker = Live | Deleted(at: int)

  datatype Doc = Doc(id: int, fields: map<string, Value>, marker: Marker)

  /** A query specification (`reader._spec`). */
  type Query = Doc -> bool

  /** Both constraints at once: refining a reader with `find`. */
  function And(q: Query, sub: Query): Query {
    d => q(d) && sub(d)
  }

  /** Reads restrict to live documents matching the query. */
  predicate Visible(q: Query, d: Doc) {
    d.marker.Live? && q(d)
  }

  /** A field projected into a table: `None` when the document lacks it. */
  function Get(d: Doc, field: string): Value {
    if field in d.fields then d.fields[field] else Null
  }

  /** The tuple of primary-key values a document carries. */
  function KeyOf(d: Doc, pk: seq<string>): (k: seq<Value>)
    ensures |k| == |pk|
  {
    seq(|pk|, i requires 0 <= i < |pk| => Get(d, pk[i]))
  }

  /** The collection's invariant: `_id`s grow with insertion order, so they are also unique. */
  predicate IdsIncreasing(docs: seq<Doc>) {
    forall i, j :: 0 <= i < j < |docs| ==> docs[i].id < docs[j].id
  }

  /** The cursor of a reader: its live matches, in collection order. */
  function Matches(docs: seq<Doc>, q: Query): (ms: seq<Doc>)
    ensures |ms| <= |docs|
    ensures forall d :: d in ms ==> Visible(q, d) && d in docs
    ensures forall i :: 0 <= i < |docs| && Visible(q, docs[i]) ==> docs[i] in ms
  {
    if docs == [] then []
    else (if Visible(q, docs[0]) then [docs[0]] else []) + Matches(docs[1..], q)
  }

  /**
   * `cursor.distinct(field)` as a set: the values of `field` among the live matches.
   * The store's distinct skips documents that lack the field.
   */
  function DistinctValues(docs: seq<Doc>, q: Query, field: string): (vs: set<Value>)
    ensures forall d :: d in Matches(docs, q) && field in d.fields ==> d.fields[field] in vs
    ensures forall v :: v in vs ==> exists d :: d in Matches(docs, q) && field in d.fields && d.fields[field] == v
  {
    MatchesExactly(docs, q);
    set i | 0 <= i < |docs| && Visible(q, docs[i]) && field in docs[i].fields :: docs[i].fields[field]
  }

  /** A document is in the cursor exactly when it is a live match of the collection. */
  lemma MatchesExactly(docs: seq<Doc>, q: Query)
    ensures forall d :: d in Matches(docs, q) <==> exists i :: 0 <= i < |docs| && docs[i] == d && Visible(q, d)
  {
  }

  /** The count is zero exactly when no document is a live match. */
  lemma {:induction false} MatchesEmpty(docs: seq<Doc>, q: Query)
    ensures |Matches(docs, q)| == 0 <==> forall i :: 0 <= i < |docs| ==> !Visible(q, docs[i])
  {
    if docs != [] {
      MatchesEmpty(docs[1..], q);
      assert forall i :: 1 <= i < |docs| ==> docs[i] == docs[1..][i - 1];
    }
  }

  /** A single live match is what the cursor yields, alone. */
  lemma {:induction false} MatchesSingle(docs: seq<Doc>, q: Query, m: nat)
    requires m < |docs| && Visible(q, docs[m])
    requires forall i :: 0 <= i < |docs| && i != m ==> !Visible(q, docs[i])
    ensures Matches(docs, q) == [docs[m]]
  {
    var tail := docs[1..];
    if m == 0 {
      MatchesEmpty(tail, q);
    } else {
      forall i | 0 <= i < |tail| && i != m - 1 ensures !Visible(q, tail[i]) {
        assert tail[i] == docs[i + 1];
      }
      MatchesSingle(tail, q, m - 1);
    }
  }

  /** The cursor order is `_id` order, so sorting the live matches by `_id` changes nothing. */
  lemma {:induction false} MatchesSortedById(docs: seq<Doc>, q: Query)
    requires IdsIncreasing(docs)
    ensures IdsIncreasing(Matches(docs, q))
  {
    if docs != [] {
      var tail := docs[1..];
      MatchesSortedById(tail, q);
      var rest := Matches(tail, q);
      forall d | d in rest ensures docs[0].id < d.id {
        var k :| 0 <= k < |tail| && tail[k] == d;
        assert docs[k + 1] == d;
      }
    }
  }
}
