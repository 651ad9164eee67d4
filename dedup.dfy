/**
 * `dedup`: among the live matches of a reader, every primary-key group with
 * more than one member keeps only its most recent member (largest `_id`); the
 * others are soft-deleted by setting `_deleted` to the time of the run.
 *
 * `Deduped` is the specification, stated per document. `Losers` and
 * `MarkDeleted` are the computation the reader performs: sort the live matches
 * by `_id`, group them by key, take all but the last of every group, and issue
 * one bulk update on those `_id`s. `DedupImplements` proves the two agree.
 */
module Dedup {
  import opened Documents

  /** A later live match (in collection order) shares the key of document `i`. */
  predicate LaterTwin(docs: seq<Doc>, q: Query, pk: seq<string>, i: nat)
    requires i < |docs|
  {
    exists j :: i < j < |docs| && Visible(q, docs[j]) && KeyOf(docs[j], pk) == KeyOf(docs[i], pk)
  }

  /** Document `i` is a live match and a live match of the same key has a larger `_id`. */
  predicate IsLoser(docs: seq<Doc>, q: Query, pk: seq<string>, i: nat)
    requires i < |docs|
  {
    Visible(q, docs[i]) &&
    exists j :: 0 <= j < |docs| && Visible(q, docs[j]) && KeyOf(docs[j], pk) == KeyOf(docs[i], pk) && docs[i].id < docs[j].id
  }

  /** The soft delete of one document. */
  function Delete(d: Doc, now: int): Doc {
    d.(marker := Deleted(now))
  }

  /** The collection after `dedup` at time `now`; with no primary key it is a no-op. */
  function Deduped(docs: seq<Doc>, q: Query, pk: seq<string>, now: int): (r: seq<Doc>)
    ensures |r| == |docs|
    ensures |pk| == 0 ==> r == docs
    ensures forall i :: 0 <= i < |docs| ==> r[i].id == docs[i].id && r[i].fields == docs[i].fields
    ensures forall i :: 0 <= i < |docs| && !Visible(q, docs[i]) ==> r[i] == docs[i]
    ensures forall i :: 0 <= i < |docs| && r[i] != docs[i] ==> r[i].marker == Deleted(now)
  {
    if |pk| == 0 then docs
    else seq(|docs|, i requires 0 <= i < |docs| => if IsLoser(docs, q, pk, i) then Delete(docs[i], now) else docs[i])
  }

  /** The keys of the live matches at positions `n` and beyond. */
  function Seen(docs: seq<Doc>, q: Query, pk: seq<string>, n: nat): set<seq<Value>>
    requires n <= |docs|
  {
    set j | n <= j < |docs| && Visible(q, docs[j]) :: KeyOf(docs[j], pk)
  }

  /**
   * The live matches before position `n`, grouped by key: walking back from the most
   * recent, the first member met of each group is kept, every other one is a loser.
   * `seen` holds the keys already met.
   */
  function LosersBefore(docs: seq<Doc>, q: Query, pk: seq<string>, n: nat, seen: set<seq<Value>>): (r: seq<int>)
    requires n <= |docs|
    ensures |r| <= n
    ensures forall x :: x in r ==> exists i :: 0 <= i < n && docs[i].id == x && Visible(q, docs[i])
  {
    if n == 0 then []
    else
      var d := docs[n - 1];
      if !Visible(q, d) then LosersBefore(docs, q, pk, n - 1, seen)
      else
        var k := KeyOf(d, pk);
        LosersBefore(docs, q, pk, n - 1, seen + {k}) + (if k in seen then [d.id] else [])
  }

  /** The `_id`s of all losers: `bad[lambda _id: _id[:-1]]` summed into one list. */
  function Losers(docs: seq<Doc>, q: Query, pk: seq<string>): (r: seq<int>)
    ensures forall x :: x in r <==> exists i :: 0 <= i < |docs| && docs[i].id == x && Visible(q, docs[i]) && LaterTwin(docs, q, pk, i)
  {
    LosersAll(docs, q, pk);
    LosersBefore(docs, q, pk, |docs|, {})
  }

  lemma LosersAll(docs: seq<Doc>, q: Query, pk: seq<string>)
    ensures forall x :: x in LosersBefore(docs, q, pk, |docs|, {}) <==>
      exists i :: 0 <= i < |docs| && docs[i].id == x && Visible(q, docs[i]) && LaterTwin(docs, q, pk, i)
  {
    assert Seen(docs, q, pk, |docs|) == {};
    forall x {
      LosersBeforeSpec(docs, q, pk, |docs|, x);
    }
  }

  /** `update_many(_id in ids, set _deleted = now)`. */
  function MarkDeleted(docs: seq<Doc>, ids: seq<int>, now: int): (r: seq<Doc>)
    ensures |r| == |docs|
    ensures forall i :: 0 <= i < |docs| ==> r[i].id == docs[i].id && r[i].fields == docs[i].fields
    ensures forall i :: 0 <= i < |docs| && docs[i].id in ids ==> r[i].marker == Deleted(now)
    ensures forall i :: 0 <= i < |docs| && docs[i].id !in ids ==> r[i] == docs[i]
  {
    seq(|docs|, i requires 0 <= i < |docs| => if docs[i].id in ids then Delete(docs[i], now) else docs[i])
  }

  lemma SeenStep(docs: seq<Doc>, q: Query, pk: seq<string>, n: nat)
    requires 0 < n <= |docs|
    ensures Seen(docs, q, pk, n - 1) ==
            if Visible(q, docs[n - 1]) then Seen(docs, q, pk, n) + {KeyOf(docs[n - 1], pk)} else Seen(docs, q, pk, n)
  {
  }

  lemma LaterTwinSeen(docs: seq<Doc>, q: Query, pk: seq<string>, i: nat)
    requires i < |docs|
    ensures LaterTwin(docs, q, pk, i) <==> KeyOf(docs[i], pk) in Seen(docs, q, pk, i + 1)
  {
  }

  /** The walk collects exactly the live matches that a later live match of their key follows. */
  lemma {:induction false} LosersBeforeSpec(docs: seq<Doc>, q: Query, pk: seq<string>, n: nat, x: int)
    requires n <= |docs|
    ensures x in LosersBefore(docs, q, pk, n, Seen(docs, q, pk, n)) <==>
            exists i :: 0 <= i < n && docs[i].id == x && Visible(q, docs[i]) && LaterTwin(docs, q, pk, i)
  {
    if n > 0 {
      var d := docs[n - 1];
      SeenStep(docs, q, pk, n);
      LosersBeforeSpec(docs, q, pk, n - 1, x);
      LaterTwinSeen(docs, q, pk, n - 1);
    }
  }

  /** With `_id`s growing along the collection, a later twin is a twin with a larger `_id`. */
  lemma LaterTwinIsLoser(docs: seq<Doc>, q: Query, pk: seq<string>, i: nat)
    requires IdsIncreasing(docs) && i < |docs|
    ensures Visible(q, docs[i]) && LaterTwin(docs, q, pk, i) <==> IsLoser(docs, q, pk, i)
  {
  }

  /** The bulk update on the collected `_id`s is exactly the specified deduplication. */
  lemma DedupImplements(docs: seq<Doc>, q: Query, pk: seq<string>, now: int)
    requires IdsIncreasing(docs) && |pk| > 0
    ensures MarkDeleted(docs, Losers(docs, q, pk), now) == Deduped(docs, q, pk, now)
  {
    var bad := Losers(docs, q, pk);
    assert Seen(docs, q, pk, |docs|) == {};
    forall k | 0 <= k < |docs| ensures docs[k].id in bad <==> IsLoser(docs, q, pk, k) {
      LosersBeforeSpec(docs, q, pk, |docs|, docs[k].id);
      LaterTwinIsLoser(docs, q, pk, k);
      if docs[k].id in bad {
        var i :| 0 <= i < |docs| && docs[i].id == docs[k].id && Visible(q, docs[i]) && LaterTwin(docs, q, pk, i);
        assert i == k;
      }
    }
  }

  /** The group of a live match has a member with no later twin: its most recent member. */
  lemma {:induction false} GroupHasLast(docs: seq<Doc>, q: Query, pk: seq<string>, i: nat) returns (m: nat)
    requires i < |docs| && Visible(q, docs[i])
    ensures i <= m < |docs| && Visible(q, docs[m]) && KeyOf(docs[m], pk) == KeyOf(docs[i], pk)
    ensures !LaterTwin(docs, q, pk, m)
    decreases |docs| - i
  {
    if LaterTwin(docs, q, pk, i) {
      var j :| i < j < |docs| && Visible(q, docs[j]) && KeyOf(docs[j], pk) == KeyOf(docs[i], pk);
      m := GroupHasLast(docs, q, pk, j);
    } else {
      m := i;
    }
  }

  /**
   * Every group of live matches keeps a live member after `dedup`: the one whose `_id`
   * is the largest in the group.
   */
  lemma DedupSurvivor(docs: seq<Doc>, q: Query, pk: seq<string>, now: int, i: nat) returns (m: nat)
    requires IdsIncreasing(docs) && |pk| > 0
    requires i < |docs| && Visible(q, docs[i])
    ensures m < |docs| && Deduped(docs, q, pk, now)[m] == docs[m]
    ensures Visible(q, docs[m]) && KeyOf(docs[m], pk) == KeyOf(docs[i], pk)
    ensures forall j :: 0 <= j < |docs| && Visible(q, docs[j]) && KeyOf(docs[j], pk) == KeyOf(docs[i], pk) ==> docs[j].id <= docs[m].id
  {
    m := GroupHasLast(docs, q, pk, i);
    LaterTwinIsLoser(docs, q, pk, m);
    forall j | 0 <= j < |docs| && Visible(q, docs[j]) && KeyOf(docs[j], pk) == KeyOf(docs[i], pk)
      ensures docs[j].id <= docs[m].id
    {
      assert !(m < j);
    }
  }

  /** After `dedup`, no two live matches share a primary key. */
  lemma DedupUnique(docs: seq<Doc>, q: Query, pk: seq<string>, now: int)
    requires IdsIncreasing(docs) && |pk| > 0
    ensures var r := Deduped(docs, q, pk, now);
      forall a, b :: 0 <= a < b < |r| && Visible(q, r[a]) && Visible(q, r[b]) ==> KeyOf(r[a], pk) != KeyOf(r[b], pk)
  {
  }

  /** A live match keeps its place after `dedup` exactly when no live match of its key is more recent. */
  lemma DedupKeepsIff(docs: seq<Doc>, q: Query, pk: seq<string>, now: int, i: nat)
    requires |pk| > 0 && i < |docs| && Visible(q, docs[i])
    ensures Visible(q, Deduped(docs, q, pk, now)[i]) <==>
            forall j :: 0 <= j < |docs| && Visible(q, docs[j]) && KeyOf(docs[j], pk) == KeyOf(docs[i], pk) ==> docs[j].id <= docs[i].id
  {
  }

  /** `dedup` is idempotent: right after a run there is nothing left to mark. */
  lemma DedupIdempotent(docs: seq<Doc>, q: Query, pk: seq<string>, now: int, later: int)
    requires IdsIncreasing(docs)
    ensures Deduped(Deduped(docs, q, pk, now), q, pk, later) == Deduped(docs, q, pk, now)
  {
  }
}
