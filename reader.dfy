/**
 * `mongo_async_reader`: a view of a shared collection through a query and a
 * declared primary key. The collection is the only mutable state; `dedup`
 * (directly, or through the uniqueness checks) is the only operation that
 * changes it, and only by soft-deleting documents.
 */
module AsyncReader {
  import opened Wrappers
  import opened Keys
  import opened Documents
  import opened Dedup
  import opened Resolve
  import opened Selectors

  /** The shared document store. Writers outside this model add documents in `_id` order. */
  class Collection {
    var docs: seq<Doc>

    ghost predicate Valid()
      reads this
    {
      IdsIncreasing(docs)
    }

    constructor (initial: seq<Doc>)
      requires IdsIncreasing(initial)
      ensures Valid() && docs == initial
    {
      docs := initial;
    }
  }

  /** What `read` is asked for: an index, a sub-query (a dict), a slice, or a list of indices. */
  datatype Selector =
    | Index(i: int)
    | Sub(doc: Option<Query>)   // None stands for an empty dict
    | Range(start: Option<int>, stop: Option<int>, step: Option<int>)
    | Indices(items: seq<int>)

  /** One document, or an ordered sequence of them (a slice's table, a list's results). */
  datatype Output = One(doc: Doc) | Many(docs: seq<Doc>)

  /** The query a `find_one(doc)` reads through: `doc` refines the reader's own query unless it is empty. */
  function Refined(q: Query, doc: Option<Query>): Query {
    if doc.Some? then And(q, doc.value) else q
  }

  class Reader {
    const coll: Collection
    const spec: Query
    const pk: seq<string>

    constructor (c: Collection, q: Query, key: seq<string>)
      ensures coll == c && spec == q && pk == key
    {
      coll := c;
      spec := q;
      pk := key;
    }

    /** `count()`: the number of live documents matching the query. */
    method Count() returns (n: nat)
      ensures n == |Matches(coll.docs, spec)|
      ensures n == 0 <==> forall i :: 0 <= i < |coll.docs| ==> !Visible(spec, coll.docs[i])
    {
      MatchesEmpty(coll.docs, spec);
      n := |Matches(coll.docs, spec)|;
    }

    /** `distinct(field)` as a set: a value is in it exactly when some live match holds it in `field`. */
    method Distinct(field: string) returns (values: set<Value>)
      ensures forall v :: v in values <==>
        exists i :: 0 <= i < |coll.docs| && Visible(spec, coll.docs[i]) && field in coll.docs[i].fields && coll.docs[i].fields[field] == v
    {
      values := DistinctValues(coll.docs, spec, field);
    }

    /**
     * `dedup(now)`: with a primary key, collect the `_id`s of every live match that a more
     * recent live match of its key follows, and soft-delete them in one bulk update.
     */
    method Dedup(now: int)
      requires coll.Valid()
      modifies coll
      ensures coll.Valid()
      ensures coll.docs == Deduped(old(coll.docs), spec, pk, now)
    {
      if |pk| > 0 {
        var bad := Losers(coll.docs, spec, pk);
        DedupImplements(coll.docs, spec, pk, now);
        if |bad| > 0 {
          coll.docs := MarkDeleted(coll.docs, bad, now);
        } else {
          assert MarkDeleted(coll.docs, bad, now) == coll.docs;
        }
      }
    }

    /**
     * The loop over the key fields in `_assert_one_or_none`: the first one whose distinct
     * values among the live matches are several, with those values.
     */
    method AmbiguousField() returns (a: Option<(string, set<Value>)>)
      ensures a.None? <==> FirstAmbiguous(coll.docs, spec, pk).None?
      ensures a.Some? ==> a.value == (FirstAmbiguous(coll.docs, spec, pk).value, DistinctValues(coll.docs, spec, a.value.0))
    {
      for k := 0 to |pk|
        invariant FirstAmbiguous(coll.docs, spec, pk) == FirstAmbiguous(coll.docs, spec, pk[k..])
      {
        var values := Distinct(pk[k]);
        assert values == DistinctValues(coll.docs, spec, pk[k]);
        if |values| > 1 {
          return Some((pk[k], values));
        }
        assert pk[k..][1..] == pk[k + 1..];
      }
      return None;
    }

    /**
     * `_assert_one_or_none(now)`: count; on several matches check every key field for
     * several distinct values, then deduplicate and count once more.
     */
    method AssertOneOrNone(now: int) returns (r: Result<nat, ResolveError>)
      requires coll.Valid()
      modifies coll
      ensures coll.Valid()
      ensures (r, coll.docs) == OneOrNone(old(coll.docs), spec, pk, now)
    {
      var n := Count();
      if n > 1 {
        if |pk| > 0 {
          var a := AmbiguousField();
          if a.Some? {
            return Err(AmbiguousKey(a.value.0, a.value.1));
          }
          Dedup(now);
          n := Count();
          if n <= 1 {
            return Ok(n);
          }
        }
        return Err(NonUnique(n));
      }
      return Ok(n);
    }

    /** `_assert_unique(now)`: as `AssertOneOrNone`, failing also when nothing matches. */
    method AssertUnique(now: int) returns (o: Outcome)
      requires coll.Valid()
      modifies coll
      ensures coll.Valid()
      ensures (o, coll.docs) == Unique(old(coll.docs), spec, pk, now)
    {
      var n := AssertOneOrNone(now);
      if n.Err? {
        return Fail(n.error);
      }
      if n.value == 0 {
        return Fail(NoMatch);
      }
      return Pass;
    }

    /**
     * `find_one(doc, now)`: a reader refined by `doc` whose query is asserted unique; the
     * failure of the assertion is returned instead.
     */
    method FindOne(doc: Option<Query>, now: int) returns (r: Result<Reader, ResolveError>)
      requires coll.Valid()
      modifies coll
      ensures coll.Valid()
      ensures var (o, after) := Unique(old(coll.docs), Refined(spec, doc), pk, now);
        coll.docs == after && (r.Ok? <==> o.Pass?) && (r.Err? ==> r.error == o.error)
      ensures r.Ok? ==> fresh(r.value) && r.value.coll == coll && r.value.spec == Refined(spec, doc) && r.value.pk == pk
    {
      var res := new Reader(coll, Refined(spec, doc), pk);
      var o := res.AssertUnique(now);
      if o.Fail? {
        return Err(o.error);
      }
      return Ok(res);
    }

    /** `read(i)` for an integer `i`, with Python's indexing (see `Selectors.ReadAt`). */
    method ReadIndex(i: int) returns (r: Result<Doc, ReadError>)
      ensures r == Selectors.ReadAt(Matches(coll.docs, spec), i)
    {
      var item := i;
      if item < 0 {
        var n := Count();
        item := n + item;
        if item < 0 {
          return Err(NoDocument);
        }
      }
      var cursor := Matches(coll.docs, spec);
      if item > 0 {
        cursor := Skip(cursor, item);
      }
      if cursor == [] {
        return Err(NoDocument);
      }
      return Ok(cursor[0]);
    }

    /** `read(slice(start, stop, step))`. */
    method ReadSlice(start: Option<int>, stop: Option<int>, step: Option<int>) returns (r: Result<seq<Doc>, ReadError>)
      ensures r == ReadRange(Matches(coll.docs, spec), start, stop, step)
    {
      if step.Some? && step.value != 1 {
        return Err(UnsupportedStep);
      }
      var s := start.GetOr(0);
      var e: int;
      if stop.Some? && stop.value != 0 {
        e := stop.value;
      } else {
        e := |Matches(coll.docs, spec)|;  // `await self.count()`
      }
      var ms := Matches(coll.docs, spec);
      var cursor := ms;
      if s != 0 {
        if s < 0 {
          return Err(NegativeArgument);
        }
        cursor := Skip(cursor, s);
      } else {
        assert ms == Skip(ms, 0);
      }
      if e - s < 0 {
        return Err(NegativeArgument);
      }
      r := Ok(Take(cursor, e - s));
    }

    /**
     * `read([i, j, ...])`: every index is read and the results come back in the order of
     * the indices; the first index (in that order) that cannot be read fails the whole read.
     */
    method ReadList(items: seq<int>) returns (r: Result<seq<Doc>, ReadError>)
      ensures var ms := Matches(coll.docs, spec);
        r.Ok? <==> forall k :: 0 <= k < |items| ==> Selectors.ReadAt(ms, items[k]).Ok?
      ensures var ms := Matches(coll.docs, spec);
        r.Ok? ==> |r.value| == |items| && forall k :: 0 <= k < |items| ==> Selectors.ReadAt(ms, items[k]) == Ok(r.value[k])
      ensures var ms := Matches(coll.docs, spec);
        r.Err? ==> exists k :: 0 <= k < |items| && Selectors.ReadAt(ms, items[k]) == Err(r.error) &&
                              forall j :: 0 <= j < k ==> Selectors.ReadAt(ms, items[j]).Ok?
    {
      var out: seq<Doc> := [];
      for k := 0 to |items|
        invariant |out| == k
        invariant forall j :: 0 <= j < k ==> Selectors.ReadAt(Matches(coll.docs, spec), items[j]) == Ok(out[j])
      {
        var d := ReadIndex(items[k]);
        if d.Err? {
          return Err(d.error);
        }
        out := out + [d.value];
      }
      return Ok(out);
    }

    /** `read(item)`: dispatch on the shape of the selector. Only a sub-query can change the collection. */
    method Read(sel: Selector, now: int) returns (r: Result<Output, ReadError>)
      requires coll.Valid()
      modifies coll
      ensures coll.Valid()
      ensures !sel.Sub? ==> coll.docs == old(coll.docs)
      ensures sel.Index? ==> r == match Selectors.ReadAt(Matches(coll.docs, spec), sel.i)
                                    case Ok(d) => Ok(One(d))
                                    case Err(e) => Err(e)
      ensures sel.Range? ==> r == match ReadRange(Matches(coll.docs, spec), sel.start, sel.stop, sel.step)
                                    case Ok(ds) => Ok(Many(ds))
                                    case Err(e) => Err(e)
      ensures sel.Indices? ==> (r.Ok? <==> forall k :: 0 <= k < |sel.items| ==> Selectors.ReadAt(Matches(coll.docs, spec), sel.items[k]).Ok?)
      ensures sel.Indices? && r.Ok? ==>
                (r.value.Many? && |r.value.docs| == |sel.items| &&
                 forall k :: 0 <= k < |sel.items| ==> Selectors.ReadAt(Matches(coll.docs, spec), sel.items[k]) == Ok(r.value.docs[k]))
      ensures sel.Sub? ==>
                var q := Refined(spec, sel.doc);
                var (o, after) := Unique(old(coll.docs), q, pk, now);
                coll.docs == after &&
                (o.Fail? ==> r == Err(Unresolved(o.error))) &&
                (o.Pass? ==> |Matches(after, q)| == 1 && r == Ok(One(Matches(after, q)[0])))
    {
      match sel
      case Index(i) =>
        var d := ReadIndex(i);
        r := if d.Ok? then Ok(One(d.value)) else Err(d.error);
      case Sub(doc) =>
        var found := FindOne(doc, now);
        if found.Err? {
          return Err(Unresolved(found.error));
        }
        var res := found.value;
        var cursor := Matches(coll.docs, res.spec);
        r := Ok(One(cursor[0]));
      case Range(start, stop, step) =>
        var ds := ReadSlice(start, stop, step);
        r := if ds.Ok? then Ok(Many(ds.value)) else Err(ds.error);
      case Indices(items) =>
        var ds := ReadList(items);
        r := if ds.Ok? then Ok(Many(ds.value)) else Err(ds.error);
    }

    /**
     * `create_index(*keys)`: the keys given, or the primary key when none are; the index is
     * requested on their normalized (field, direction) pairs, and nothing is requested when
     * both are empty.
     */
    method CreateIndex(keys: seq<string>) returns (r: Option<Ordered>)
      ensures r.None? <==> |keys| == 0 && |pk| == 0
      ensures r.Some? ==> IsDict(r.value)
      ensures r.Some? ==> forall f :: Lookup(r.value, f).Some? <==> f in Fields(Parsed(if |keys| > 0 then keys else pk))
      ensures r.Some? ==> r.value == Items1(Names(if |keys| > 0 then keys else pk))
    {
      var chosen := if |keys| > 0 then keys else pk;
      if |chosen| > 0 {
        forall f ensures Lookup(Build(chosen), f).Some? <==> f in Fields(Parsed(chosen)) {
          BuildHasField(chosen, f);
        }
        return Some(Items1(Names(chosen)));
      }
      return None;
    }
  }
}
