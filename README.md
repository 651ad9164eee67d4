# Deduplication and uniqueness in the async Mongo reader

This project models the core of `mongo_async_reader` from `pyg_mongo_async`. It is a view of a
MongoDB collection through a query specification and a declared primary key (PK). The model covers:

- the key normalizer `_dict1` and `_items1`, which turn key names into ordered (field, ±1) pairs;
- `dedup`, which soft-deletes every live match that shares its PK tuple with a more recent live
  match (larger `_id`);
- the uniqueness resolver `_assert_one_or_none` and `_assert_unique`, which counts the matches, and
  on several matches either reports an ambiguous key, reports non-unique documents, or deduplicates
  and counts again;
- `count`, `distinct` (as a set), `find_one`, the index, sub-query, slice and list branches of
  `read`, and the key choice of `create_index`.

The database is replaced by an in-memory collection, `AsyncReader.Collection`, whose only field is
a sequence of documents. Each document has an integer `_id`, a map of fields, and a `_deleted`
marker (`Live` or `Deleted(at)`). The collection's invariant is that `_id`s strictly increase along
the sequence, so insertion order is `_id` order. A query is a predicate over documents. Every read
sees only the live documents the query matches, in collection order (`Documents.Matches`).

Modules:

- `Keys` (keys.dfy): the key normalizer.
- `Documents` (documents.dfy): documents, live matches and distinct values.
- `Dedup` (dedup.dfy): the specification of `dedup` (`Deduped`) and the computation the reader
  performs (`Losers`, then one bulk `MarkDeleted`), proved equal.
- `Resolve` (resolve.dfy): the resolver as functions of the collection before the call. Each
  returns the outcome and the collection after the call.
- `Selectors` (selectors.dfy): what `read` returns for an index or a slice.
- `AsyncReader` (reader.dfy): the classes. `Reader` holds the collection, the query and the PK, and
  its methods are proved against the functions above.
- `Scenarios` (scenarios.dfy): worked examples.

Two facts about missing fields are modelled explicitly:

- MongoDB's `distinct` skips documents that lack the field.
- `dedup` reads the PK fields into a pyg_base `dictable` table (:171), and that table shows a
  missing field as `None` (`Documents.Get`), so documents lacking a PK field share a group.

One consequence is proved in `Resolve.NonUniqueNeedsMissingField`. With no concurrent writer, the
resolver with a declared PK ends in a non-unique error only when some match lacks a PK field.

Three further facts about the code:

- With no PK and several matches, `_assert_one_or_none` raises the non-unique error.
- A slice whose stop is `0` reads up to the count (`stop or count`).
- `distinct` is modelled as a set of values. Its best-effort sort is not modelled.

## Model

| member | source | states |
|---|---|---|
| Keys.Dict1 | src/pyg_mongo_async/_async_reader.py:6-10 | None stays None, a dict comes back unchanged, and names give a dict with pairwise distinct fields |
| Keys.Items1 | src/pyg_mongo_async/_async_reader.py:12-13 | the pairs returned never name a field twice |
| Keys.Put | src/pyg_mongo_async/_async_reader.py:10 | one assignment while `dict([...])` is built: the dict grows by at most one entry and no field already present moves |
| Keys.Build | src/pyg_mongo_async/_async_reader.py:10 | `dict([...])` over the parsed names never names a field twice |
| Keys.PutShape | src/pyg_mongo_async/_async_reader.py:10 | building the dict never moves a field already present; a new field is appended with its direction |
| Keys.PutLookup | src/pyg_mongo_async/_async_reader.py:10 | after setting a field, looking it up gives the new direction and every other field is unchanged |
| Keys.BuildHasField | src/pyg_mongo_async/_async_reader.py:10 | a field is in the normalized dict exactly when some key of the list names it, with or without '-' |
| Keys.BuildLastWins | src/pyg_mongo_async/_async_reader.py:10 | a field named several times takes the direction of its last naming ('-' gives -1, otherwise 1) |
| Keys.BuildKeepsOrder | src/pyg_mongo_async/_async_reader.py:6-10 | with no field named twice, the result is each key parsed in list order: '-f' to (f, -1), f to (f, 1) |
| Keys.Items1Empty | src/pyg_mongo_async/_async_reader.py:12-13 | `_items1` returns [] exactly for None, an empty dict, an empty name or an empty list |
| Keys.Items1Idempotent | src/pyg_mongo_async/_async_reader.py:12-13 | the result, passed back as a dict, normalizes to itself |
| Keys.KeyNamePair | src/pyg_mongo_async/_async_reader.py:10 | every key string is recovered from the pair it parses to |
| Keys.PairKeyName | src/pyg_mongo_async/_async_reader.py:10 | a pair survives printing and parsing back unless it is ascending on a field whose name starts with '-' |
| Documents.Matches | src/pyg_mongo_async/_async_reader.py:34-35 | the cursor holds every live document of the collection that matches the query, and nothing else |
| Documents.MatchesExactly | src/pyg_mongo_async/_async_reader.py:34-35 | a document is in the cursor exactly when it is a live match of the collection |
| Documents.DistinctValues | src/pyg_mongo_async/_async_reader.py:124-128 | a value is distinct exactly when some document of the cursor holds it in the field; documents lacking the field add nothing |
| Documents.MatchesEmpty | src/pyg_mongo_async/_async_reader.py:34-35 | the count is zero exactly when no document is a live match |
| Documents.MatchesSingle | src/pyg_mongo_async/_async_reader.py:97 | when exactly one document is a live match, the cursor yields it alone |
| Documents.MatchesSortedById | src/pyg_mongo_async/_async_reader.py:172 | the live matches are already in `_id` order, so `sort(_id)` leaves them as they are |
| Dedup.Deduped | src/pyg_mongo_async/_async_reader.py:169-175 | dedup keeps every `_id` and field and every non-matching or deleted document; the only change is the deletion marker at time `now`; with no PK nothing changes |
| Dedup.LosersBefore | src/pyg_mongo_async/_async_reader.py:172-174 | walking back over the first n documents collects at most n `_id`s, each of a live match among them |
| Dedup.Losers | src/pyg_mongo_async/_async_reader.py:172-174 | `sum(bad[_id[:-1]], [])` holds exactly the `_id`s of live matches that a later live match of the same PK tuple follows |
| Dedup.MarkDeleted | src/pyg_mongo_async/_async_reader.py:174 | `update_many`: every document whose `_id` is listed gets `_deleted = now`, every other one is unchanged, and no `_id` or field changes |
| Dedup.LosersBeforeSpec | src/pyg_mongo_async/_async_reader.py:172 | grouping by key and dropping the last member of each group collects exactly the live matches followed by a live match of their key |
| Dedup.LaterTwinIsLoser | src/pyg_mongo_async/_async_reader.py:172 | because `_id`s grow along the collection, "followed by a twin" is the same as "a twin has a larger `_id`" |
| Dedup.DedupImplements | src/pyg_mongo_async/_async_reader.py:171-174 | the bulk update on the collected `_id`s is exactly the specified deduplication |
| Dedup.GroupHasLast | src/pyg_mongo_async/_async_reader.py:172 | every group of live matches has a member that no later live match of its key follows |
| Dedup.DedupSurvivor | src/pyg_mongo_async/_async_reader.py:171-174 | every PK group keeps one member live and unchanged: the one with the largest `_id` |
| Dedup.DedupUnique | src/pyg_mongo_async/_async_reader.py:171-174 | after dedup, no two live matches share a PK tuple |
| Dedup.DedupKeepsIff | src/pyg_mongo_async/_async_reader.py:172-174 | a live match stays live exactly when no live match of its key has a larger `_id` |
| Dedup.DedupIdempotent | src/pyg_mongo_async/_async_reader.py:169-175 | a second dedup, at any time, changes nothing |
| Resolve.FirstAmbiguous | src/pyg_mongo_async/_async_reader.py:42-45 | the reported field is a PK field with more than one distinct value |
| Resolve.FirstAmbiguousNone | src/pyg_mongo_async/_async_reader.py:42-45 | no field is reported exactly when every PK field has at most one distinct value |
| Resolve.OneOrNone | src/pyg_mongo_async/_async_reader.py:37-52 | a success is at most 1 and equals the live count afterwards; a count of 0 or 1 is returned with nothing changed; the only possible change is dedup; a key error changes nothing and reports a PK field with its distinct values, which are several; with several matches, a PK and no ambiguous field, the collection is deduplicated and the recount is returned if at most 1, otherwise raised as non-unique |
| Resolve.Unique | src/pyg_mongo_async/_async_reader.py:54-58 | it passes exactly when `_assert_one_or_none` returns 1, and then exactly one live match is left; a single match passes with nothing changed; the errors of `_assert_one_or_none` are passed on; no match fails with no-match and changes nothing |
| Resolve.AmbiguousLeavesCollection | src/pyg_mongo_async/_async_reader.py:40-45 | several matches and a PK field with several values give a key error, and no document is deleted |
| Resolve.NoKeyNonUnique | src/pyg_mongo_async/_async_reader.py:39-50 | several matches and no PK give the non-unique error with the count, and nothing changes |
| Resolve.SameKeyWhenUnambiguous | src/pyg_mongo_async/_async_reader.py:42-46 | once every PK field shows at most one value, all matches that carry the fields share one PK tuple |
| Resolve.TrueDuplicatesResolve | src/pyg_mongo_async/_async_reader.py:46-49 | true duplicates are deduplicated to the most recent one, and the resolver returns 1 |
| Resolve.NonUniqueNeedsMissingField | src/pyg_mongo_async/_async_reader.py:46-50 | with a PK, a non-unique error (without concurrent writers) implies some match lacks a PK field |
| Resolve.NoMatchResults | src/pyg_mongo_async/_async_reader.py:37-58 | zero matches: `_assert_one_or_none` returns 0 and `_assert_unique` fails with no match, nothing changes |
| Selectors.ReadAt | src/pyg_mongo_async/_async_reader.py:92-98 | an index reads a document exactly when -count <= i < count, and reads position count + i for a negative i |
| Selectors.ReadAtAsWritten | src/pyg_mongo_async/_async_reader.py:92-97 | as written, an index reads a document exactly when the cursor is non-empty and i < count; an index below -count reads the first document |
| Selectors.ReadAtAsWrittenWraps | src/pyg_mongo_async/_async_reader.py:93-97 | as written, an index below -count reads the first document; for every other index it agrees with ReadAt |
| Selectors.ReadAtAsWrittenCounterexample | src/pyg_mongo_async/_async_reader.py:93-97 | three documents and index -4: as written the first document, corrected an error |
| Selectors.NegativeIndex | src/pyg_mongo_async/_async_reader.py:93-94 | `read(-k)` is `read(count - k)` |
| Selectors.ReadRange | src/pyg_mongo_async/_async_reader.py:104-105 | a slice whose step is neither None nor 1 is rejected |
| Selectors.RangeIsContiguous | src/pyg_mongo_async/_async_reader.py:106-110 | whatever a slice reads is a contiguous run of the cursor starting at `start` |
| Selectors.RangeReadsStopMinusStart | src/pyg_mongo_async/_async_reader.py:106-110 | a slice inside the count reads `stop - start` documents: those from `start` up to `stop` |
| Selectors.RangeWithoutStop | src/pyg_mongo_async/_async_reader.py:107-110 | a slice without a stop reads from `start` to the end |
| AsyncReader.Reader.Count | src/pyg_mongo_async/_async_reader.py:34-35 | the number of live matches; zero exactly when nothing live matches |
| AsyncReader.Reader.Distinct | src/pyg_mongo_async/_async_reader.py:124-132 | a value is returned exactly when some live match holds it in the field |
| AsyncReader.Reader.Dedup | src/pyg_mongo_async/_async_reader.py:157-175 | the collection afterwards is `Deduped` of the one before, and the `_id` order invariant holds |
| AsyncReader.Reader.AmbiguousField | src/pyg_mongo_async/_async_reader.py:42-45 | the loop over the PK fields stops at the first field with several distinct values and returns it with those values, or finds none |
| AsyncReader.Reader.AssertOneOrNone | src/pyg_mongo_async/_async_reader.py:37-52 | outcome and new collection are those of `OneOrNone`; the loop checks the PK fields in order |
| AsyncReader.Reader.AssertUnique | src/pyg_mongo_async/_async_reader.py:54-58 | outcome and new collection are those of `Unique` |
| AsyncReader.Reader.FindOne | src/pyg_mongo_async/_async_reader.py:60-64 | the refined reader is returned exactly when its query is unique, otherwise the resolver's error |
| AsyncReader.Reader.ReadIndex | src/pyg_mongo_async/_async_reader.py:92-98 | the result is `ReadAt` of the cursor |
| AsyncReader.Reader.ReadSlice | src/pyg_mongo_async/_async_reader.py:103-111 | the result is `ReadRange` of the cursor |
| AsyncReader.Reader.ReadList | src/pyg_mongo_async/_async_reader.py:112-114 | success exactly when every index reads; the k-th result is the document of the k-th index; otherwise the first failing index's error |
| AsyncReader.Reader.Read | src/pyg_mongo_async/_async_reader.py:71-114 | each selector shape gives its branch's result; only a sub-query can change the collection, and a resolved sub-query reads the one match left |
| AsyncReader.Reader.CreateIndex | src/pyg_mongo_async/_async_reader.py:151-155 | nothing is requested exactly when no keys are given and no PK is declared; otherwise the normalized pairs of the keys given, else of the PK |
| Scenarios.DuplicateKeyScenario | src/pyg_mongo_async/_async_reader.py:37-49 | keys 1, 1, 2 with `_id` 1, 2, 3 under k = 1: count 2, the resolver deletes `_id` 1 and returns 1, then `read(0)` gives `_id` 2 |
| Scenarios.DistinctScenario | src/pyg_mongo_async/_async_reader.py:124-128 | `distinct('k')` over those documents is {1, 2} |
| Scenarios.MissingFieldScenario | src/pyg_mongo_async/_async_reader.py:40-50 | `_id` 1 and 2 without `k` and `_id` 3 with `k = 1`, all matched: no key error, dedup deletes `_id` 1, and the recount of 2 is raised as non-unique |
| Scenarios.AmbiguousScenario | src/pyg_mongo_async/_async_reader.py:40-45 | keys 1 and 2 under an open query give a key error on `k` with values {1, 2}, and nothing is deleted |

## Findings

| source | as written | input that shows it | evidently intended | confidence | as-written member | corrected member |
|---|---|---|---|---|---|---|
| src/pyg_mongo_async/_async_reader.py:93-97 | a negative index is shifted by the count; if it is still negative, nothing is skipped and the first document is returned | three live documents, `read(-4)` | an index below -count selects no document and fails, as Python indexing does | medium, not executed | Selectors.ReadAtAsWrittenCounterexample | Selectors.ReadAt |

`AsyncReader.Reader.ReadIndex` implements the corrected `Selectors.ReadAt`. `Selectors.ReadAtAsWritten`
is the code as written, and `Selectors.ReadAtAsWrittenWraps` proves the two differ only below -count.

## Left out

- The Motor/MongoDB driver (`count_documents`, cursor `skip`/`next`/`to_list`/`distinct`, `update_many`, `create_index`) is external I/O. Each call is an operation on the in-memory collection. These driver behaviours are assumed: `skip` of a negative number fails; `to_list(n)` fails for a negative `n` and otherwise returns at most `n` documents; `next` on an exhausted cursor fails.
- The cursor order is collection order. Reader-level sort orders and projections are not modelled. The projection that `dedup` reads (`_id` and PK fields only) does not change what it computes.
- `waiter` fan-out and async suspension are concurrency. `Reader.ReadList` reads the indices one after another. With several failing indices it reports the first in input order; the source reports whichever exception `waiter` raises. Concurrent writers between a read and the bulk update are not modelled.
- `datetime.datetime.now()` is the `now` parameter of `Dedup`, `AssertOneOrNone`, `AssertUnique`, `FindOne` and `Read`.
- The sort in `distinct` and its `TypeError` fallback depend on Python's comparisons between mixed types. `Reader.Distinct` returns a set.
- Error messages, and the three-document sample that the non-unique message reads, are left out. Only the error kind is modelled (`Resolve.ResolveError`, `Selectors.ReadError`).
- `_read` decoding and the `reader` argument, `dictable` tables, `docs`, `list`, `keys`, `__getitem__` and `read_one` are presentation or thin wrappers. `read_one` is `find_one` followed by `read(0)`, which the sub-query branch of `Reader.Read` already covers.
- `self._id(doc)` at :63 is a method the reader inherits from `mongo_base_reader`, which is not part of this model. `find_one` and the sub-query branch of `read` take the refining query directly. An empty dict is `None`. The extra `*args, **kwargs` of `find_one` are not modelled.
- `Keys.Items1Idempotent`: only the result passed back as a dict is covered. Passed back as its own list of pairs, `_items1` calls `startswith` on a tuple at :10 and raises; that input is not modelled.
- The list branch of `read` takes integer indices only. Nested selectors inside a list are not modelled.
- `AsyncReader.Reader.ReadSlice`: where the source awaits `count()` for a missing stop, the method takes the length of the cursor directly. The value is the same.
- `tests/test_db_acell.py` exercises the separate `db_acell` caching system against a live database, not this reader.
