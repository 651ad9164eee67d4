/**
 * The key normalizer of the reader module: `_dict1` and `_items1`.
 * A Python dict keeps insertion order, so a normalized key specification is an
 * ordered sequence of (field, direction) pairs whose fields are pairwise distinct.
 * Writing `d[f] = v` on such a dict overwrites the value in place when `f` is
 * already present and appends otherwise; `Put` models exactly that.
 */
module Keys {
  import opened Wrappers

  /** An insertion-ordered dict from field name to direction (1 ascending, -1 descending). */
  type Ordered = seq<(string, int)>

  /** The fields of a dict are pairwise distinct. */
  predicate IsDict(d: Ordered) {
    forall i, j :: 0 <= i < j < |d| ==> d[i].0 != d[j].0
  }

  /**
   * What `_dict1` may be given: nothing, an already normalized dict, a single
   * field name, or a list of field names.
   */
  datatype KeySpec = NoKeys | Mapping(pairs: Ordered) | Name(name: string) | Names(names: seq<string>)

  /** Python truthiness of the argument (`if keys`): None and empty containers are false. */
  predicate Truthy(k: KeySpec) {
    match k
    case NoKeys => false
    case Mapping(p) => |p| > 0
    case Name(s) => |s| > 0
    case Names(ns) => |ns| > 0
  }

  /** `as_list`: a single name becomes a one-element list. */
  function AsList(k: KeySpec): seq<string>
    requires k.Name? || k.Names?
  {
    if k.Name? then [k.name] else k.names
  }

  /** One key of the list: a leading '-' means descending on the rest of the name. */
  function Pair(key: string): (string, int) {
    if |key| > 0 && key[0] == '-' then (key[1..], -1) else (key, 1)
  }

  /** The key string that denotes a (field, direction) pair; the inverse of `Pair`. */
  function KeyName(p: (string, int)): string {
    if p.1 < 0 then "-" + p.0 else p.0
  }

  /** The names parsed one by one, in list order. */
  function Parsed(names: seq<string>): (r: Ordered)
    ensures |r| == |names|
  {
    seq(|names|, i requires 0 <= i < |names| => Pair(names[i]))
  }

  /** The set of fields a dict (or a list of parsed names) mentions. */
  function Fields(d: Ordered): set<string> {
    set i | 0 <= i < |d| :: d[i].0
  }

  /** `d.get(field)` */
  function Lookup(d: Ordered, field: string): Option<int> {
    if d == [] then None
    else if d[0].0 == field then Some(d[0].1)
    else Lookup(d[1..], field)
  }

  /** `d[field] = dir`: keeps every existing field where it was, appends a new one at the end. */
  function Put(d: Ordered, field: string, dir: int): (r: Ordered)
    ensures |r| == |d| || |r| == |d| + 1
    ensures forall i :: 0 <= i < |d| ==> r[i].0 == d[i].0
  {
    if d == [] then [(field, dir)]
    else if d[0].0 == field then [(field, dir)] + d[1..]
    else [d[0]] + Put(d[1..], field, dir)
  }

  /** Setting a field never moves an existing one; a new field goes at the end. */
  lemma {:induction false} PutShape(d: Ordered, field: string, dir: int)
    ensures var r := Put(d, field, dir);
      && (|r| == |d| || |r| == |d| + 1)
      && (forall i :: 0 <= i < |d| ==> r[i].0 == d[i].0)
      && (|r| == |d| + 1 <==> forall i :: 0 <= i < |d| ==> d[i].0 != field)
      && (|r| == |d| + 1 ==> r == d + [(field, dir)])
  {
    if d != [] && d[0].0 != field {
      PutShape(d[1..], field, dir);
    }
  }

  lemma PutKeepsDict(d: Ordered, field: string, dir: int)
    requires IsDict(d)
    ensures IsDict(Put(d, field, dir))
  {
    PutShape(d, field, dir);
  }

  /** `dict([...pairs...])` built from the list of names, one `Put` per name in list order. */
  function Build(names: seq<string>): (r: Ordered)
    ensures IsDict(r)
    decreases |names|
  {
    if names == [] then []
    else
      var p := Pair(names[|names| - 1]);
      PutKeepsDict(Build(names[..|names| - 1]), p.0, p.1);
      Put(Build(names[..|names| - 1]), p.0, p.1)
  }

  /** `_dict1(keys)`: None and dicts pass through unchanged, names are normalized. */
  function Dict1(k: KeySpec): (r: Option<Ordered>)
    requires k.Mapping? ==> IsDict(k.pairs)
    ensures r.None? <==> k.NoKeys?
    ensures r.Some? ==> IsDict(r.value)
    ensures k.Mapping? ==> r == Some(k.pairs)
  {
    match k
    case NoKeys => None
    case Mapping(p) => Some(p)
    case _ => Some(Build(AsList(k)))
  }

  /** `_items1(keys)`: the ordered (field, direction) pairs, or [] when `keys` is falsy. */
  function Items1(k: KeySpec): (r: Ordered)
    requires k.Mapping? ==> IsDict(k.pairs)
    ensures IsDict(r)
  {
    if Truthy(k) then Dict1(k).value else []
  }

  lemma {:induction false} PutLookup(d: Ordered, field: string, dir: int, g: string)
    ensures Lookup(Put(d, field, dir), g) == if g == field then Some(dir) else Lookup(d, g)
  {
    if d != [] && d[0].0 != field {
      PutLookup(d[1..], field, dir, g);
    }
  }

  /** A name's field is present in the normalized dict exactly when some name of the list denotes it. */
  lemma {:induction false} BuildHasField(names: seq<string>, f: string)
    ensures Lookup(Build(names), f).Some? <==> f in Fields(Parsed(names))
    decreases |names|
  {
    if names != [] {
      var init, last := names[..|names| - 1], names[|names| - 1];
      BuildHasField(init, f);
      PutLookup(Build(init), Pair(last).0, Pair(last).1, f);
      assert Parsed(names) == Parsed(init) + [Pair(last)];
      FieldsAppend(Parsed(init), Pair(last));
    }
  }

  lemma FieldsAppend(d: Ordered, p: (string, int))
    ensures Fields(d + [p]) == Fields(d) + {p.0}
  {
    forall x | x in Fields(d + [p]) ensures x in Fields(d) + {p.0} {
      var i :| 0 <= i < |d + [p]| && (d + [p])[i].0 == x;
      if i < |d| { assert d[i].0 == x; }
    }
    forall x | x in Fields(d) + {p.0} ensures x in Fields(d + [p]) {
      if x == p.0 {
        assert (d + [p])[|d|].0 == x;
      } else {
        var i :| 0 <= i < |d| && d[i].0 == x;
        assert (d + [p])[i].0 == x;
      }
    }
  }

  /** When a field is named several times, the direction of the LAST naming wins. */
  lemma {:induction false} BuildLastWins(names: seq<string>, j: nat)
    requires j < |names|
    requires forall k :: j < k < |names| ==> Pair(names[k]).0 != Pair(names[j]).0
    ensures Lookup(Build(names), Pair(names[j]).0) == Some(Pair(names[j]).1)
    decreases |names|
  {
    var init, last := names[..|names| - 1], names[|names| - 1];
    PutLookup(Build(init), Pair(last).0, Pair(last).1, Pair(names[j]).0);
    if j < |init| {
      assert init[j] == names[j];
      forall k | j < k < |init| ensures Pair(init[k]).0 != Pair(init[j]).0 {
        assert init[k] == names[k];
      }
      BuildLastWins(init, j);
    }
  }

  /** With no field named twice, the dict lists exactly the parsed names, in list order. */
  lemma {:induction false} BuildKeepsOrder(names: seq<string>)
    requires forall i, j :: 0 <= i < j < |names| ==> Pair(names[i]).0 != Pair(names[j]).0
    ensures Build(names) == Parsed(names)
    decreases |names|
  {
    if names != [] {
      var init, last := names[..|names| - 1], names[|names| - 1];
      assert forall i, j :: 0 <= i < j < |init| ==> Pair(init[i]).0 != Pair(init[j]).0 by {
        forall i, j | 0 <= i < j < |init| ensures Pair(init[i]).0 != Pair(init[j]).0 {
          assert init[i] == names[i] && init[j] == names[j];
        }
      }
      BuildKeepsOrder(init);
      var d := Build(init);
      forall i | 0 <= i < |d| ensures d[i].0 != Pair(last).0 {
        assert d[i] == Pair(init[i]) && init[i] == names[i];
      }
      PutShape(d, Pair(last).0, Pair(last).1);
      assert Build(names) == Put(d, Pair(last).0, Pair(last).1) == d + [Pair(last)];
      assert Parsed(names) == d + [Pair(last)];
    }
  }

  /** `_items1` is empty exactly for falsy arguments: None, an empty dict, an empty name or list. */
  lemma Items1Empty(k: KeySpec)
    requires k.Mapping? ==> IsDict(k.pairs)
    ensures Items1(k) == [] <==> !Truthy(k)
  {
  }

  /** Normalizing an already normalized result returns it unchanged. */
  lemma Items1Idempotent(k: KeySpec)
    requires k.Mapping? ==> IsDict(k.pairs)
    ensures Items1(Mapping(Items1(k))) == Items1(k)
  {
  }

  /** Every key string is recovered from its parsed pair. */
  lemma KeyNamePair(key: string)
    ensures KeyName(Pair(key)) == key
  {
  }

  /**
   * A pair survives printing and parsing back unless it is an ascending field whose own
   * name starts with '-': such a field cannot be requested ascending through a key string.
   */
  lemma PairKeyName(p: (string, int))
    requires p.1 == 1 || p.1 == -1
    ensures Pair(KeyName(p)) == p <==> p.1 == -1 || |p.0| == 0 || p.0[0] != '-'
  {
  }
}
