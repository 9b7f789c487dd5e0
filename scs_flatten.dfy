/**
  `prepare_gt`: each integer-keyed entry of an SCS-Collect report is a
  mapping with a `type` (its title) and `values` (sub-type to count); the
  entries are flattened into one table whose keys are `<title>_<sub-type>`.

  Python 2 walks both dictionaries in an order the program does not choose,
  so the loops below pick the next key nondeterministically and every
  contract holds whatever order is taken.
 */
module ScsFlatten {
  import opened Wrappers
  import opened ScsValues

  const TypeKey: Key := StrKey("type")
  const ValuesKey: Key := StrKey("values")

  /**
    The exception reading an entry's `type` and `values` raises, if any:
    subscripting a non-mapping is a `TypeError`, a missing key a `KeyError`,
    and `.items()` on a `values` that is not a mapping an `AttributeError`.
   */
  function ShapeError(ds: Value): (r: Option<Failure>)
    ensures r.None? <==> ds.Mapping? && TypeKey in ds.m && ValuesKey in ds.m && ds.m[ValuesKey].Mapping?
    ensures r == Some(TypeError) <==> !ds.Mapping?
    ensures r == Some(AttributeError) <==> ds.Mapping? && TypeKey in ds.m && ValuesKey in ds.m && !ds.m[ValuesKey].Mapping?
    ensures r.Some? ==> r.value in {TypeError, KeyError, AttributeError}
  {
    if !ds.Mapping? then Some(TypeError)
    else if TypeKey !in ds.m then Some(KeyError)
    else if ValuesKey !in ds.m then Some(KeyError)
    else if !ds.m[ValuesKey].Mapping? then Some(AttributeError)
    else None
  }

  predicate GoodEntry(ds: Value)
  {
    ShapeError(ds).None?
  }

  function Title(ds: Value): Value
    requires GoodEntry(ds)
  {
    ds.m[TypeKey]
  }

  function Subtypes(ds: Value): map<Key, Value>
    requires GoodEntry(ds)
  {
    ds.m[ValuesKey].m
  }

  /**
    One assignment `result['%s_%s' % (title, t)] = int(v)`: the key and the
    value it stores. Python evaluates the right-hand side first, so a value
    that `int` refuses decides the error even when the title cannot be
    formatted either.
   */
  function FlatItem(title: Value, t: Key, v: Value): (r: Result<(string, int), Failure>)
    ensures r.Ok? <==> ToInt(v).Ok? && Format(title).Some?
    ensures ToInt(v).Err? ==> r == Err(ToInt(v).error)
    ensures r.Ok? ==> r.value.1 == ToInt(v).value
  {
    match ToInt(v)
    case Err(e) => Err(e)
    case Ok(n) =>
      match Format(title)
      case None => Err(Unmodelled)
      case Some(ts) => Ok((ts + "_" + FormatKey(t), n))
  }

  /**
    A flattened key is the title, an underscore and the sub-type; under one
    title two sub-types collide exactly when they print alike (`1` and `'1'`).
   */
  lemma FlatKeyCollision(title: Value, t1: Key, v1: Value, t2: Key, v2: Value)
    requires FlatItem(title, t1, v1).Ok? && FlatItem(title, t2, v2).Ok?
    ensures var ts := Format(title).value;
            var k1 := FlatItem(title, t1, v1).value.0;
            k1[..|ts|] == ts && k1[|ts|] == '_' && k1[|ts| + 1..] == FormatKey(t1)
    ensures FlatItem(title, t1, v1).value.0 == FlatItem(title, t2, v2).value.0
            <==> FormatKey(t1) == FormatKey(t2)
  {
    var ts := Format(title).value;
    var k1 := FlatItem(title, t1, v1).value.0;
    var k2 := FlatItem(title, t2, v2).value.0;
    assert k1 == ts + "_" + FormatKey(t1);
    assert k2 == ts + "_" + FormatKey(t2);
    assert k1[..|ts|] == ts;
    assert k1[|ts| + 1..] == FormatKey(t1);
    if k1 == k2 {
      assert k2[|ts| + 1..] == FormatKey(t2);
    }
  }

  function ItemOf(ds: Value, t: Key): Result<(string, int), Failure>
    requires GoodEntry(ds) && t in Subtypes(ds)
  {
    FlatItem(Title(ds), t, Subtypes(ds)[t])
  }

  /** An entry `prepare_gt` gets through without an exception. */
  predicate EntryOk(ds: Value)
  {
    GoodEntry(ds) && forall t :: t in Subtypes(ds) ==> ItemOf(ds, t).Ok?
  }

  predicate AllOk(genome: map<Key, Value>)
  {
    forall k :: k in genome ==> EntryOk(genome[k])
  }

  /** `e` is an exception reading entry `ds` can raise, for some order of its sub-types. */
  predicate EntryCanFail(ds: Value, e: Failure)
  {
    ShapeError(ds) == Some(e) || (GoodEntry(ds) && exists t :: t in Subtypes(ds) && ItemOf(ds, t) == Err(e))
  }

  predicate CanFail(genome: map<Key, Value>, e: Failure)
  {
    exists k :: k in genome && EntryCanFail(genome[k], e)
  }

  /** An entry that does not get through has an exception to raise, and only such an entry has one. */
  lemma EntryFailsExactly(ds: Value)
    ensures !EntryOk(ds) <==> exists e :: EntryCanFail(ds, e)
  {
    if !EntryOk(ds) {
      if GoodEntry(ds) {
        var t :| t in Subtypes(ds) && !ItemOf(ds, t).Ok?;
        assert EntryCanFail(ds, ItemOf(ds, t).error);
      } else {
        assert EntryCanFail(ds, ShapeError(ds).value);
      }
    }
  }

  /** The keys an entry contributes. */
  function EntryKeys(ds: Value): set<string>
    requires EntryOk(ds)
  {
    set t | t in Subtypes(ds) :: ItemOf(ds, t).value.0
  }

  /** The keys the entries named in `done` contribute together. */
  function KeysOver(genome: map<Key, Value>, done: set<Key>): set<string>
    requires forall k :: k in done && k in genome ==> EntryOk(genome[k])
  {
    set k, key | k in done && k in genome && key in EntryKeys(genome[k]) :: key
  }

  function FlatKeys(genome: map<Key, Value>): set<string>
    requires AllOk(genome)
  {
    KeysOver(genome, genome.Keys)
  }

  /** Some sub-type of entry `ds` stores `n` under `key`. */
  predicate EntryProduces(ds: Value, key: string, n: int)
    requires GoodEntry(ds)
  {
    exists t :: t in Subtypes(ds) && ItemOf(ds, t) == Ok((key, n))
  }

  predicate ProducedOver(genome: map<Key, Value>, done: set<Key>, key: string, n: int)
  {
    exists k :: k in done && k in genome && GoodEntry(genome[k]) && EntryProduces(genome[k], key, n)
  }

  /**
    A table `prepare_gt` can return for `genome`: every flattened key once,
    each holding the count of one of the sub-types that print to it (which
    one, when several collide, depends on the iteration order).
   */
  predicate PossibleGt(genome: map<Key, Value>, gt: map<string, int>)
    requires AllOk(genome)
  {
    gt.Keys == FlatKeys(genome) && forall key :: key in gt ==> ProducedOver(genome, genome.Keys, key, gt[key])
  }

  lemma KeysOverAdd(genome: map<Key, Value>, done: set<Key>, k: Key)
    requires forall j :: j in done && j in genome ==> EntryOk(genome[j])
    requires k in genome && EntryOk(genome[k])
    ensures KeysOver(genome, done + {k}) == KeysOver(genome, done) + EntryKeys(genome[k])
  {
    var lhs := KeysOver(genome, done + {k});
    var rhs := KeysOver(genome, done) + EntryKeys(genome[k]);
    forall key | key in lhs
      ensures key in rhs
    {
      var j :| j in done + {k} && j in genome && key in EntryKeys(genome[j]);
      if j != k {
        assert key in KeysOver(genome, done);
      }
    }
    forall key | key in rhs
      ensures key in lhs
    {
      if key in EntryKeys(genome[k]) {
        assert k in done + {k};
      } else {
        var j :| j in done && j in genome && key in EntryKeys(genome[j]);
        assert j in done + {k};
      }
    }
  }

  /** The keys the sub-types in `done` of entry `ds` are stored under. */
  function DoneKeys(ds: Value, done: set<Key>): set<string>
    requires GoodEntry(ds) && forall t :: t in done ==> t in Subtypes(ds) && ItemOf(ds, t).Ok?
  {
    set t | t in done :: ItemOf(ds, t).value.0
  }

  lemma DoneKeysAdd(ds: Value, done: set<Key>, t: Key)
    requires GoodEntry(ds) && forall u :: u in done ==> u in Subtypes(ds) && ItemOf(ds, u).Ok?
    requires t in Subtypes(ds) && ItemOf(ds, t).Ok?
    ensures DoneKeys(ds, done + {t}) == DoneKeys(ds, done) + {ItemOf(ds, t).value.0}
  {
  }

  /** The sub-types of entry `ds` read so far are all in `after`, whose other keys are from `result`. */
  ghost predicate ReadSoFar(ds: Value, result: map<string, int>, after: map<string, int>, done: set<Key>)
    requires GoodEntry(ds)
  {
    && (forall t :: t in done ==> t in Subtypes(ds) && ItemOf(ds, t).Ok?)
    && after.Keys == result.Keys + DoneKeys(ds, done)
    && forall key :: key in after ==> (key in result && after[key] == result[key]) || EntryProduces(ds, key, after[key])
  }

  /**
    Reads the sub-types of one entry (whose title and `values` have been
    read) into `result`, stopping at the first exception.
   */
  method FlattenEntry(ghost ds: Value, result: map<string, int>, title: Value, values: map<Key, Value>)
    returns (after: map<string, int>, failure: Option<Failure>)
    requires GoodEntry(ds) && Title(ds) == title && Subtypes(ds) == values
    ensures failure.Some? ==> EntryCanFail(ds, failure.value)
    ensures failure.None? ==> EntryOk(ds) && after.Keys == result.Keys + EntryKeys(ds)
    ensures failure.None? ==> forall key :: key in after ==>
              (key in result && after[key] == result[key]) || EntryProduces(ds, key, after[key])
  {
    after := result;
    var rest := values.Keys;
    ghost var done: set<Key> := {};
    while rest != {}
      invariant rest <= values.Keys && done == values.Keys - rest
      invariant ReadSoFar(ds, result, after, done)
      decreases |rest|
    {
      var t :| t in rest;
      after, failure := FlattenItem(ds, result, after, title, values, t, done);
      if failure.Some? {
        return;
      }
      rest := rest - {t};
      done := done + {t};
    }
    assert done == Subtypes(ds).Keys;
    assert DoneKeys(ds, done) == EntryKeys(ds);
    failure := None;
  }

  /** One sub-type of the inner loop: `int` of its value, then the key, then the store. */
  method FlattenItem(ghost ds: Value, ghost result: map<string, int>, after: map<string, int>, title: Value,
                     values: map<Key, Value>, t: Key, ghost done: set<Key>)
    returns (next: map<string, int>, failure: Option<Failure>)
    requires GoodEntry(ds) && Title(ds) == title && Subtypes(ds) == values && t in values && t !in done
    requires ReadSoFar(ds, result, after, done)
    ensures failure.Some? ==> EntryCanFail(ds, failure.value)
    ensures failure.None? ==> ReadSoFar(ds, result, next, done + {t})
  {
    var n := ToInt(values[t]);
    if n.Err? {
      assert ItemOf(ds, t) == Err(n.error);
      return after, Some(n.error);
    }
    var ts := Format(title);
    if ts.None? {
      assert ItemOf(ds, t) == Err(Unmodelled);
      return after, Some(Unmodelled);
    }
    var key := ts.value + "_" + FormatKey(t);
    assert ItemOf(ds, t) == Ok((key, n.value));
    DoneKeysAdd(ds, done, t);
    next := after[key := n.value];
    failure := None;
  }

  /**
    `prepare_gt`: on success the result has every flattened key (see
    `PossibleGt`); it raises exactly when some entry cannot be read, and then
    an exception that entry can raise.
   */
  method PrepareGt(genome: map<Key, Value>) returns (r: Result<map<string, int>, Failure>)
    ensures r.Ok? <==> AllOk(genome)
    ensures r.Err? ==> CanFail(genome, r.error)
    ensures r.Ok? ==> AllOk(genome) && PossibleGt(genome, r.value)
  {
    var result: map<string, int> := map[];
    var rest := genome.Keys;
    while rest != {}
      invariant rest <= genome.Keys
      invariant forall k :: k in genome && k !in rest ==> EntryOk(genome[k])
      invariant result.Keys == KeysOver(genome, genome.Keys - rest)
      invariant forall key :: key in result ==> ProducedOver(genome, genome.Keys - rest, key, result[key])
      decreases |rest|
    {
      var k :| k in rest;
      var ds := genome[k];
      if !ds.Mapping? {
        return Err(TypeError);
      }
      if TypeKey !in ds.m {
        return Err(KeyError);
      }
      var title := ds.m[TypeKey];
      if ValuesKey !in ds.m {
        return Err(KeyError);
      }
      var values := ds.m[ValuesKey];
      if !values.Mapping? {
        return Err(AttributeError);
      }
      ghost var before := result;
      var failure;
      result, failure := FlattenEntry(ds, result, title, values.m);
      if failure.Some? {
        return Err(failure.value);
      }
      KeysOverAdd(genome, genome.Keys - rest, k);
      assert genome.Keys - (rest - {k}) == (genome.Keys - rest) + {k};
      forall key | key in result
        ensures ProducedOver(genome, genome.Keys - (rest - {k}), key, result[key])
      {
        if key in before && result[key] == before[key] {
          var j :| j in genome.Keys - rest && j in genome && GoodEntry(genome[j]) && EntryProduces(genome[j], key, before[key]);
          assert j in genome.Keys - (rest - {k});
        } else {
          assert k in genome.Keys - (rest - {k});
        }
      }
      rest := rest - {k};
    }
    assert genome.Keys - rest == genome.Keys;
    return Ok(result);
  }

  /** No entry has a sub-type. */
  predicate NoItems(genome: map<Key, Value>)
    requires AllOk(genome)
  {
    forall k :: k in genome ==> Subtypes(genome[k]) == map[]
  }

  /** The table is empty exactly when no entry has a sub-type (then the report has no `gt`). */
  lemma FlatKeysEmpty(genome: map<Key, Value>)
    requires AllOk(genome)
    ensures FlatKeys(genome) == {} <==> NoItems(genome)
  {
    if exists k :: k in genome && Subtypes(genome[k]) != map[] {
      var k :| k in genome && Subtypes(genome[k]) != map[];
      var t :| t in Subtypes(genome[k]);
      assert ItemOf(genome[k], t).value.0 in EntryKeys(genome[k]);
      assert ItemOf(genome[k], t).value.0 in FlatKeys(genome);
    } else {
      forall k | k in genome
        ensures EntryKeys(genome[k]) == {}
      {
        assert Subtypes(genome[k]) == map[];
      }
    }
  }

  /** Every (entry, sub-type) pair of a readable genome map. */
  function Items(genome: map<Key, Value>): set<(Key, Key)>
  {
    set k, t | k in genome && GoodEntry(genome[k]) && t in Subtypes(genome[k]) :: (k, t)
  }

  /** The key a pair is stored under ("" for a pair that is not one of `Items`). */
  function KeyOfItem(genome: map<Key, Value>, p: (Key, Key)): string
  {
    if p.0 in genome && EntryOk(genome[p.0]) && p.1 in Subtypes(genome[p.0])
    then ItemOf(genome[p.0], p.1).value.0
    else ""
  }

  lemma {:induction false} ImageSize(genome: map<Key, Value>, s: set<(Key, Key)>)
    ensures |set p | p in s :: KeyOfItem(genome, p)| <= |s|
    decreases |s|
  {
    if s != {} {
      var p :| p in s;
      var s' := s - {p};
      ImageSize(genome, s');
      assert (set q | q in s :: KeyOfItem(genome, q)) == (set q | q in s' :: KeyOfItem(genome, q)) + {KeyOfItem(genome, p)};
    }
  }

  /** The table has at most as many keys as there are sub-types over all entries. */
  lemma FlatKeysBound(genome: map<Key, Value>)
    requires AllOk(genome)
    ensures |FlatKeys(genome)| <= |Items(genome)|
  {
    var image := set p | p in Items(genome) :: KeyOfItem(genome, p);
    forall key | key in FlatKeys(genome)
      ensures key in image
    {
      var k :| k in genome && key in EntryKeys(genome[k]);
      var t :| t in Subtypes(genome[k]) && ItemOf(genome[k], t).value.0 == key;
      assert (k, t) in Items(genome);
    }
    ImageSize(genome, Items(genome));
    assert FlatKeys(genome) <= image;
    SubsetSize(FlatKeys(genome), image);
  }

  lemma {:induction false} SubsetSize(a: set<string>, b: set<string>)
    requires a <= b
    ensures |a| <= |b|
    decreases |b|
  {
    if a != {} {
      var x :| x in a;
      SubsetSize(a - {x}, b - {x});
    }
  }
}
