/**
 The temporal registry: per keyspace, a table of values and timestamps by key, and a
 reverse index from values to keys.
 */
module TemporalRegistry {
  import opened Wrappers
  import opened Integers
  import opened RegistryKeys

  type Value = seq<u8>

  // Seconds; Tai64 values are unsigned.
  type Time = nat

  datatype Keyspace = Address | AssetId | ContractId | ScriptCode | PredicateCode

  datatype Error = InvalidTimestampOrdering | TimestampNotFound | TimestampNotAccessible | ValueNotFound

  // The value that is never registered: 32 zero bytes, or no code at all.
  function DefaultOf(ks: Keyspace): (v: Value)
    ensures |v| == (if ks.ScriptCode? || ks.PredicateCode? then 0 else 32) && forall i :: 0 <= i < |v| ==> v[i] == 0
  {
    if ks.ScriptCode? || ks.PredicateCode? then [] else seq(32, _ => 0)
  }

  // A value for each keyspace.
  datatype PerKeyspace<T> =
    PerKeyspace(address: T, assetId: T, contractId: T, scriptCode: T, predicateCode: T) {

    function At(ks: Keyspace): (r: T)
    {
      match ks
      case Address => address
      case AssetId => assetId
      case ContractId => contractId
      case ScriptCode => scriptCode
      case PredicateCode => predicateCode
    }

    function With(ks: Keyspace, x: T): (r: PerKeyspace<T>)
      ensures r.At(ks) == x
      ensures forall other: Keyspace :: other != ks ==> r.At(other) == At(other)
    {
      match ks
      case Address => this.(address := x)
      case AssetId => this.(assetId := x)
      case ContractId => this.(contractId := x)
      case ScriptCode => this.(scriptCode := x)
      case PredicateCode => this.(predicateCode := x)
    }
  }

  function All<T>(x: T): (r: PerKeyspace<T>)
    ensures forall ks: Keyspace :: r.At(ks) == x
  {
    PerKeyspace(x, x, x, x, x)
  }

  lemma SameAtEverywhere<T>(a: PerKeyspace<T>, b: PerKeyspace<T>)
    requires forall ks: Keyspace :: a.At(ks) == b.At(ks)
    ensures a == b
  {
    assert a.At(Address) == b.At(Address);
    assert a.At(AssetId) == b.At(AssetId);
    assert a.At(ContractId) == b.At(ContractId);
    assert a.At(ScriptCode) == b.At(ScriptCode);
    assert a.At(PredicateCode) == b.At(PredicateCode);
  }

  // One keyspace: the values, their timestamps and the reverse index.
  datatype Table = Table(values: map<Key, Value>, times: map<Key, Time>, index: map<Value, Key>)

  const EMPTY_TABLE := Table(map[], map[], map[])

  type Registry = PerKeyspace<Table>

  datatype Registration = Registration(key: Key, value: Value)

  function IsTimestampAccessible(retention: nat, block: Time, key: Time): (r: Result<bool, Error>)
  {
    if block < key then Err(InvalidTimestampOrdering) else Ok(block - key <= retention)
  }

  // The value that a write to `k` overwrites, if any.
  function Overwritten(t: Table, k: Key): (r: set<Value>)
  {
    if k in t.values then {t.values[k]} else {}
  }

  // `write_registry`: store the value, drop the overwritten value from the index, index the
  // new value, stamp the key.
  function Written(t: Table, k: Key, v: Value, time: Time): (r: Table)
  {
    Table(t.values[k := v], t.times[k := time], (t.index - Overwritten(t, k))[v := k])
  }

  function WrittenAll(t: Table, regs: seq<Registration>, time: Time): (r: Table)
  {
    if regs == [] then t
    else
      var last := |regs| - 1;
      Written(WrittenAll(t, regs[..last], time), regs[last].key, regs[last].value, time)
  }

  // `write_to_registry`: the registrations of all tables.
  function Replayed(tables: Registry, regs: PerKeyspace<seq<Registration>>, time: Time): (r: Registry)
    ensures forall ks: Keyspace :: r.At(ks) == WrittenAll(tables.At(ks), regs.At(ks), time)
  {
    PerKeyspace(
      WrittenAll(tables.address, regs.address, time),
      WrittenAll(tables.assetId, regs.assetId, time),
      WrittenAll(tables.contractId, regs.contractId, time),
      WrittenAll(tables.scriptCode, regs.scriptCode, time),
      WrittenAll(tables.predicateCode, regs.predicateCode, time))
  }

  /* ---------- the index ---------- */

  // An index entry leads to a stamped key that holds the value.
  ghost predicate Sound(t: Table)
  {
    && t.times.Keys == t.values.Keys
    && forall v :: v in t.index ==> t.index[v] in t.values && t.values[t.index[v]] == v
  }

  // Every value held by the registry is found through the index.
  ghost predicate Complete(t: Table)
  {
    forall k :: k in t.values ==> t.values[k] in t.index
  }

  ghost predicate StampedBy(t: Table, now: Time)
  {
    forall k :: k in t.times ==> t.times[k] <= now
  }

  lemma WriteKeepsSound(t: Table, k: Key, v: Value, time: Time)
    requires Sound(t)
    ensures Sound(Written(t, k, v, time))
  {
  }

  // Overwriting a key drops the old value from the index even if the index had already moved
  // on to a newer key of that value. The index stays complete exactly when the overwritten
  // value has no other key.
  lemma WriteKeepsCompleteIff(t: Table, k: Key, v: Value, time: Time)
    requires Sound(t) && Complete(t)
    ensures Complete(Written(t, k, v, time)) <==>
            (k in t.values && t.values[k] != v ==>
             forall other :: other in t.values && other != k ==> t.values[other] != t.values[k])
  {
    var r := Written(t, k, v, time);
    if k in t.values && t.values[k] != v {
      if other :| other in t.values && other != k && t.values[other] == t.values[k] {
        assert r.values[other] !in r.index;
      }
    }
  }

  // A value registered twice, at times `first` and `second`, loses its index entry when its first
  // key is reused, although its second key still holds it.
  lemma LiveEntryCanLeaveTheIndex(a: Value, b: Value, first: Time, second: Time, third: Time)
    requires a != b
    ensures var t := Written(Written(EMPTY_TABLE, 0, a, first), 1, a, second);
            var r := Written(t, 0, b, third);
            && Complete(t) && t.index == map[a := 1]
            && 1 in r.values && r.values[1] == a && 1 in r.times && r.times[1] == second && a !in r.index
  {
  }

  /* ---------- batches of writes ---------- */

  // `regs` lists the entries of `m`, each once, in some order.
  ghost predicate IsDrain(regs: seq<Registration>, m: map<Key, Value>)
    decreases |regs|
  {
    if regs == [] then m == map[]
    else
      var last := regs[|regs| - 1];
      last.key in m && m[last.key] == last.value && IsDrain(regs[..|regs| - 1], m - {last.key})
  }

  lemma {:induction false} DrainLists(regs: seq<Registration>, m: map<Key, Value>, i: nat)
    requires IsDrain(regs, m) && i < |regs|
    ensures regs[i].key in m && m[regs[i].key] == regs[i].value
    decreases |regs|
  {
    if i < |regs| - 1 {
      DrainLists(regs[..|regs| - 1], m - {regs[|regs| - 1].key}, i);
    }
  }

  lemma {:induction false} DrainListsOnce(regs: seq<Registration>, m: map<Key, Value>, i: nat, j: nat)
    requires IsDrain(regs, m) && i < j < |regs|
    ensures regs[i].key != regs[j].key
    decreases |regs|
  {
    var last := |regs| - 1;
    if j < last {
      DrainListsOnce(regs[..last], m - {regs[last].key}, i, j);
    } else {
      DrainLists(regs[..last], m - {regs[last].key}, i);
    }
  }

  lemma {:induction false} DrainHasKey(regs: seq<Registration>, m: map<Key, Value>, k: Key) returns (i: nat)
    requires IsDrain(regs, m) && k in m
    ensures i < |regs| && regs[i].key == k
    decreases |regs|
  {
    i := |regs| - 1;
    if regs[i].key != k {
      i := DrainHasKey(regs[..i], m - {regs[i].key}, k);
    }
  }

  lemma DrainSnoc(regs: seq<Registration>, m: map<Key, Value>, k: Key, v: Value)
    requires IsDrain(regs, m) && k !in m
    ensures IsDrain(regs + [Registration(k, v)], m[k := v])
  {
    assert (regs + [Registration(k, v)])[..|regs|] == regs;
    assert m[k := v] - {k} == m;
  }

  // In whatever order a batch with distinct keys is written, values and timestamps end up
  // the same.
  lemma {:induction false} WrittenAllIsUpdate(t: Table, regs: seq<Registration>, m: map<Key, Value>, time: Time)
    requires IsDrain(regs, m)
    ensures WrittenAll(t, regs, time).values == t.values + m
    ensures WrittenAll(t, regs, time).times == t.times + Stamps(m, time)
    decreases |regs|
  {
    if regs == [] {
      assert t.values + m == t.values && t.times + Stamps(m, time) == t.times;
    } else {
      var last := |regs| - 1;
      WrittenAllIsUpdate(t, regs[..last], m - {regs[last].key}, time);
      WriteExtendsUpdate(t, WrittenAll(t, regs[..last], time), m, regs[last].key, time);
    }
  }

  lemma WriteExtendsUpdate(t: Table, r: Table, m: map<Key, Value>, k: Key, time: Time)
    requires k in m
    requires r.values == t.values + (m - {k}) && r.times == t.times + Stamps(m - {k}, time)
    ensures Written(r, k, m[k], time).values == t.values + m
    ensures Written(r, k, m[k], time).times == t.times + Stamps(m, time)
  {
    UpdateLast(t.values, m, k);
    UpdateLast(t.times, Stamps(m, time), k);
    assert Stamps(m - {k}, time) == Stamps(m, time) - {k};
  }

  // So the order in which the changes of a block are listed does not show in the values and
  // timestamps.
  lemma DrainOrderDoesNotShow(t: Table, a: seq<Registration>, b: seq<Registration>, m: map<Key, Value>, time: Time)
    requires IsDrain(a, m) && IsDrain(b, m)
    ensures WrittenAll(t, a, time).values == WrittenAll(t, b, time).values
    ensures WrittenAll(t, a, time).times == WrittenAll(t, b, time).times
  {
    WrittenAllIsUpdate(t, a, m, time);
    WrittenAllIsUpdate(t, b, m, time);
  }

  function Stamps(m: map<Key, Value>, time: Time): (r: map<Key, Time>)
  {
    map k | k in m :: time
  }

  lemma UpdateLast<T>(a: map<Key, T>, m: map<Key, T>, k: Key)
    requires k in m
    ensures (a + (m - {k}))[k := m[k]] == a + m
  {
  }

  lemma {:induction false} WrittenAllKeepsSound(t: Table, regs: seq<Registration>, time: Time)
    requires Sound(t)
    ensures Sound(WrittenAll(t, regs, time))
    decreases |regs|
  {
    if regs != [] {
      WrittenAllKeepsSound(t, regs[..|regs| - 1], time);
      WriteKeepsSound(WrittenAll(t, regs[..|regs| - 1], time), regs[|regs| - 1].key, regs[|regs| - 1].value, time);
    }
  }

  lemma {:induction false} WrittenAllKeepsStamps(t: Table, regs: seq<Registration>, time: Time)
    requires StampedBy(t, time)
    ensures StampedBy(WrittenAll(t, regs, time), time)
    decreases |regs|
  {
    if regs != [] {
      WrittenAllKeepsStamps(t, regs[..|regs| - 1], time);
    }
  }

  function WrittenBoth(t: Table, a: Registration, b: Registration, time: Time): (r: Table)
  {
    Written(Written(t, a.key, a.value, time), b.key, b.value, time)
  }

  // The index does depend on the order. Two registrations commute exactly when neither one
  // stores the value that the other one overwrites.
  lemma WritesCommuteIff(t: Table, a: Registration, b: Registration, time: Time)
    requires a.key != b.key && a.value != b.value
    ensures WrittenBoth(t, a, b, time) == WrittenBoth(t, b, a, time)
            <==> a.value !in Overwritten(t, b.key) && b.value !in Overwritten(t, a.key)
  {
    IndexUpdatesCommuteIff(t.index, Overwritten(t, a.key), Overwritten(t, b.key), a, b);
    UpdatesCommute(t.values, a.key, a.value, b.key, b.value);
    UpdatesCommute(t.times, a.key, time, b.key, time);
  }

  // Key 0 moves from [1] to [2] and key 1 gets [1]: in one order [1] is indexed, in the other not.
  lemma WriteOrderShows(time: Time)
    ensures var t := Written(EMPTY_TABLE, 0, [1], time);
            var a, b := Registration(0, [2]), Registration(1, [1]);
            [1] in WrittenBoth(t, a, b, time).index && [1] !in WrittenBoth(t, b, a, time).index
  {
  }

  lemma UpdatesCommute<T>(m: map<Key, T>, a: Key, x: T, b: Key, y: T)
    requires a != b
    ensures m[a := x][b := y] == m[b := y][a := x]
  {
  }

  lemma IndexUpdatesCommuteIff(index: map<Value, Key>, da: set<Value>, db: set<Value>, a: Registration, b: Registration)
    requires a.key != b.key && a.value != b.value
    ensures ((index - da)[a.value := a.key] - db)[b.value := b.key]
            == ((index - db)[b.value := b.key] - da)[a.value := a.key]
            <==> a.value !in db && b.value !in da
  {
    var ab := ((index - da)[a.value := a.key] - db)[b.value := b.key];
    var ba := ((index - db)[b.value := b.key] - da)[a.value := a.key];
    assert a.value in ba && (a.value in ab <==> a.value !in db);
    assert b.value in ab && (b.value in ba <==> b.value !in da);
    if a.value !in db && b.value !in da {
      forall v ensures v in ab <==> v in ba {
      }
      forall v | v in ab ensures ab[v] == ba[v] {
      }
    }
  }

  /** The storage behind the registry. */
  class RegistryStore {
    var tables: Registry
    var latestKeys: PerKeyspace<Option<Key>>

    constructor ()
      ensures tables == All(EMPTY_TABLE) && latestKeys == All(None)
    {
      tables := All(EMPTY_TABLE);
      latestKeys := All(None);
    }

    method ReadRegistry(ks: Keyspace, key: Key) returns (r: Result<Value, Error>)
      ensures r == if key in tables.At(ks).values then Ok(tables.At(ks).values[key]) else Err(ValueNotFound)
    {
      if key in tables.At(ks).values {
        r := Ok(tables.At(ks).values[key]);
      } else {
        r := Err(ValueNotFound);
      }
    }

    method ReadTimestamp(ks: Keyspace, key: Key) returns (r: Result<Time, Error>)
      ensures r == if key in tables.At(ks).times then Ok(tables.At(ks).times[key]) else Err(TimestampNotFound)
    {
      if key in tables.At(ks).times {
        r := Ok(tables.At(ks).times[key]);
      } else {
        r := Err(TimestampNotFound);
      }
    }

    method IndexLookup(ks: Keyspace, value: Value) returns (r: Option<Key>)
      ensures r == if value in tables.At(ks).index then Some(tables.At(ks).index[value]) else None
    {
      if value in tables.At(ks).index {
        r := Some(tables.At(ks).index[value]);
      } else {
        r := None;
      }
    }

    method WriteRegistry(ks: Keyspace, key: Key, value: Value, time: Time)
      modifies this`tables
      ensures tables == old(tables).With(ks, Written(old(tables).At(ks), key, value, time))
    {
      var t := tables.At(ks);
      var index := t.index;
      if key in t.values {
        // the overwritten value leaves the index
        index := index - {t.values[key]};
      }
      assert index == t.index - Overwritten(t, key);
      index := index[value := key];
      tables := tables.With(ks, Table(t.values[key := value], t.times[key := time], index));
    }

    // `write_to_registry` for one table.
    method WriteTable(ks: Keyspace, regs: seq<Registration>, time: Time)
      modifies this`tables
      ensures tables == old(tables).With(ks, WrittenAll(old(tables).At(ks), regs, time))
    {
      SameAtEverywhere(tables, tables.With(ks, tables.At(ks)));
      var i := 0;
      while i < |regs|
        invariant 0 <= i <= |regs|
        invariant tables == old(tables).With(ks, WrittenAll(old(tables).At(ks), regs[..i], time))
      {
        ghost var before := tables;
        assert regs[..i + 1][..i] == regs[..i];
        WriteRegistry(ks, regs[i].key, regs[i].value, time);
        i := i + 1;
        SameAtEverywhere(tables, old(tables).With(ks, WrittenAll(old(tables).At(ks), regs[..i], time)));
      }
      assert regs[..|regs|] == regs;
    }

    // `write_to_registry`: the five tables in turn.
    method WriteToRegistry(regs: PerKeyspace<seq<Registration>>, time: Time)
      modifies this`tables
      ensures tables == Replayed(old(tables), regs, time)
    {
      WriteTable(Address, regs.address, time);
      WriteTable(AssetId, regs.assetId, time);
      WriteTable(ContractId, regs.contractId, time);
      WriteTable(ScriptCode, regs.scriptCode, time);
      WriteTable(PredicateCode, regs.predicateCode, time);
      SameAtEverywhere(tables, Replayed(old(tables), regs, time));
    }

    method SetLatestAssignedKey(ks: Keyspace, key: Key)
      modifies this`latestKeys
      ensures latestKeys == old(latestKeys).With(ks, Some(key))
    {
      latestKeys := latestKeys.With(ks, Some(key));
    }
  }
}
