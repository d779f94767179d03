/**
 The compressor and the decompressor as they run: contexts that are updated while the block
 is walked, and a store that is written at the end.
 */
module Compressor {
  import opened Wrappers
  import opened RegistryKeys
  import opened EvictionPolicy
  import opened TemporalRegistry
  import opened CompressionSpec
  import opened Chain

  ghost function DbOf(store: RegistryStore): Db
    reads store
  {
    Db(store.tables, store.latestKeys)
  }

  // Index lookup and timestamp check, as both passes do it.
  method LookupAccessible(store: RegistryStore, retention: nat, now: Time, ks: Keyspace, found: Key)
    returns (r: Result<bool, Error>)
    ensures r == if found !in store.tables.At(ks).times then Err(TimestampNotFound)
                 else IsTimestampAccessible(retention, now, store.tables.At(ks).times[found])
  {
    var time := store.ReadTimestamp(ks, found);
    if time.Err? {
      return Err(time.error);
    }
    r := IsTimestampAccessible(retention, now, time.value);
  }

  /** First pass: collects the keys that the block will refer to. */
  class PrepareCtx {
    const store: RegistryStore
    const retention: nat
    const timestamp: Time
    var accessedKeys: PerKeyspace<set<Key>>

    constructor (store: RegistryStore, retention: nat, timestamp: Time)
      ensures this.store == store && this.retention == retention && this.timestamp == timestamp
      ensures accessedKeys == All({})
    {
      this.store, this.retention, this.timestamp := store, retention, timestamp;
      accessedKeys := All({});
    }

    method Prepare(item: Item) returns (error: Option<Error>)
      modifies this`accessedKeys
      ensures match PrepareItem(retention, timestamp, store.tables, old(accessedKeys), item)
              case Ok(kept) => error == None && accessedKeys == kept
              case Err(e) => error == Some(e)
    {
      if item.value == DefaultOf(item.ks) {
        return None;
      }
      var found := store.IndexLookup(item.ks, item.value);
      if found.Some? {
        if found.value !in accessedKeys.At(item.ks) {
          var accessible := LookupAccessible(store, retention, timestamp, item.ks, found.value);
          if accessible.Err? {
            return Some(accessible.error);
          }
          if accessible.value {
            accessedKeys := accessedKeys.With(item.ks, accessedKeys.At(item.ks) + {found.value});
          }
        }
      }
      error := None;
    }

    method PrepareAll(items: seq<Item>) returns (error: Option<Error>)
      requires accessedKeys == All({})
      modifies this`accessedKeys
      ensures match PrepareItems(retention, timestamp, store.tables, items)
              case Ok(kept) => error == None && accessedKeys == kept
              case Err(e) => error == Some(e)
    {
      var i := 0;
      while i < |items|
        invariant 0 <= i <= |items|
        invariant PrepareItems(retention, timestamp, store.tables, items[..i]) == Ok(accessedKeys)
      {
        assert items[..i + 1][..i] == items[..i];
        error := Prepare(items[i]);
        if error.Some? {
          PrepareFails(retention, timestamp, store.tables, items, i + 1);
          return;
        }
        i := i + 1;
      }
      assert items[..|items|] == items;
      error := None;
    }
  }

  // The first failure of a pass is its result.
  lemma {:induction false} PrepareFails(retention: nat, now: Time, tables: Registry, items: seq<Item>, n: nat)
    requires n <= |items| && PrepareItems(retention, now, tables, items[..n]).Err?
    ensures PrepareItems(retention, now, tables, items) == PrepareItems(retention, now, tables, items[..n])
    decreases |items|
  {
    if n == |items| {
      assert items[..n] == items;
    } else {
      assert items[..|items| - 1][..n] == items[..n];
      PrepareFails(retention, now, tables, items[..|items| - 1], n);
    }
  }

  /** Second pass state of one keyspace. */
  class CompressCtxKeyspace {
    const cacheEvictor: CacheEvictor
    var changes: map<Key, Value>
    var changesLookup: map<Value, Key>

    ghost function View(): Ctx
      reads this, cacheEvictor
    {
      Ctx(cacheEvictor.View(), changes, changesLookup)
    }

    constructor (latest: Option<Key>, keep: set<Key>)
      ensures View() == InitialCtx(keep, latest)
      ensures fresh(cacheEvictor)
    {
      cacheEvictor := new CacheEvictor.NewFromDb(latest, keep);
      changes, changesLookup := map[], map[];
    }

    // The assignments of the two maps never replace an entry.
    method Register(value: Value) returns (key: Key)
      requires |cacheEvictor.keepKeys| < DEFAULT_VALUE
      requires changes.Keys <= cacheEvictor.keepKeys && value !in changesLookup
      modifies this, cacheEvictor
      ensures View() == Registering(old(View()), Assigned(old(View()).evictor), value)
      ensures key == View().evictor.next
      ensures key !in old(changes)
    {
      key := cacheEvictor.NextKey();
      changes := changes[key := value];
      changesLookup := changesLookup[value := key];
    }

    // There is a key to assign if this value needs one.
    ghost predicate RoomForValue(retention: nat, now: Time, t: Table, value: Value)
      reads this, cacheEvictor
    {
      && changes.Keys <= cacheEvictor.keepKeys
      && (value !in changesLookup && FindAccessible(retention, now, t, value) == Ok(None)
          ==> |cacheEvictor.keepKeys| < DEFAULT_VALUE)
    }

    method Compress(store: RegistryStore, retention: nat, now: Time, ks: Keyspace, value: Value)
      returns (r: Result<Key, Error>)
      requires RoomForValue(retention, now, store.tables.At(ks), value)
      modifies this, cacheEvictor
      ensures match CompressValue(retention, now, old(store.tables.At(ks)), old(View()), value)
              case Ok(p) => r == Ok(p.0) && View() == p.1
              case Err(e) => r == Err(e) && View() == old(View())
    {
      if value in changesLookup {
        return Ok(changesLookup[value]);
      }
      var found := store.IndexLookup(ks, value);
      if found.Some? {
        var accessible := LookupAccessible(store, retention, now, ks, found.value);
        if accessible.Err? {
          return Err(accessible.error);
        }
        if accessible.value {
          return Ok(found.value);
        }
      }
      var key := Register(value);
      r := Ok(key);
    }
  }

  /** Second pass: replaces values by keys, assigning new keys where needed. */
  class CompressCtx {
    const store: RegistryStore
    const retention: nat
    const timestamp: Time
    const keyspaces: PerKeyspace<CompressCtxKeyspace>

    ghost function Repr(): set<object>
    {
      {keyspaces.address, keyspaces.assetId, keyspaces.contractId, keyspaces.scriptCode, keyspaces.predicateCode,
       keyspaces.address.cacheEvictor, keyspaces.assetId.cacheEvictor, keyspaces.contractId.cacheEvictor,
       keyspaces.scriptCode.cacheEvictor, keyspaces.predicateCode.cacheEvictor}
    }

    // The five keyspaces do not share state.
    ghost predicate Valid()
    {
      forall a: Keyspace, b: Keyspace :: a != b ==>
        keyspaces.At(a) != keyspaces.At(b) && keyspaces.At(a).cacheEvictor != keyspaces.At(b).cacheEvictor
    }

    ghost function View(): PerKeyspace<Ctx>
      reads Repr()
      ensures forall ks: Keyspace :: View().At(ks) == keyspaces.At(ks).View()
    {
      PerKeyspace(keyspaces.address.View(), keyspaces.assetId.View(), keyspaces.contractId.View(),
                  keyspaces.scriptCode.View(), keyspaces.predicateCode.View())
    }

    constructor (prepared: PrepareCtx)
      ensures store == prepared.store && retention == prepared.retention && timestamp == prepared.timestamp
      ensures Valid() && fresh(Repr())
      ensures View() == InitialCtxs(prepared.accessedKeys, store.latestKeys)
    {
      store, retention, timestamp := prepared.store, prepared.retention, prepared.timestamp;
      var latest, keep := prepared.store.latestKeys, prepared.accessedKeys;
      var a := new CompressCtxKeyspace(latest.address, keep.address);
      var b := new CompressCtxKeyspace(latest.assetId, keep.assetId);
      var c := new CompressCtxKeyspace(latest.contractId, keep.contractId);
      var d := new CompressCtxKeyspace(latest.scriptCode, keep.scriptCode);
      var e := new CompressCtxKeyspace(latest.predicateCode, keep.predicateCode);
      keyspaces := PerKeyspace(a, b, c, d, e);
    }

    method CompressOne(item: Item) returns (r: Result<CompressedItem, Error>)
      requires Valid()
      requires !IsDefault(item) ==>
                 keyspaces.At(item.ks).RoomForValue(retention, timestamp, store.tables.At(item.ks), item.value)
      modifies Repr()
      ensures match CompressItem(retention, timestamp, old(store.tables), old(View()), item)
              case Ok(p) => r == Ok(p.0) && View() == p.1
              case Err(e) => r == Err(e)
    {
      if item.value == DefaultOf(item.ks) {
        return Ok(CompressedItem(item.ks, DEFAULT_VALUE));
      }
      ghost var before := View();
      var keyspace := keyspaces.At(item.ks);
      var key := keyspace.Compress(store, retention, timestamp, item.ks, item.value);
      if key.Err? {
        return Err(key.error);
      }
      SameAtEverywhere(View(), before.With(item.ks, keyspace.View()));
      r := Ok(CompressedItem(item.ks, key.value));
    }

    // An item of a block that went through the prepare pass: there is no error left to meet.
    method CompressPrepared(item: Item, ghost items: seq<Item>, ghost kept: PerKeyspace<set<Key>>)
      returns (c: CompressedItem)
      requires Valid() && Fits(items) && item in items && store !in Repr()
      requires AllReadable(retention, timestamp, store.tables, items)
      requires Prepared(retention, timestamp, store.tables, items, kept)
      requires PassInv(retention, timestamp, store.tables, kept, items, View())
      modifies Repr()
      ensures CompressItem(retention, timestamp, store.tables, old(View()), item) == Ok((c, View()))
      ensures PassInv(retention, timestamp, store.tables, kept, items, View())
    {
      RoomInPass(retention, timestamp, store.tables, kept, items, View(), item);
      CompressItemStep(retention, timestamp, store.tables, kept, items, View(), item);
      var r := CompressOne(item);
      c := r.value;
    }

    method CompressAll(items: seq<Item>) returns (cs: seq<CompressedItem>)
      requires Valid() && Fits(items) && store !in Repr()
      requires PrepareItems(retention, timestamp, store.tables, items).Ok?
      requires View() == InitialCtxs(PrepareItems(retention, timestamp, store.tables, items).value, store.latestKeys)
      modifies Repr()
      ensures CompressItems(retention, timestamp, store.tables, old(View()), items) == Ok((cs, View()))
    {
      ghost var kept := PrepareItems(retention, timestamp, store.tables, items).value;
      PrepareKeepsAccessibleKeys(retention, timestamp, store.tables, items);
      CompressItemsResolve(retention, timestamp, store.tables, kept, store.latestKeys, items, items[..0]);
      ghost var start := View();
      cs := [];
      var i := 0;
      while i < |items|
        invariant 0 <= i <= |items|
        invariant CompressItems(retention, timestamp, store.tables, start, items[..i]) == Ok((cs, View()))
        invariant PassInv(retention, timestamp, store.tables, kept, items, View())
      {
        ghost var before := View();
        var c := CompressPrepared(items[i], items, kept);
        CompressedSoFar(retention, timestamp, store.tables, start, items, i, cs, before, c, View());
        cs := cs + [c];
        i := i + 1;
      }
      assert items[..|items|] == items;
    }

    // Persists the cursors and writes the registrations.
    method Finalize() returns (regs: PerKeyspace<seq<Registration>>)
      requires Valid() && store !in Repr()
      modifies store
      ensures forall ks: Keyspace :: IsDrain(regs.At(ks), View().At(ks).changes)
      ensures DbOf(store) == Db(Replayed(old(store.tables), regs, timestamp), Cursors(View()))
    {
      CommitCursors();
      regs := DrainChanges();
      store.WriteToRegistry(regs, timestamp);
    }

    method CommitCursors()
      requires store !in Repr()
      modifies store`latestKeys
      ensures store.latestKeys == Cursors(View())
    {
      var a := keyspaces.address.cacheEvictor.Commit();
      var b := keyspaces.assetId.cacheEvictor.Commit();
      var c := keyspaces.contractId.cacheEvictor.Commit();
      var d := keyspaces.scriptCode.cacheEvictor.Commit();
      var e := keyspaces.predicateCode.cacheEvictor.Commit();
      store.SetLatestAssignedKey(Address, a);
      store.SetLatestAssignedKey(AssetId, b);
      store.SetLatestAssignedKey(ContractId, c);
      store.SetLatestAssignedKey(ScriptCode, d);
      store.SetLatestAssignedKey(PredicateCode, e);
    }

    method DrainChanges() returns (regs: PerKeyspace<seq<Registration>>)
      ensures forall ks: Keyspace :: IsDrain(regs.At(ks), View().At(ks).changes)
    {
      var a := Drain(keyspaces.address.changes);
      var b := Drain(keyspaces.assetId.changes);
      var c := Drain(keyspaces.contractId.changes);
      var d := Drain(keyspaces.scriptCode.changes);
      var e := Drain(keyspaces.predicateCode.changes);
      regs := PerKeyspace(a, b, c, d, e);
    }
  }

  // A hash map is emptied in no particular order.
  method Drain(changes: map<Key, Value>) returns (regs: seq<Registration>)
    ensures IsDrain(regs, changes)
  {
    regs := [];
    var rest := changes;
    while rest.Keys != {}
      invariant rest.Keys <= changes.Keys && (forall k :: k in rest ==> rest[k] == changes[k])
      invariant IsDrain(regs, changes - rest.Keys)
      decreases rest.Keys
    {
      var k :| k in rest.Keys;
      DrainSnoc(regs, changes - rest.Keys, k, changes[k]);
      regs := regs + [Registration(k, rest[k])];
      assert (changes - rest.Keys)[k := changes[k]] == changes - (rest - {k}).Keys;
      rest := rest - {k};
    }
    assert changes - rest.Keys == changes;
  }

  // During the pass there is always a key for a value that needs one.
  lemma CompressedSoFar(retention: nat, now: Time, tables: Registry, start: PerKeyspace<Ctx>, items: seq<Item>, i: nat,
                        cs: seq<CompressedItem>, before: PerKeyspace<Ctx>, c: CompressedItem, after: PerKeyspace<Ctx>)
    requires i < |items| && CompressItems(retention, now, tables, start, items[..i]) == Ok((cs, before))
    requires CompressItem(retention, now, tables, before, items[i]) == Ok((c, after))
    ensures CompressItems(retention, now, tables, start, items[..i + 1]) == Ok((cs + [c], after))
  {
    assert items[..i + 1][..i] == items[..i];
  }

  lemma RoomInPass(retention: nat, now: Time, tables: Registry, kept: PerKeyspace<set<Key>>, items: seq<Item>,
                   ctx: PerKeyspace<Ctx>, item: Item)
    requires Prepared(retention, now, tables, items, kept) && Fits(items)
    requires PassInv(retention, now, tables, kept, items, ctx)
    requires item in items
    ensures var c := ctx.At(item.ks);
            && c.changes.Keys <= c.evictor.keep
            && (!IsDefault(item) && item.value !in c.lookup
                && FindAccessible(retention, now, tables.At(item.ks), item.value) == Ok(None)
                ==> |c.evictor.keep| < DEFAULT_VALUE)
  {
    var ks, c := item.ks, ctx.At(item.ks);
    assert CtxInv(retention, now, tables.At(ks), kept.At(ks), c);
    var v := item.value;
    if !IsDefault(item) && v !in c.lookup && FindAccessible(retention, now, tables.At(ks), v) == Ok(None) {
      assert item.value in ValuesIn(items, ks);
      RoomForNewValue(retention, now, tables, items, ks, kept.At(ks), c, item.value);
    }
  }

  // Compresses the next block of the chain. On an error the store is left as it was.
  method Compress(store: RegistryStore, retention: nat, block: Block) returns (r: Result<CompressedBlock, Error>)
    requires Fits(block.items)
    modifies store
    ensures match Passes(retention, old(DbOf(store)), block)
            case Ok(_) => r.Ok? && IsCompression(retention, old(DbOf(store)), block, r.value, DbOf(store))
            case Err(e) => r == Err(e) && DbOf(store) == old(DbOf(store))
  {
    var prepare := new PrepareCtx(store, retention, block.time);
    var error := prepare.PrepareAll(block.items);
    if error.Some? {
      return Err(error.value);
    }
    var ctx := new CompressCtx(prepare);
    var items := ctx.CompressAll(block.items);
    var regs := ctx.Finalize();
    r := Ok(CompressedBlock(block.time, regs, items));
  }

  // Decompresses the next block of the chain; its registrations are written in any case.
  method Decompress(store: RegistryStore, retention: nat, cb: CompressedBlock) returns (r: Result<Block, Error>)
    modifies store`tables
    ensures store.tables == Replayed(old(store.tables), cb.registrations, cb.time)
    ensures r == DecompressBlock(retention, old(store.tables), cb)
  {
    store.WriteToRegistry(cb.registrations, cb.time);
    var items := DecompressAll(store, retention, cb.time, cb.items);
    if items.Err? {
      return Err(items.error);
    }
    r := Ok(Block(cb.time, items.value));
  }

  method DecompressAll(store: RegistryStore, retention: nat, now: Time, cs: seq<CompressedItem>)
    returns (r: Result<seq<Item>, Error>)
    ensures r == DecompressItems(retention, now, store.tables, cs)
  {
    var items := [];
    var i := 0;
    while i < |cs|
      invariant 0 <= i <= |cs|
      invariant DecompressItems(retention, now, store.tables, cs[..i]) == Ok(items)
    {
      assert cs[..i + 1][..i] == cs[..i];
      var item := DecompressOne(store, retention, now, cs[i]);
      if item.Err? {
        DecompressFails(retention, now, store.tables, cs, i + 1);
        return Err(item.error);
      }
      items := items + [item.value];
      i := i + 1;
    }
    assert cs[..|cs|] == cs;
    r := Ok(items);
  }

  method DecompressOne(store: RegistryStore, retention: nat, now: Time, c: CompressedItem)
    returns (r: Result<Item, Error>)
    ensures r == DecompressItem(retention, now, store.tables, c)
  {
    if c.key == DEFAULT_VALUE {
      return Ok(Item(c.ks, DefaultOf(c.ks)));
    }
    var accessible := LookupAccessible(store, retention, now, c.ks, c.key);
    if accessible.Err? {
      return Err(accessible.error);
    }
    if !accessible.value {
      return Err(TimestampNotAccessible);
    }
    var value := store.ReadRegistry(c.ks, c.key);
    if value.Err? {
      return Err(value.error);
    }
    r := Ok(Item(c.ks, value.value));
  }

  lemma {:induction false} DecompressFails(retention: nat, now: Time, tables: Registry, cs: seq<CompressedItem>, n: nat)
    requires n <= |cs| && DecompressItems(retention, now, tables, cs[..n]).Err?
    ensures DecompressItems(retention, now, tables, cs) == DecompressItems(retention, now, tables, cs[..n])
    decreases |cs|
  {
    if n == |cs| {
      assert cs[..n] == cs;
    } else {
      assert cs[..|cs| - 1][..n] == cs[..n];
      DecompressFails(retention, now, tables, cs[..|cs| - 1], n);
    }
  }
}
