/**
 Block compression on values: the two passes over a block and the registrations they lead to.
 */
module CompressionSpec {
  import opened Wrappers
  import opened RegistryKeys
  import opened EvictionPolicy
  import opened TemporalRegistry

  // A registered field of a transaction.
  datatype Item = Item(ks: Keyspace, value: Value)

  // A block: its time and the registered fields of its transactions in the order in which the
  // passes visit them.
  datatype Block = Block(time: Time, items: seq<Item>)

  datatype CompressedItem = CompressedItem(ks: Keyspace, key: AnyKey)

  datatype CompressedBlock =
    CompressedBlock(time: Time, registrations: PerKeyspace<seq<Registration>>, items: seq<CompressedItem>)

  datatype Db = Db(tables: Registry, latest: PerKeyspace<Option<Key>>)

  const EMPTY_DB := Db(All(EMPTY_TABLE), All(None))

  // Compression state of one keyspace.
  datatype Ctx = Ctx(evictor: Evictor, changes: map<Key, Value>, lookup: map<Value, Key>)

  predicate IsDefault(item: Item)
  {
    item.value == DefaultOf(item.ks)
  }

  // The key of a registered value that is still accessible at time `now`.
  function FindAccessible(retention: nat, now: Time, t: Table, v: Value): (r: Result<Option<Key>, Error>)
  {
    if v !in t.index then Ok(None)
    else if t.index[v] !in t.times then Err(TimestampNotFound)
    else
      var accessible :- IsTimestampAccessible(retention, now, t.times[t.index[v]]);
      Ok(if accessible then Some(t.index[v]) else None)
  }

  /* ---------- the prepare pass ---------- */

  function PrepareItem(retention: nat, now: Time, tables: Registry, kept: PerKeyspace<set<Key>>, item: Item)
    : (r: Result<PerKeyspace<set<Key>>, Error>)
  {
    var t := tables.At(item.ks);
    if IsDefault(item) then Ok(kept)
    else if item.value in t.index && t.index[item.value] in kept.At(item.ks) then Ok(kept)
    else
      var found :- FindAccessible(retention, now, t, item.value);
      Ok(if found.Some? then kept.With(item.ks, kept.At(item.ks) + {found.value}) else kept)
  }

  function PrepareItems(retention: nat, now: Time, tables: Registry, items: seq<Item>)
    : (r: Result<PerKeyspace<set<Key>>, Error>)
  {
    if items == [] then Ok(All({}))
    else
      var kept :- PrepareItems(retention, now, tables, items[..|items| - 1]);
      PrepareItem(retention, now, tables, kept, items[|items| - 1])
  }

  // Non-default values of a keyspace in a block.
  ghost function ValuesIn(items: seq<Item>, ks: Keyspace): (r: set<Value>)
  {
    set i | 0 <= i < |items| && items[i].ks == ks && !IsDefault(items[i]) :: items[i].value
  }

  // Those whose registered key may still be used.
  ghost function FoundIn(retention: nat, now: Time, tables: Registry, items: seq<Item>, ks: Keyspace): (r: set<Value>)
  {
    set v | v in ValuesIn(items, ks) && FindAccessible(retention, now, tables.At(ks), v).Ok?
            && FindAccessible(retention, now, tables.At(ks), v).value.Some?
  }

  ghost predicate AllReadable(retention: nat, now: Time, tables: Registry, items: seq<Item>)
  {
    forall ks: Keyspace, v :: v in ValuesIn(items, ks) ==> FindAccessible(retention, now, tables.At(ks), v).Ok?
  }

  lemma ValuesInSnoc(items: seq<Item>, ks: Keyspace)
    requires items != []
    ensures var last := items[|items| - 1];
            ValuesIn(items, ks) == ValuesIn(items[..|items| - 1], ks)
                                   + (if last.ks == ks && !IsDefault(last) then {last.value} else {})
  {
    var init, last := items[..|items| - 1], items[|items| - 1];
    forall v | v in ValuesIn(items, ks)
      ensures v in ValuesIn(init, ks) || (last.ks == ks && !IsDefault(last) && v == last.value)
    {
      var i :| 0 <= i < |items| && items[i].ks == ks && !IsDefault(items[i]) && items[i].value == v;
      if i < |items| - 1 {
        assert init[i] == items[i];
      }
    }
    forall v | v in ValuesIn(init, ks) ensures v in ValuesIn(items, ks) {
      var i :| 0 <= i < |init| && init[i].ks == ks && !IsDefault(init[i]) && init[i].value == v;
      assert items[i] == init[i];
    }
  }

  // The prepare pass keeps exactly the keys of the accessible values of the block, and fails
  // exactly when some value's key has an unreadable timestamp.
  ghost predicate Prepared(retention: nat, now: Time, tables: Registry, items: seq<Item>, kept: PerKeyspace<set<Key>>)
  {
    forall ks: Keyspace ::
      kept.At(ks) == set v | v in FoundIn(retention, now, tables, items, ks) :: tables.At(ks).index[v]
  }

  lemma {:induction false} PrepareKeepsAccessibleKeys(retention: nat, now: Time, tables: Registry, items: seq<Item>)
    ensures var r := PrepareItems(retention, now, tables, items);
            && (r.Ok? <==> AllReadable(retention, now, tables, items))
            && (r.Ok? ==> Prepared(retention, now, tables, items, r.value))
    decreases |items|
  {
    if items == [] {
      forall ks: Keyspace ensures FoundIn(retention, now, tables, items, ks) == {} {
        assert ValuesIn(items, ks) == {};
      }
    } else {
      var init, last := items[..|items| - 1], items[|items| - 1];
      PrepareKeepsAccessibleKeys(retention, now, tables, init);
      forall ks: Keyspace
        ensures ValuesIn(items, ks)
                == ValuesIn(init, ks) + (if last.ks == ks && !IsDefault(last) then {last.value} else {})
      {
        ValuesInSnoc(items, ks);
      }
      var before := PrepareItems(retention, now, tables, init);
      if before.Ok? {
        PrepareStep(retention, now, tables, init, before.value, last);
        assert items == init + [last];
      }
    }
  }

  lemma PrepareStep(retention: nat, now: Time, tables: Registry, items: seq<Item>, kept: PerKeyspace<set<Key>>,
                    item: Item)
    requires AllReadable(retention, now, tables, items)
    requires Prepared(retention, now, tables, items, kept)
    ensures var r := PrepareItem(retention, now, tables, kept, item);
            && (r.Ok? <==> AllReadable(retention, now, tables, items + [item]))
            && (r.Ok? ==> Prepared(retention, now, tables, items + [item], r.value))
  {
    var all, t, v := items + [item], tables.At(item.ks), item.value;
    assert all[..|all| - 1] == items;
    forall ks: Keyspace
      ensures ValuesIn(all, ks) == ValuesIn(items, ks) + (if item.ks == ks && !IsDefault(item) then {v} else {})
    {
      ValuesInSnoc(all, ks);
    }
    var r := PrepareItem(retention, now, tables, kept, item);
    var found := FindAccessible(retention, now, t, v);
    if !IsDefault(item) {
      if v in t.index && t.index[v] in kept.At(item.ks) {
        // some other value of the block leads to the same key, so its timestamp has been checked
        var w :| w in FoundIn(retention, now, tables, items, item.ks) && t.index[w] == t.index[v];
        assert found.Ok? && found.value.Some?;
      }
      assert v in ValuesIn(all, item.ks);
      assert r.Ok? <==> AllReadable(retention, now, tables, all);
      if r.Ok? {
        forall ks: Keyspace
          ensures r.value.At(ks) == set w | w in FoundIn(retention, now, tables, all, ks) :: tables.At(ks).index[w]
        {
          var before, after := FoundIn(retention, now, tables, items, ks), FoundIn(retention, now, tables, all, ks);
          if ks == item.ks && found.value.Some? {
            assert after == before + {v};
          } else {
            assert after == before;
          }
        }
      }
    } else {
      forall ks: Keyspace
        ensures FoundIn(retention, now, tables, all, ks) == FoundIn(retention, now, tables, items, ks)
      {
        assert ValuesIn(all, ks) == ValuesIn(items, ks);
      }
      assert forall ks: Keyspace :: ValuesIn(all, ks) == ValuesIn(items, ks);
    }
  }

  /* ---------- the compress pass ---------- */

  function CompressValue(retention: nat, now: Time, t: Table, c: Ctx, v: Value): (r: Result<(Key, Ctx), Error>)
  {
    if v in c.lookup then Ok((c.lookup[v], c))
    else
      var found :- FindAccessible(retention, now, t, v);
      if found.Some? then Ok((found.value, c))
      else
        var evictor := Assigned(c.evictor);
        Ok((evictor.next, Registering(c, evictor, v)))
  }

  function CompressItem(retention: nat, now: Time, tables: Registry, ctx: PerKeyspace<Ctx>, item: Item)
    : (r: Result<(CompressedItem, PerKeyspace<Ctx>), Error>)
  {
    if IsDefault(item) then Ok((CompressedItem(item.ks, DEFAULT_VALUE), ctx))
    else
      var r :- CompressValue(retention, now, tables.At(item.ks), ctx.At(item.ks), item.value);
      Ok((CompressedItem(item.ks, r.0), ctx.With(item.ks, r.1)))
  }

  function CompressItems(retention: nat, now: Time, tables: Registry, ctx: PerKeyspace<Ctx>, items: seq<Item>)
    : (r: Result<(seq<CompressedItem>, PerKeyspace<Ctx>), Error>)
  {
    if items == [] then Ok(([], ctx))
    else
      var before :- CompressItems(retention, now, tables, ctx, items[..|items| - 1]);
      var last :- CompressItem(retention, now, tables, before.1, items[|items| - 1]);
      Ok((before.0 + [last.0], last.1))
  }

  function InitialCtx(kept: set<Key>, latest: Option<Key>): (r: Ctx)
  {
    Ctx(Evictor(kept, Restored(latest)), map[], map[])
  }

  function InitialCtxs(kept: PerKeyspace<set<Key>>, latest: PerKeyspace<Option<Key>>): (r: PerKeyspace<Ctx>)
    ensures forall ks: Keyspace :: r.At(ks) == InitialCtx(kept.At(ks), latest.At(ks))
  {
    PerKeyspace(
      InitialCtx(kept.address, latest.address),
      InitialCtx(kept.assetId, latest.assetId),
      InitialCtx(kept.contractId, latest.contractId),
      InitialCtx(kept.scriptCode, latest.scriptCode),
      InitialCtx(kept.predicateCode, latest.predicateCode))
  }

  // Both passes; the database is only read.
  function Passes(retention: nat, db: Db, block: Block): (r: Result<(seq<CompressedItem>, PerKeyspace<Ctx>), Error>)
  {
    var kept :- PrepareItems(retention, block.time, db.tables, block.items);
    CompressItems(retention, block.time, db.tables, InitialCtxs(kept, db.latest), block.items)
  }

  ghost predicate Inverse(changes: map<Key, Value>, lookup: map<Value, Key>)
  {
    && (forall k :: k in changes ==> changes[k] in lookup && lookup[changes[k]] == k)
    && (forall v :: v in lookup ==> lookup[v] in changes && changes[lookup[v]] == v)
  }

  lemma InverseExtends(changes: map<Key, Value>, lookup: map<Value, Key>, k: Key, v: Value)
    requires Inverse(changes, lookup) && k !in changes && v !in lookup
    ensures Inverse(changes[k := v], lookup[v := k])
  {
  }

  function Cursors(ctx: PerKeyspace<Ctx>): (r: PerKeyspace<Option<Key>>)
    ensures forall ks: Keyspace :: r.At(ks) == Some(ctx.At(ks).evictor.next)
  {
    PerKeyspace(
      Some(ctx.address.evictor.next),
      Some(ctx.assetId.evictor.next),
      Some(ctx.contractId.evictor.next),
      Some(ctx.scriptCode.evictor.next),
      Some(ctx.predicateCode.evictor.next))
  }

  // What the compress pass keeps true of a keyspace: reused keys and new keys are apart, and
  // `changes` and `lookup` are inverse to each other.
  ghost predicate CtxInv(retention: nat, now: Time, t: Table, kept: set<Key>, c: Ctx)
  {
    && c.evictor.keep == kept + c.changes.Keys
    && kept !! c.changes.Keys
    && Inverse(c.changes, c.lookup)
    && (forall v :: v in c.lookup ==> FindAccessible(retention, now, t, v) == Ok(None))
  }

  // What a compressed key stands for: a new registration, or a key kept from the old registry.
  ghost predicate Resolves(retention: nat, now: Time, t: Table, kept: set<Key>, changes: map<Key, Value>, k: Key,
                           v: Value)
  {
    || (k in changes && changes[k] == v)
    || (k in kept && FindAccessible(retention, now, t, v) == Ok(Some(k)))
  }

  // There is a key left for `v` if the block needs at most all keys.
  ghost predicate RoomFor(c: Ctx, v: Value)
  {
    v !in c.lookup ==> |c.evictor.keep| < DEFAULT_VALUE
  }

  function Registering(c: Ctx, evictor: Evictor, v: Value): (r: Ctx)
  {
    Ctx(evictor, c.changes[evictor.next := v], c.lookup[v := evictor.next])
  }

  // `changes` only grows.
  ghost predicate Extends(before: map<Key, Value>, after: map<Key, Value>)
  {
    forall k :: k in before ==> k in after && after[k] == before[k]
  }

  lemma Allocate(retention: nat, now: Time, t: Table, kept: set<Key>, c: Ctx, evictor: Evictor, v: Value)
    requires CtxInv(retention, now, t, kept, c)
    requires FindAccessible(retention, now, t, v) == Ok(None) && v !in c.lookup
    requires evictor.next !in c.evictor.keep && evictor.keep == c.evictor.keep + {evictor.next}
    ensures CtxInv(retention, now, t, kept, Registering(c, evictor, v))
    ensures evictor.next !in c.changes && Extends(c.changes, Registering(c, evictor, v).changes)
    ensures Registering(c, evictor, v).lookup.Keys == c.lookup.Keys + {v}
  {
    InverseExtends(c.changes, c.lookup, evictor.next, v);
    assert c.changes[evictor.next := v].Keys == c.changes.Keys + {evictor.next};
  }

  // One step of the compress pass. The new key is neither kept nor used before, so nothing is
  // lost from `changes` and `lookup` (the code's two assertions).
  lemma CompressValueStep(retention: nat, now: Time, t: Table, kept: set<Key>, c: Ctx, v: Value, found: Option<Key>)
    requires CtxInv(retention, now, t, kept, c)
    requires FindAccessible(retention, now, t, v) == Ok(found)
    requires if found.Some? then found.value in kept else RoomFor(c, v)
    ensures CompressValue(retention, now, t, c, v).Ok?
    ensures var (k, c') := CompressValue(retention, now, t, c, v).value;
            && CtxInv(retention, now, t, kept, c')
            && Resolves(retention, now, t, kept, c'.changes, k, v)
            && Extends(c.changes, c'.changes)
            && c'.lookup.Keys == c.lookup.Keys + (if found.None? then {v} else {})
  {
    if v in c.lookup {
      assert CompressValue(retention, now, t, c, v) == Ok((c.lookup[v], c));
      assert c.lookup.Keys + {v} == c.lookup.Keys;
    } else if found.Some? {
      assert CompressValue(retention, now, t, c, v) == Ok((found.value, c));
    } else {
      var e := Assigned(c.evictor);
      assert e.next !in c.evictor.keep && e.keep == c.evictor.keep + {e.next} by {
        FirstFreeIsFree(c.evictor.keep, c.evictor.next);
      }
      assert CompressValue(retention, now, t, c, v) == Ok((e.next, Registering(c, e, v)));
      Allocate(retention, now, t, kept, c, e, v);
    }
  }

  /* ---------- a whole block ---------- */

  // The block needs no more keys per keyspace than there are.
  ghost predicate Fits(items: seq<Item>)
  {
    forall ks: Keyspace :: |ValuesIn(items, ks)| <= DEFAULT_VALUE
  }

  lemma {:induction false} ImageSize(s: set<Value>, m: map<Value, Key>)
    requires s <= m.Keys
    ensures |set v | v in s :: m[v]| <= |s|
    decreases |s|
  {
    if s != {} {
      var v :| v in s;
      ImageSize(s - {v}, m);
      assert (set w | w in s :: m[w]) == (set w | w in s - {v} :: m[w]) + {m[v]};
    }
  }

  // Kept and newly assigned keys belong to different values of the block, so a value that has
  // neither finds a free key.
  lemma RoomForNewValue(retention: nat, now: Time, tables: Registry, items: seq<Item>, ks: Keyspace, kept: set<Key>,
                        c: Ctx, v: Value)
    requires CtxInv(retention, now, tables.At(ks), kept, c)
    requires kept == set w | w in FoundIn(retention, now, tables, items, ks) :: tables.At(ks).index[w]
    requires c.lookup.Keys <= ValuesIn(items, ks)
    requires v in ValuesIn(items, ks) && v !in c.lookup && FindAccessible(retention, now, tables.At(ks), v) == Ok(None)
    ensures |c.evictor.keep| < |ValuesIn(items, ks)|
  {
    var found := FoundIn(retention, now, tables, items, ks);
    ImageSize(found, tables.At(ks).index);
    ChangesAreFew(c.changes, c.lookup);
    CountKeys(found, c.lookup.Keys, ValuesIn(items, ks), v, kept, c.changes.Keys);
  }

  lemma ChangesAreFew(changes: map<Key, Value>, lookup: map<Value, Key>)
    requires Inverse(changes, lookup)
    ensures |changes.Keys| <= |lookup.Keys|
  {
    ImageSize(lookup.Keys, lookup);
    assert changes.Keys == set w | w in lookup.Keys :: lookup[w];
  }

  lemma CountKeys(found: set<Value>, new_: set<Value>, all: set<Value>, v: Value, kept: set<Key>, changed: set<Key>)
    requires |kept| <= |found| && |changed| <= |new_|
    requires found !! new_ && found <= all && new_ <= all
    requires v in all && v !in found && v !in new_
    ensures |kept + changed| < |all|
  {
    assert |found + new_| == |found| + |new_|;
    assert |found + new_ + {v}| == |found + new_| + 1;
    SubsetIsSmaller(found + new_ + {v}, all);
  }

  // A compressed item stands for the item it came from.
  ghost predicate ItemResolves(retention: nat, now: Time, tables: Registry, kept: PerKeyspace<set<Key>>,
                               ctx: PerKeyspace<Ctx>,
                               item: Item, c: CompressedItem)
  {
    && c.ks == item.ks
    && (IsDefault(item) <==> c.key == DEFAULT_VALUE)
    && (!IsDefault(item) ==>
        Resolves(retention, now, tables.At(item.ks), kept.At(item.ks), ctx.At(item.ks).changes, c.key, item.value))
  }

  ghost predicate PassInv(retention: nat, now: Time, tables: Registry, kept: PerKeyspace<set<Key>>, items: seq<Item>,
                          ctx: PerKeyspace<Ctx>)
  {
    forall ks: Keyspace ::
      CtxInv(retention, now, tables.At(ks), kept.At(ks), ctx.At(ks)) && ctx.At(ks).lookup.Keys <= ValuesIn(items, ks)
  }

  lemma CompressItemStep(retention: nat, now: Time, tables: Registry, kept: PerKeyspace<set<Key>>, items: seq<Item>,
                         ctx: PerKeyspace<Ctx>, item: Item)
    requires AllReadable(retention, now, tables, items) && Prepared(retention, now, tables, items, kept) && Fits(items)
    requires PassInv(retention, now, tables, kept, items, ctx)
    requires item in items
    ensures CompressItem(retention, now, tables, ctx, item).Ok?
    ensures var (c, ctx') := CompressItem(retention, now, tables, ctx, item).value;
            && PassInv(retention, now, tables, kept, items, ctx')
            && ItemResolves(retention, now, tables, kept, ctx', item, c)
            && (forall ks: Keyspace :: Extends(ctx.At(ks).changes, ctx'.At(ks).changes))
  {
    if !IsDefault(item) {
      var ks, v := item.ks, item.value;
      assert v in ValuesIn(items, ks);
      assert CtxInv(retention, now, tables.At(ks), kept.At(ks), ctx.At(ks));
      var found := FindAccessible(retention, now, tables.At(ks), v).value;
      FoundOrRoom(retention, now, tables, kept, items, ctx, item, found);
      CompressValueStep(retention, now, tables.At(ks), kept.At(ks), ctx.At(ks), v, found);
      var (k, c) := CompressValue(retention, now, tables.At(ks), ctx.At(ks), v).value;
      PassInvWith(retention, now, tables, kept, items, ctx, ks, c);
    }
  }

  lemma FoundOrRoom(retention: nat, now: Time, tables: Registry, kept: PerKeyspace<set<Key>>, items: seq<Item>,
                    ctx: PerKeyspace<Ctx>, item: Item, found: Option<Key>)
    requires Prepared(retention, now, tables, items, kept) && Fits(items)
    requires PassInv(retention, now, tables, kept, items, ctx)
    requires item.value in ValuesIn(items, item.ks)
    requires FindAccessible(retention, now, tables.At(item.ks), item.value) == Ok(found)
    ensures if found.Some? then found.value in kept.At(item.ks) else RoomFor(ctx.At(item.ks), item.value)
  {
    if found.Some? {
      assert item.value in FoundIn(retention, now, tables, items, item.ks);
    } else if item.value !in ctx.At(item.ks).lookup {
      RoomForNewValue(retention, now, tables, items, item.ks, kept.At(item.ks), ctx.At(item.ks), item.value);
    }
  }

  lemma PassInvWith(retention: nat, now: Time, tables: Registry, kept: PerKeyspace<set<Key>>, items: seq<Item>,
                    ctx: PerKeyspace<Ctx>, ks: Keyspace, c: Ctx)
    requires PassInv(retention, now, tables, kept, items, ctx)
    requires CtxInv(retention, now, tables.At(ks), kept.At(ks), c) && c.lookup.Keys <= ValuesIn(items, ks)
    ensures PassInv(retention, now, tables, kept, items, ctx.With(ks, c))
  {
  }

  lemma ResolvesStays(retention: nat, now: Time, tables: Registry, kept: PerKeyspace<set<Key>>,
                      ctx: PerKeyspace<Ctx>, ctx': PerKeyspace<Ctx>, item: Item, c: CompressedItem)
    requires ItemResolves(retention, now, tables, kept, ctx, item, c)
    requires forall ks: Keyspace :: Extends(ctx.At(ks).changes, ctx'.At(ks).changes)
    ensures ItemResolves(retention, now, tables, kept, ctx', item, c)
  {
    assert Extends(ctx.At(item.ks).changes, ctx'.At(item.ks).changes);
  }

  // The compress pass never fails once the prepare pass went through, and every compressed
  // item stands for its original.
  lemma {:induction false} CompressItemsResolve(retention: nat, now: Time, tables: Registry,
                                                kept: PerKeyspace<set<Key>>,
                                                latest: PerKeyspace<Option<Key>>, all: seq<Item>, items: seq<Item>)
    requires AllReadable(retention, now, tables, all) && Prepared(retention, now, tables, all, kept) && Fits(all)
    requires items <= all
    ensures CompressItems(retention, now, tables, InitialCtxs(kept, latest), items).Ok?
    ensures var (cs, ctx) := CompressItems(retention, now, tables, InitialCtxs(kept, latest), items).value;
            && PassInv(retention, now, tables, kept, all, ctx)
            && |cs| == |items|
            && (forall i :: 0 <= i < |items| ==> ItemResolves(retention, now, tables, kept, ctx, items[i], cs[i]))
    decreases |items|
  {
    if items != [] {
      var init, last := items[..|items| - 1], items[|items| - 1];
      CompressItemsResolve(retention, now, tables, kept, latest, all, init);
      var (cs, ctx) := CompressItems(retention, now, tables, InitialCtxs(kept, latest), init).value;
      assert last in all by { assert all[|items| - 1] == last; }
      CompressItemStep(retention, now, tables, kept, all, ctx, last);
      var (c, ctx') := CompressItem(retention, now, tables, ctx, last).value;
      AllResolveStill(retention, now, tables, kept, ctx, ctx', items, cs, c);
    }
  }

  lemma AllResolveStill(retention: nat, now: Time, tables: Registry, kept: PerKeyspace<set<Key>>, ctx: PerKeyspace<Ctx>,
                        ctx': PerKeyspace<Ctx>, items: seq<Item>, cs: seq<CompressedItem>, c: CompressedItem)
    requires |items| == |cs| + 1
    requires forall i :: 0 <= i < |cs| ==> ItemResolves(retention, now, tables, kept, ctx, items[i], cs[i])
    requires forall ks: Keyspace :: Extends(ctx.At(ks).changes, ctx'.At(ks).changes)
    requires ItemResolves(retention, now, tables, kept, ctx', items[|cs|], c)
    ensures forall i :: 0 <= i < |items| ==> ItemResolves(retention, now, tables, kept, ctx', items[i], (cs + [c])[i])
  {
    forall i | 0 <= i < |cs| ensures ItemResolves(retention, now, tables, kept, ctx', items[i], cs[i]) {
      ResolvesStays(retention, now, tables, kept, ctx, ctx', items[i], cs[i]);
    }
  }

  /* ---------- finalizing, and replaying on the other side ---------- */

  // `cb` is a result of compressing `block`, and `db'` the database afterwards. The order in
  // which the changes are listed is arbitrary.
  ghost predicate IsCompression(retention: nat, db: Db, block: Block, cb: CompressedBlock, db': Db)
  {
    && Passes(retention, db, block).Ok?
    && var (items, ctx) := Passes(retention, db, block).value;
    && cb.time == block.time && cb.items == items
    && (forall ks: Keyspace :: IsDrain(cb.registrations.At(ks), ctx.At(ks).changes))
    && db' == Db(Replayed(db.tables, cb.registrations, cb.time), Cursors(ctx))
  }

  // What every block leaves behind: a sound index, and no timestamp from the future.
  ghost predicate Healthy(tables: Registry, now: Time)
  {
    forall ks: Keyspace :: Sound(tables.At(ks)) && StampedBy(tables.At(ks), now)
  }

  lemma ReplayKeepsHealthy(tables: Registry, regs: PerKeyspace<seq<Registration>>, now: Time)
    requires Healthy(tables, now)
    ensures Healthy(Replayed(tables, regs, now), now)
  {
    forall ks: Keyspace
      ensures Sound(Replayed(tables, regs, now).At(ks)) && StampedBy(Replayed(tables, regs, now).At(ks), now)
    {
      WrittenAllKeepsSound(tables.At(ks), regs.At(ks), now);
      WrittenAllKeepsStamps(tables.At(ks), regs.At(ks), now);
    }
  }

  // Progress: over a healthy registry neither pass fails.
  lemma PassesSucceed(retention: nat, db: Db, block: Block)
    requires Healthy(db.tables, block.time) && Fits(block.items)
    ensures Passes(retention, db, block).Ok?
  {
    forall ks: Keyspace, v | v in ValuesIn(block.items, ks)
      ensures FindAccessible(retention, block.time, db.tables.At(ks), v).Ok?
    {
      assert Sound(db.tables.At(ks)) && StampedBy(db.tables.At(ks), block.time);
    }
    PrepareKeepsAccessibleKeys(retention, block.time, db.tables, block.items);
    var kept := PrepareItems(retention, block.time, db.tables, block.items).value;
    CompressItemsResolve(retention, block.time, db.tables, kept, db.latest, block.items, block.items);
  }

  // What the passes promise about a block: each item resolves, and within a keyspace new keys
  // and reused keys are apart.
  lemma PassesResolve(retention: nat, db: Db, block: Block) returns (kept: PerKeyspace<set<Key>>)
    requires Passes(retention, db, block).Ok? && Fits(block.items)
    ensures var (items, ctx) := Passes(retention, db, block).value;
            && PassInv(retention, block.time, db.tables, kept, block.items, ctx)
            && |items| == |block.items|
            && (forall i :: 0 <= i < |items| ==>
                ItemResolves(retention, block.time, db.tables, kept, ctx, block.items[i], items[i]))
  {
    PrepareKeepsAccessibleKeys(retention, block.time, db.tables, block.items);
    kept := PrepareItems(retention, block.time, db.tables, block.items).value;
    CompressItemsResolve(retention, block.time, db.tables, kept, db.latest, block.items, block.items);
  }

  // No key of the old registry that a block refers to is overwritten by that block.
  lemma ReusedKeysSurvive(retention: nat, db: Db, block: Block, cb: CompressedBlock, db': Db, i: nat)
    requires Fits(block.items) && IsCompression(retention, db, block, cb, db')
    requires i < |block.items| && !IsDefault(block.items[i])
    requires var item := block.items[i];
             item.value in db.tables.At(item.ks).index
             && FindAccessible(retention, block.time, db.tables.At(item.ks), item.value)
                == Ok(Some(db.tables.At(item.ks).index[item.value]))
    ensures |cb.items| == |block.items|
    ensures var item := block.items[i];
            var k := db.tables.At(item.ks).index[item.value];
            && cb.items[i].key == k
            && (forall j :: 0 <= j < |cb.registrations.At(item.ks)| ==> cb.registrations.At(item.ks)[j].key != k)
  {
    var kept := PassesResolve(retention, db, block);
    var (items, ctx) := Passes(retention, db, block).value;
    var item := block.items[i];
    assert CtxInv(retention, block.time, db.tables.At(item.ks), kept.At(item.ks), ctx.At(item.ks));
    assert ItemResolves(retention, block.time, db.tables, kept, ctx, item, items[i]);
    var regs := cb.registrations.At(item.ks);
    assert IsDrain(regs, ctx.At(item.ks).changes);
    forall j | 0 <= j < |regs| ensures regs[j].key in ctx.At(item.ks).changes {
      DrainLists(regs, ctx.At(item.ks).changes, j);
    }
  }

  /* ---------- what a block registers, in numbers ---------- */

  // `v` is indexed under key `k`, which was stamped at time `s`.
  predicate IndexedAt(t: Table, v: Value, k: Key, s: Time)
  {
    v in t.index && t.index[v] == k && k in t.times && t.times[k] == s
  }

  // A value whose key was stamped no longer than the retention ago is compressed to that key and
  // not registered, and its key is not reassigned. Any other value is registered under the key that
  // it is compressed to.
  lemma ReuseIff(retention: nat, db: Db, block: Block, cb: CompressedBlock, db': Db, i: nat, k: Key, s: Time)
    requires Fits(block.items) && IsCompression(retention, db, block, cb, db')
    requires i < |block.items| && block.items[i].value != DefaultOf(block.items[i].ks)
    requires IndexedAt(db.tables.At(block.items[i].ks), block.items[i].value, k, s) && s <= block.time
    ensures |cb.items| == |block.items|
    ensures var v, regs := block.items[i].value, cb.registrations.At(block.items[i].ks);
            && (block.time - s <= retention <==> forall j :: 0 <= j < |regs| ==> regs[j].value != v)
            && (block.time - s <= retention ==>
                cb.items[i].key == k && forall j :: 0 <= j < |regs| ==> regs[j].key != k)
            && (block.time - s > retention ==>
                exists j :: 0 <= j < |regs| && regs[j].key == cb.items[i].key && regs[j].value == v)
  {
    var item := block.items[i];
    assert FindAccessible(retention, block.time, db.tables.At(item.ks), item.value)
           == Ok(if block.time - s <= retention then Some(k) else None);
    if block.time - s <= retention {
      FoundIsNotRegistered(retention, db, block, cb, db', i, k);
    } else {
      NotFoundIsRegistered(retention, db, block, cb, db', i);
    }
  }

  // A default value is compressed to the default key and never registered.
  lemma DefaultIsNotRegistered(retention: nat, db: Db, block: Block, cb: CompressedBlock, db': Db, i: nat, ks: Keyspace)
    requires Fits(block.items) && IsCompression(retention, db, block, cb, db')
    ensures |cb.items| == |block.items|
    ensures i < |block.items| ==>
              (cb.items[i].key == DEFAULT_VALUE <==> block.items[i].value == DefaultOf(block.items[i].ks))
    ensures var regs := cb.registrations.At(ks);
            forall j :: 0 <= j < |regs| ==> regs[j].value != DefaultOf(ks)
  {
    var kept := PassesResolve(retention, db, block);
    var (items, ctx) := Passes(retention, db, block).value;
    if i < |block.items| {
      assert ItemResolves(retention, block.time, db.tables, kept, ctx, block.items[i], items[i]);
    }
    var c, regs := ctx.At(ks), cb.registrations.At(ks);
    assert CtxInv(retention, block.time, db.tables.At(ks), kept.At(ks), c);
    assert IsDrain(regs, c.changes);
    forall j | 0 <= j < |regs| ensures regs[j].value != DefaultOf(ks) {
      DrainLists(regs, c.changes, j);
    }
  }

  // So is a value that is not indexed, however often the block holds it.
  lemma NewValueIsRegisteredOnce(retention: nat, db: Db, block: Block, cb: CompressedBlock, db': Db, i: nat)
    requires Fits(block.items) && IsCompression(retention, db, block, cb, db')
    requires i < |block.items| && block.items[i].value != DefaultOf(block.items[i].ks)
    requires block.items[i].value !in db.tables.At(block.items[i].ks).index
    ensures |cb.items| == |block.items|
    ensures var v, regs := block.items[i].value, cb.registrations.At(block.items[i].ks);
            exists j :: 0 <= j < |regs| && regs[j].key == cb.items[i].key && regs[j].value == v
    ensures var v, regs := block.items[i].value, cb.registrations.At(block.items[i].ks);
            forall j, k :: 0 <= j < k < |regs| ==> !(regs[j].value == v && regs[k].value == v)
  {
    NotFoundIsRegistered(retention, db, block, cb, db', i);
    RegisteredOnce(retention, db, block, cb, db', block.items[i].ks);
  }

  // No block registers a key or a value twice.
  lemma RegisteredOnce(retention: nat, db: Db, block: Block, cb: CompressedBlock, db': Db, ks: Keyspace)
    requires Fits(block.items) && IsCompression(retention, db, block, cb, db')
    ensures var regs := cb.registrations.At(ks);
            forall j, k :: 0 <= j < k < |regs| ==> regs[j].key != regs[k].key && regs[j].value != regs[k].value
  {
    var kept := PassesResolve(retention, db, block);
    var (_, ctx) := Passes(retention, db, block).value;
    var c, regs := ctx.At(ks), cb.registrations.At(ks);
    assert CtxInv(retention, block.time, db.tables.At(ks), kept.At(ks), c) && IsDrain(regs, c.changes);
    forall j, k | 0 <= j < k < |regs| ensures regs[j].key != regs[k].key && regs[j].value != regs[k].value {
      DrainListsOnce(regs, c.changes, j, k);
      DrainLists(regs, c.changes, j);
      DrainLists(regs, c.changes, k);
    }
  }

  lemma FoundIsNotRegistered(retention: nat, db: Db, block: Block, cb: CompressedBlock, db': Db, i: nat, k: Key)
    requires Fits(block.items) && IsCompression(retention, db, block, cb, db')
    requires i < |block.items| && !IsDefault(block.items[i])
    requires var item := block.items[i];
             FindAccessible(retention, block.time, db.tables.At(item.ks), item.value) == Ok(Some(k))
    ensures |cb.items| == |block.items| && cb.items[i].key == k
    ensures var regs := cb.registrations.At(block.items[i].ks);
            forall j :: 0 <= j < |regs| ==> regs[j].value != block.items[i].value && regs[j].key != k
  {
    var kept := PassesResolve(retention, db, block);
    var (items, ctx) := Passes(retention, db, block).value;
    var item := block.items[i];
    var c, regs := ctx.At(item.ks), cb.registrations.At(item.ks);
    assert CtxInv(retention, block.time, db.tables.At(item.ks), kept.At(item.ks), c);
    assert ItemResolves(retention, block.time, db.tables, kept, ctx, item, items[i]);
    assert item.value !in c.lookup;
    assert IsDrain(regs, c.changes);
    forall j | 0 <= j < |regs| ensures regs[j].value != item.value && regs[j].key != k {
      DrainLists(regs, c.changes, j);
    }
  }

  lemma NotFoundIsRegistered(retention: nat, db: Db, block: Block, cb: CompressedBlock, db': Db, i: nat)
    requires Fits(block.items) && IsCompression(retention, db, block, cb, db')
    requires i < |block.items| && !IsDefault(block.items[i])
    requires var item := block.items[i];
             FindAccessible(retention, block.time, db.tables.At(item.ks), item.value) == Ok(None)
    ensures |cb.items| == |block.items|
    ensures var v, regs := block.items[i].value, cb.registrations.At(block.items[i].ks);
            exists j :: 0 <= j < |regs| && regs[j].key == cb.items[i].key && regs[j].value == v
  {
    var kept := PassesResolve(retention, db, block);
    var (items, ctx) := Passes(retention, db, block).value;
    var item := block.items[i];
    var c, regs := ctx.At(item.ks), cb.registrations.At(item.ks);
    assert ItemResolves(retention, block.time, db.tables, kept, ctx, item, items[i]);
    assert IsDrain(regs, c.changes);
    var j := DrainHasKey(regs, c.changes, items[i].key);
    DrainLists(regs, c.changes, j);
  }

  // Every indexed value of the block has a key with a timestamp that is not in the future.
  ghost predicate AllStamped(db: Db, block: Block)
  {
    forall i :: 0 <= i < |block.items| && block.items[i].value != DefaultOf(block.items[i].ks) ==>
      var t, v := db.tables.At(block.items[i].ks), block.items[i].value;
      v in t.index ==> t.index[v] in t.times && t.times[t.index[v]] <= block.time
  }

  // This is exactly what compression needs.
  lemma PassesSucceedIff(retention: nat, db: Db, block: Block)
    requires Fits(block.items)
    ensures Passes(retention, db, block).Ok? <==> AllStamped(db, block)
  {
    PrepareKeepsAccessibleKeys(retention, block.time, db.tables, block.items);
    ReadableIsStamped(retention, db, block);
    if AllStamped(db, block) {
      var kept := PrepareItems(retention, block.time, db.tables, block.items).value;
      CompressItemsResolve(retention, block.time, db.tables, kept, db.latest, block.items, block.items);
    }
  }

  lemma ReadableIsStamped(retention: nat, db: Db, block: Block)
    ensures AllReadable(retention, block.time, db.tables, block.items) <==> AllStamped(db, block)
  {
    var items := block.items;
    forall i | 0 <= i < |items| && items[i].value != DefaultOf(items[i].ks)
      ensures items[i].value in ValuesIn(items, items[i].ks)
    {
    }
    if AllStamped(db, block) {
      forall ks: Keyspace, v | v in ValuesIn(items, ks)
        ensures FindAccessible(retention, block.time, db.tables.At(ks), v).Ok?
      {
        var i :| 0 <= i < |items| && items[i].ks == ks && !IsDefault(items[i]) && items[i].value == v;
      }
    } else {
      var i :| 0 <= i < |items| && items[i].value != DefaultOf(items[i].ks)
               && var t, v := db.tables.At(items[i].ks), items[i].value;
               v in t.index && !(t.index[v] in t.times && t.times[t.index[v]] <= block.time);
      assert FindAccessible(retention, block.time, db.tables.At(items[i].ks), items[i].value).Err?;
    }
  }
}
