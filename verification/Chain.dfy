/**
 Compression and decompression of a whole chain: the decompressor replays the registrations
 of each block and resolves its keys.
 */
module Chain {
  import opened Wrappers
  import opened RegistryKeys
  import opened EvictionPolicy
  import opened TemporalRegistry
  import opened CompressionSpec

  /* ---------- decompressing a block ---------- */

  function DecompressItem(retention: nat, now: Time, tables: Registry, c: CompressedItem): (r: Result<Item, Error>)
  {
    if c.key == DEFAULT_VALUE then Ok(Item(c.ks, DefaultOf(c.ks)))
    else
      var t := tables.At(c.ks);
      if c.key !in t.times then Err(TimestampNotFound)
      else
        var accessible :- IsTimestampAccessible(retention, now, t.times[c.key]);
        if !accessible then Err(TimestampNotAccessible)
        else if c.key !in t.values then Err(ValueNotFound)
        else Ok(Item(c.ks, t.values[c.key]))
  }

  function DecompressItems(retention: nat, now: Time, tables: Registry, cs: seq<CompressedItem>)
    : (r: Result<seq<Item>, Error>)
  {
    if cs == [] then Ok([])
    else
      var init :- DecompressItems(retention, now, tables, cs[..|cs| - 1]);
      var last :- DecompressItem(retention, now, tables, cs[|cs| - 1]);
      Ok(init + [last])
  }

  // `tables` is the registry before the block; its registrations are written first.
  function DecompressBlock(retention: nat, tables: Registry, cb: CompressedBlock): (r: Result<Block, Error>)
  {
    var items :- DecompressItems(retention, cb.time, Replayed(tables, cb.registrations, cb.time), cb.items);
    Ok(Block(cb.time, items))
  }

  lemma {:induction false} DecompressItemsPointwise(retention: nat, now: Time, tables: Registry,
                                                    cs: seq<CompressedItem>, items: seq<Item>)
    requires |cs| == |items|
    requires forall i :: 0 <= i < |cs| ==> DecompressItem(retention, now, tables, cs[i]) == Ok(items[i])
    ensures DecompressItems(retention, now, tables, cs) == Ok(items)
    decreases |cs|
  {
    if cs != [] {
      DecompressItemsPointwise(retention, now, tables, cs[..|cs| - 1], items[..|cs| - 1]);
      assert items == items[..|cs| - 1] + [items[|cs| - 1]];
    }
  }

  // A key that decompresses: the default key, or one that holds a value and was stamped no longer
  // than the retention ago.
  predicate Readable(retention: nat, now: Time, t: Table, key: AnyKey)
  {
    || key == DEFAULT_VALUE
    || (key in t.values && key in t.times && t.times[key] <= now && now - t.times[key] <= retention)
  }

  lemma DecompressItemIff(retention: nat, now: Time, tables: Registry, c: CompressedItem)
    ensures DecompressItem(retention, now, tables, c).Ok? <==> Readable(retention, now, tables.At(c.ks), c.key)
    ensures DecompressItem(retention, now, tables, c).Ok? ==>
              DecompressItem(retention, now, tables, c).value
              == Item(c.ks, if c.key == DEFAULT_VALUE then DefaultOf(c.ks) else tables.At(c.ks).values[c.key])
  {
  }

  // A block decompresses exactly when all its keys do, over the registry after its registrations.
  lemma {:induction false} DecompressItemsIff(retention: nat, now: Time, tables: Registry, cs: seq<CompressedItem>)
    ensures var r := DecompressItems(retention, now, tables, cs);
            && (r.Ok? <==> forall i :: 0 <= i < |cs| ==> Readable(retention, now, tables.At(cs[i].ks), cs[i].key))
            && (r.Ok? ==> |r.value| == |cs| && forall i :: 0 <= i < |cs| ==>
                  r.value[i] == Item(cs[i].ks, if cs[i].key == DEFAULT_VALUE then DefaultOf(cs[i].ks)
                                               else tables.At(cs[i].ks).values[cs[i].key]))
    decreases |cs|
  {
    if cs != [] {
      var init, last := cs[..|cs| - 1], cs[|cs| - 1];
      DecompressItemsIff(retention, now, tables, init);
      DecompressItemIff(retention, now, tables, last);
      assert forall i :: 0 <= i < |init| ==> init[i] == cs[i];
    }
  }

  lemma DecompressBlockIff(retention: nat, tables: Registry, cb: CompressedBlock)
    ensures var after := Replayed(tables, cb.registrations, cb.time);
            DecompressBlock(retention, tables, cb).Ok? <==>
            forall i :: 0 <= i < |cb.items| ==>
              Readable(retention, cb.time, after.At(cb.items[i].ks), cb.items[i].key)
  {
    DecompressItemsIff(retention, cb.time, Replayed(tables, cb.registrations, cb.time), cb.items);
  }

  // A new registration reads back as written, a reused key reads back as before.
  lemma ResolvedReadsBack(rc: nat, rd: nat, now: Time, t: Table, kept: set<Key>, c: Ctx, regs: seq<Registration>,
                          k: Key, v: Value)
    requires rc <= rd && Sound(t)
    requires CtxInv(rc, now, t, kept, c) && IsDrain(regs, c.changes)
    requires Resolves(rc, now, t, kept, c.changes, k, v)
    ensures var t' := WrittenAll(t, regs, now);
            && k in t'.times && k in t'.values && t'.values[k] == v
            && IsTimestampAccessible(rd, now, t'.times[k]) == Ok(true)
  {
    WrittenAllIsUpdate(t, regs, c.changes, now);
  }

  // Decompressing what was compressed gives the block back.
  lemma BlockRoundTrip(rc: nat, rd: nat, db: Db, block: Block, cb: CompressedBlock, db': Db)
    requires rc <= rd && Healthy(db.tables, block.time) && Fits(block.items)
    requires IsCompression(rc, db, block, cb, db')
    ensures DecompressBlock(rd, db.tables, cb) == Ok(block)
  {
    var kept := PassesResolve(rc, db, block);
    var (items, ctx) := Passes(rc, db, block).value;
    var tables' := Replayed(db.tables, cb.registrations, cb.time);
    forall i | 0 <= i < |items| ensures DecompressItem(rd, cb.time, tables', items[i]) == Ok(block.items[i]) {
      var item, ks := block.items[i], block.items[i].ks;
      assert ItemResolves(rc, block.time, db.tables, kept, ctx, item, items[i]);
      if !IsDefault(item) {
        assert Sound(db.tables.At(ks)) && IsDrain(cb.registrations.At(ks), ctx.At(ks).changes);
        ResolvedReadsBack(rc, rd, block.time, db.tables.At(ks), kept.At(ks), ctx.At(ks), cb.registrations.At(ks),
                          items[i].key, item.value);
      }
    }
    DecompressItemsPointwise(rd, cb.time, tables', items, block.items);
  }

  /* ---------- whole chains ---------- */

  // `cbs` results from compressing `blocks` in order, `dbs` are the databases in between.
  ghost predicate IsCompressedChain(retention: nat, dbs: seq<Db>, blocks: seq<Block>, cbs: seq<CompressedBlock>)
  {
    && |dbs| == |blocks| + 1 && |cbs| == |blocks|
    && forall i :: 0 <= i < |blocks| ==> IsCompression(retention, dbs[i], blocks[i], cbs[i], dbs[i + 1])
  }

  // Block times do not decrease, and no block needs more keys than there are.
  ghost predicate ValidChain(blocks: seq<Block>)
  {
    && (forall i, j :: 0 <= i < j < |blocks| ==> blocks[i].time <= blocks[j].time)
    && (forall i :: 0 <= i < |blocks| ==> Fits(blocks[i].items))
  }

  // The decompressor's registry after some blocks: it depends on the compressed blocks only.
  function TablesAfter(tables: Registry, cbs: seq<CompressedBlock>): (r: Registry)
  {
    if cbs == [] then tables
    else
      var last := cbs[|cbs| - 1];
      Replayed(TablesAfter(tables, cbs[..|cbs| - 1]), last.registrations, last.time)
  }

  function DecompressChain(retention: nat, tables: Registry, cbs: seq<CompressedBlock>): (r: Result<seq<Block>, Error>)
  {
    if cbs == [] then Ok([])
    else
      var init := cbs[..|cbs| - 1];
      var blocks :- DecompressChain(retention, tables, init);
      var last :- DecompressBlock(retention, TablesAfter(tables, init), cbs[|cbs| - 1]);
      Ok(blocks + [last])
  }

  lemma ChainInit(retention: nat, dbs: seq<Db>, blocks: seq<Block>, cbs: seq<CompressedBlock>)
    requires blocks != [] && IsCompressedChain(retention, dbs, blocks, cbs) && ValidChain(blocks)
    ensures IsCompressedChain(retention, dbs[..|blocks|], blocks[..|blocks| - 1], cbs[..|blocks| - 1])
    ensures ValidChain(blocks[..|blocks| - 1])
  {
  }

  // Event sourcing: after every block the compressor's registry is the one that the
  // decompressor rebuilds from the compressed blocks alone, and it is healthy.
  lemma {:induction false} Replication(retention: nat, dbs: seq<Db>, blocks: seq<Block>, cbs: seq<CompressedBlock>,
                                       now: Time)
    requires IsCompressedChain(retention, dbs, blocks, cbs) && ValidChain(blocks)
    requires dbs[0] == EMPTY_DB
    requires forall i :: 0 <= i < |blocks| ==> blocks[i].time <= now
    ensures dbs[|blocks|].tables == TablesAfter(All(EMPTY_TABLE), cbs)
    ensures Healthy(dbs[|blocks|].tables, now)
    decreases |blocks|
  {
    if blocks == [] {
      forall ks: Keyspace ensures Sound(dbs[0].tables.At(ks)) && StampedBy(dbs[0].tables.At(ks), now) {
        assert dbs[0].tables.At(ks) == EMPTY_TABLE;
      }
    } else {
      var n := |blocks| - 1;
      ChainInit(retention, dbs, blocks, cbs);
      Replication(retention, dbs[..n + 1], blocks[..n], cbs[..n], blocks[n].time);
      assert IsCompression(retention, dbs[n], blocks[n], cbs[n], dbs[n + 1]);
      ReplayKeepsHealthy(dbs[n].tables, cbs[n].registrations, blocks[n].time);
      HealthyLater(dbs[n + 1].tables, blocks[n].time, now);
    }
  }

  lemma HealthyLater(tables: Registry, before: Time, now: Time)
    requires Healthy(tables, before) && before <= now
    ensures Healthy(tables, now)
  {
    forall ks: Keyspace ensures Sound(tables.At(ks)) && StampedBy(tables.At(ks), now) {
      assert Sound(tables.At(ks)) && StampedBy(tables.At(ks), before);
    }
  }

  // The round trip over a whole chain, through any amount of eviction, expiry and
  // re-registration.
  lemma {:induction false} ChainRoundTrip(rc: nat, rd: nat, dbs: seq<Db>, blocks: seq<Block>, cbs: seq<CompressedBlock>)
    requires rc <= rd
    requires IsCompressedChain(rc, dbs, blocks, cbs) && ValidChain(blocks)
    requires dbs[0] == EMPTY_DB
    ensures DecompressChain(rd, All(EMPTY_TABLE), cbs) == Ok(blocks)
    decreases |blocks|
  {
    if blocks != [] {
      var n := |blocks| - 1;
      assert DecompressChain(rd, All(EMPTY_TABLE), cbs[..n]) == Ok(blocks[..n]) by {
        ChainInit(rc, dbs, blocks, cbs);
        ChainRoundTrip(rc, rd, dbs[..n + 1], blocks[..n], cbs[..n]);
      }
      LastBlockRoundTrip(rc, rd, dbs, blocks, cbs);
      assert blocks == blocks[..n] + [blocks[n]];
    }
  }

  lemma LastBlockRoundTrip(rc: nat, rd: nat, dbs: seq<Db>, blocks: seq<Block>, cbs: seq<CompressedBlock>)
    requires rc <= rd && blocks != []
    requires IsCompressedChain(rc, dbs, blocks, cbs) && ValidChain(blocks)
    requires dbs[0] == EMPTY_DB
    ensures var n := |blocks| - 1;
            DecompressBlock(rd, TablesAfter(All(EMPTY_TABLE), cbs[..n]), cbs[n]) == Ok(blocks[n])
  {
    var n := |blocks| - 1;
    ChainInit(rc, dbs, blocks, cbs);
    Replication(rc, dbs[..n + 1], blocks[..n], cbs[..n], blocks[n].time);
    BlockRoundTrip(rc, rd, dbs[n], blocks[n], cbs[n], dbs[n + 1]);
  }

  /* ---------- progress ---------- */

  lemma {:induction false} DrainExists(m: map<Key, Value>) returns (regs: seq<Registration>)
    ensures IsDrain(regs, m)
    decreases |m.Keys|
  {
    if m.Keys == {} {
      regs := [];
    } else {
      var k :| k in m.Keys;
      assert (m - {k}).Keys == m.Keys - {k};
      regs := DrainExists(m - {k});
      DrainSnoc(regs, m - {k}, k, m[k]);
      regs := regs + [Registration(k, m[k])];
      assert (m - {k})[k := m[k]] == m;
    }
  }

  lemma DrainsExist(ctx: PerKeyspace<Ctx>) returns (regs: PerKeyspace<seq<Registration>>)
    ensures forall ks: Keyspace :: IsDrain(regs.At(ks), ctx.At(ks).changes)
  {
    var a := DrainExists(ctx.address.changes);
    var b := DrainExists(ctx.assetId.changes);
    var c := DrainExists(ctx.contractId.changes);
    var d := DrainExists(ctx.scriptCode.changes);
    var e := DrainExists(ctx.predicateCode.changes);
    regs := PerKeyspace(a, b, c, d, e);
  }

  lemma CompressionExists(retention: nat, db: Db, block: Block) returns (cb: CompressedBlock, db': Db)
    requires Passes(retention, db, block).Ok?
    ensures IsCompression(retention, db, block, cb, db')
  {
    var (items, ctx) := Passes(retention, db, block).value;
    var regs := DrainsExist(ctx);
    cb := CompressedBlock(block.time, regs, items);
    db' := Db(Replayed(db.tables, regs, block.time), Cursors(ctx));
  }

  // However a chain has been compressed so far, the next valid block passes.
  lemma NextBlockCompresses(retention: nat, dbs: seq<Db>, blocks: seq<Block>, cbs: seq<CompressedBlock>, block: Block)
    requires IsCompressedChain(retention, dbs, blocks, cbs) && dbs[0] == EMPTY_DB
    requires ValidChain(blocks + [block])
    ensures Passes(retention, dbs[|blocks|], block).Ok?
  {
    var all := blocks + [block];
    forall i | 0 <= i < |blocks| ensures blocks[i].time <= block.time && Fits(blocks[i].items) {
      assert all[i] == blocks[i] && all[|blocks|] == block;
    }
    assert Fits(all[|blocks|].items);
    assert ValidChain(blocks) by {
      assert forall i :: 0 <= i < |blocks| ==> all[i] == blocks[i];
    }
    Replication(retention, dbs, blocks, cbs, block.time);
    PassesSucceed(retention, dbs[|blocks|], block);
  }

  // From an empty registry every valid chain can be compressed: no block fails with an invalid
  // timestamp ordering or a missing timestamp.
  lemma {:induction false} ChainCompresses(retention: nat, blocks: seq<Block>)
    returns (dbs: seq<Db>, cbs: seq<CompressedBlock>)
    requires ValidChain(blocks)
    ensures IsCompressedChain(retention, dbs, blocks, cbs) && dbs[0] == EMPTY_DB
    decreases |blocks|
  {
    if blocks == [] {
      dbs, cbs := [EMPTY_DB], [];
    } else {
      var n := |blocks| - 1;
      var dbs', cbs' := ChainCompresses(retention, blocks[..n]);
      Replication(retention, dbs', blocks[..n], cbs', blocks[n].time);
      PassesSucceed(retention, dbs'[n], blocks[n]);
      var cb, db := CompressionExists(retention, dbs'[n], blocks[n]);
      dbs, cbs := dbs' + [db], cbs' + [cb];
      forall i | 0 <= i < |blocks| ensures IsCompression(retention, dbs[i], blocks[i], cbs[i], dbs[i + 1]) {
        if i < n {
          assert IsCompression(retention, dbs'[i], blocks[..n][i], cbs'[i], dbs'[i + 1]);
        }
      }
    }
  }

  /* ---------- the retention of the decompressor ---------- */

  ghost predicate RoundTrips(rc: nat, rd: nat)
  {
    forall dbs, blocks, cbs :: IsCompressedChain(rc, dbs, blocks, cbs) && ValidChain(blocks) && dbs[0] == EMPTY_DB
                               ==> DecompressChain(rd, All(EMPTY_TABLE), cbs) == Ok(blocks)
  }

  const SAMPLE := Item(ScriptCode, [1])

  // A block with a single value that has no accessible key registers it under the next key.
  lemma NewValueIsRegistered(rc: nat, db: Db, time: Time, v: Value, cb: CompressedBlock, db': Db)
    requires IsCompression(rc, db, Block(time, [Item(ScriptCode, v)]), cb, db') && v != []
    requires FindAccessible(rc, time, db.tables.scriptCode, v) == Ok(None)
    ensures var k := Restored(db.latest.scriptCode);
            db'.tables.scriptCode == Written(db.tables.scriptCode, k, v, time) && db'.latest.scriptCode == Some(k)
  {
    var items, t := [Item(ScriptCode, v)], db.tables.scriptCode;
    var k := Restored(db.latest.scriptCode);
    NewValuePasses(rc, db, time, v);
    var ctx := Passes(rc, db, Block(time, items)).value.1;
    assert ctx.At(ScriptCode) == ctx.scriptCode;
    var regs := cb.registrations.At(ScriptCode);
    assert IsDrain(regs, ctx.At(ScriptCode).changes);
    SingletonDrain(regs, k, v);
    assert regs[..0] == [];
    assert WrittenAll(t, regs, time) == Written(t, k, v, time);
    assert db'.tables.At(ScriptCode) == WrittenAll(t, regs, time);
    assert db'.latest.At(ScriptCode) == Some(ctx.At(ScriptCode).evictor.next);
  }

  lemma NewValuePasses(rc: nat, db: Db, time: Time, v: Value)
    requires v != [] && FindAccessible(rc, time, db.tables.scriptCode, v) == Ok(None)
    ensures var block, k := Block(time, [Item(ScriptCode, v)]), Restored(db.latest.scriptCode);
            && Passes(rc, db, block).Ok?
            && Passes(rc, db, block).value.1.scriptCode.changes == map[k := v]
            && Passes(rc, db, block).value.1.scriptCode.evictor.next == k
  {
    var items := [Item(ScriptCode, v)];
    assert items[..0] == [];
    assert PrepareItems(rc, time, db.tables, items[..0]) == Ok(All({}));
    assert PrepareItems(rc, time, db.tables, items) == Ok(All({}));
    var ctx := InitialCtxs(All({}), db.latest);
    var c := ctx.scriptCode;
    assert c == InitialCtx({}, db.latest.scriptCode) by { assert ctx.At(ScriptCode) == c; }
    assert Assigned(c.evictor) == Evictor({c.evictor.next}, c.evictor.next);
    assert CompressItems(rc, time, db.tables, ctx, items[..0]) == Ok(([], ctx));
    var registered := Registering(c, Assigned(c.evictor), v);
    assert CompressItem(rc, time, db.tables, ctx, items[0]).value.1.scriptCode == registered;
  }

  // Compressing a single new value into an empty registry registers it under the first key.
  lemma FirstBlockRegisters(rc: nat, cb: CompressedBlock, db: Db)
    requires IsCompression(rc, EMPTY_DB, Block(0, [SAMPLE]), cb, db)
    ensures db.tables.scriptCode == Table(map[0 := [1]], map[0 := 0], map[[1] := 0])
  {
    NewValueIsRegistered(rc, EMPTY_DB, 0, [1], cb, db);
  }

  lemma SingletonDrain(regs: seq<Registration>, k: Key, v: Value)
    requires IsDrain(regs, map[k := v])
    ensures regs == [Registration(k, v)]
  {
    assert k in map[k := v];
    assert map[k := v] - {k} == map[];
    assert regs[..|regs| - 1] == [];
  }

  // A value used again after exactly the compressor's retention is not decompressed under a
  // shorter one.
  lemma ShortRetentionFails(rc: nat, rd: nat)
    requires rd < rc
    ensures !RoundTrips(rc, rd)
  {
    var blocks := [Block(0, [SAMPLE]), Block(rc, [SAMPLE])];
    SampleChainIsValid(rc);
    var dbs, cbs := ChainCompresses(rc, blocks);
    assert IsCompression(rc, dbs[0], blocks[0], cbs[0], dbs[1]);
    assert IsCompression(rc, dbs[1], blocks[1], cbs[1], dbs[2]);
    FirstBlockRegisters(rc, cbs[0], dbs[1]);
    SecondBlockReuses(rc, dbs[1], cbs[1], dbs[2]);
    SecondBlockFails(rd, rc, dbs[1], cbs[1], dbs[2]);
    OneBlockReplayed(cbs);
    LastBlockFails(rd, All(EMPTY_TABLE), cbs);
  }

  lemma SampleChainIsValid(rc: nat)
    ensures ValidChain([Block(0, [SAMPLE]), Block(rc, [SAMPLE])]) && Fits([SAMPLE])
  {
    forall ks: Keyspace ensures |ValuesIn([SAMPLE], ks)| <= DEFAULT_VALUE {
      SubsetIsSmaller(ValuesIn([SAMPLE], ks), {SAMPLE.value});
    }
  }

  lemma OneBlockReplayed(cbs: seq<CompressedBlock>)
    requires |cbs| == 2
    ensures TablesAfter(All(EMPTY_TABLE), cbs[..1]) == Replayed(All(EMPTY_TABLE), cbs[0].registrations, cbs[0].time)
  {
    assert cbs[..1][..0] == [];
  }

  lemma LastBlockFails(retention: nat, tables: Registry, cbs: seq<CompressedBlock>)
    requires cbs != []
    requires DecompressBlock(retention, TablesAfter(tables, cbs[..|cbs| - 1]), cbs[|cbs| - 1]).Err?
    ensures DecompressChain(retention, tables, cbs).Err?
  {
  }

  lemma SecondBlockReuses(rc: nat, db: Db, cb: CompressedBlock, db': Db)
    requires db.tables.scriptCode == Table(map[0 := [1]], map[0 := 0], map[[1] := 0])
    requires IsCompression(rc, db, Block(rc, [SAMPLE]), cb, db') && Fits([SAMPLE])
    ensures cb.items == [CompressedItem(ScriptCode, 0)]
    ensures db'.tables == Replayed(db.tables, cb.registrations, rc)
    ensures 0 in db'.tables.scriptCode.times && db'.tables.scriptCode.times[0] == 0
  {
    var block := Block(rc, [SAMPLE]);
    ReusedKeysSurvive(rc, db, block, cb, db', 0);
    assert cb.items[0].ks == ScriptCode by {
      var kept := PassesResolve(rc, db, block);
      assert ItemResolves(rc, rc, db.tables, kept, Passes(rc, db, block).value.1, block.items[0], cb.items[0]);
    }
    assert cb.registrations.scriptCode == cb.registrations.At(ScriptCode);
    UntouchedKeepsTime(db.tables.scriptCode, cb.registrations.scriptCode, rc, 0);
  }

  lemma SecondBlockFails(rd: nat, rc: nat, db: Db, cb: CompressedBlock, db': Db)
    requires rd < rc && cb.time == rc
    requires cb.items == [CompressedItem(ScriptCode, 0)]
    requires db'.tables == Replayed(db.tables, cb.registrations, rc)
    requires 0 in db'.tables.scriptCode.times && db'.tables.scriptCode.times[0] == 0
    ensures DecompressBlock(rd, db.tables, cb).Err?
  {
    assert cb.items[..0] == [];
    assert DecompressItem(rd, rc, db'.tables, cb.items[0]).Err?;
  }

  lemma {:induction false} UntouchedKeepsTime(t: Table, regs: seq<Registration>, time: Time, k: Key)
    requires k in t.times
    requires forall i :: 0 <= i < |regs| ==> regs[i].key != k
    ensures k in WrittenAll(t, regs, time).times && WrittenAll(t, regs, time).times[k] == t.times[k]
    decreases |regs|
  {
    if regs != [] {
      UntouchedKeepsTime(t, regs[..|regs| - 1], time, k);
    }
  }

  // Every chain round-trips exactly when the decompressor retains entries at least as long as
  // the compressor.
  lemma RoundTripsIff(rc: nat, rd: nat)
    ensures RoundTrips(rc, rd) <==> rc <= rd
  {
    if rc <= rd {
      forall dbs, blocks, cbs | IsCompressedChain(rc, dbs, blocks, cbs) && ValidChain(blocks) && dbs[0] == EMPTY_DB
        ensures DecompressChain(rd, All(EMPTY_TABLE), cbs) == Ok(blocks)
      {
        ChainRoundTrip(rc, rd, dbs, blocks, cbs);
      }
    } else {
      ShortRetentionFails(rc, rd);
    }
  }
}
