/**
 A chain after which a registered value that is still accessible is missing from the reverse
 index: its first entry has expired, and the key of that entry is reused.
 */
module IndexLoss {
  import opened Wrappers
  import opened RegistryKeys
  import opened EvictionPolicy
  import opened TemporalRegistry
  import opened CompressionSpec
  import opened Chain

  const TWICE: Value := [1]
  const ONCE: Value := [2]

  // After the first registration has expired.
  function Expired(retention: nat): (r: Time)
  {
    retention + 1
  }

  // Blocks that skip the keys behind the second registration.
  const SKIPPED: nat := DEFAULT_VALUE - 2

  // The value twice, blocks without values until the cursor has come round, and another value.
  function BlockAt(retention: nat, i: nat): (r: Block)
  {
    if i == 0 then Block(0, [Item(ScriptCode, TWICE)])
    else if i == 1 then Block(Expired(retention), [Item(ScriptCode, TWICE)])
    else if i < 2 + SKIPPED then Block(Expired(retention), [])
    else Block(Expired(retention), [Item(ScriptCode, ONCE)])
  }

  function LossBlocks(retention: nat): (r: seq<Block>)
    ensures |r| == SKIPPED + 3
    ensures forall i :: 0 <= i < |r| ==> r[i] == BlockAt(retention, i)
  {
    seq(SKIPPED + 3, i requires 0 <= i < SKIPPED + 3 => BlockAt(retention, i))
  }

  lemma LossBlocksAreValid(retention: nat)
    ensures ValidChain(LossBlocks(retention))
  {
    forall i | 0 <= i < SKIPPED + 3 ensures Fits(BlockAt(retention, i).items) {
      FewItemsFit(BlockAt(retention, i).items);
    }
  }

  lemma FewItemsFit(items: seq<Item>)
    requires |items| <= 1
    ensures Fits(items)
  {
    forall ks: Keyspace ensures |ValuesIn(items, ks)| <= DEFAULT_VALUE {
      SubsetIsSmaller(ValuesIn(items, ks), if items == [] then {} else {items[0].value});
    }
  }

  // A block without values changes no table and skips a key.
  lemma EmptyBlockSkips(retention: nat, db: Db, time: Time, cb: CompressedBlock, db': Db)
    requires IsCompression(retention, db, Block(time, []), cb, db')
    ensures db'.tables.scriptCode == db.tables.scriptCode
    ensures db'.latest.scriptCode == Some(Restored(db.latest.scriptCode))
  {
    var ctx := Passes(retention, db, Block(time, [])).value.1;
    assert ctx.At(ScriptCode) == InitialCtx({}, db.latest.At(ScriptCode));
    assert IsDrain(cb.registrations.At(ScriptCode), ctx.At(ScriptCode).changes);
    assert db'.tables.At(ScriptCode) == WrittenAll(db.tables.At(ScriptCode), [], time);
    assert db'.latest.At(ScriptCode) == Some(ctx.At(ScriptCode).evictor.next);
  }

  function TableOfTwice(retention: nat): (r: Table)
  {
    Written(Written(EMPTY_TABLE, 0, TWICE, 0), 1, TWICE, Expired(retention))
  }

  lemma AfterTwo(retention: nat, dbs: seq<Db>, cbs: seq<CompressedBlock>)
    requires IsCompressedChain(retention, dbs, LossBlocks(retention), cbs) && dbs[0] == EMPTY_DB
    ensures dbs[2].tables.scriptCode == TableOfTwice(retention) && dbs[2].latest.scriptCode == Some(1)
  {
    var blocks := LossBlocks(retention);
    assert IsCompression(retention, dbs[0], blocks[0], cbs[0], dbs[1]);
    assert IsCompression(retention, dbs[1], blocks[1], cbs[1], dbs[2]);
    NewValueIsRegistered(retention, dbs[0], 0, TWICE, cbs[0], dbs[1]);
    NewValueIsRegistered(retention, dbs[1], Expired(retention), TWICE, cbs[1], dbs[2]);
  }

  lemma {:induction false} AfterSkipping(retention: nat, dbs: seq<Db>, cbs: seq<CompressedBlock>, n: nat)
    requires IsCompressedChain(retention, dbs, LossBlocks(retention), cbs) && dbs[0] == EMPTY_DB
    requires n <= SKIPPED
    ensures dbs[2 + n].tables.scriptCode == TableOfTwice(retention) && dbs[2 + n].latest.scriptCode == Some(1 + n)
    decreases n
  {
    if n == 0 {
      AfterTwo(retention, dbs, cbs);
    } else {
      AfterSkipping(retention, dbs, cbs, n - 1);
      var i := 1 + n;
      assert IsCompression(retention, dbs[i], LossBlocks(retention)[i], cbs[i], dbs[i + 1]);
      EmptyBlockSkips(retention, dbs[i], Expired(retention), cbs[i], dbs[i + 1]);
    }
  }

  // However the chain is compressed, key 1 holds the value and is accessible at the end, but the
  // index does not know the value any more.
  lemma LiveValueIsLost(retention: nat, dbs: seq<Db>, cbs: seq<CompressedBlock>)
    requires IsCompressedChain(retention, dbs, LossBlocks(retention), cbs) && dbs[0] == EMPTY_DB
    ensures var t := dbs[|LossBlocks(retention)|].tables.scriptCode;
            && 1 in t.values && t.values[1] == TWICE && TWICE !in t.index
            && 1 in t.times && IsTimestampAccessible(retention, Expired(retention), t.times[1]) == Ok(true)
  {
    AfterSkipping(retention, dbs, cbs, SKIPPED);
    var i := 2 + SKIPPED;
    assert IsCompression(retention, dbs[i], LossBlocks(retention)[i], cbs[i], dbs[i + 1]);
    NewValueIsRegistered(retention, dbs[i], Expired(retention), ONCE, cbs[i], dbs[i + 1]);
    LiveEntryCanLeaveTheIndex(TWICE, ONCE, 0, Expired(retention), Expired(retention));
  }

  // There is such a chain for every retention.
  lemma ChainLosesLiveValue(retention: nat) returns (dbs: seq<Db>, blocks: seq<Block>, cbs: seq<CompressedBlock>)
    ensures IsCompressedChain(retention, dbs, blocks, cbs) && ValidChain(blocks) && dbs[0] == EMPTY_DB && blocks != []
    ensures var t, now := dbs[|blocks|].tables.scriptCode, blocks[|blocks| - 1].time;
            exists k :: k in t.values && t.values[k] !in t.index
                        && k in t.times && IsTimestampAccessible(retention, now, t.times[k]) == Ok(true)
  {
    LossBlocksAreValid(retention);
    blocks := LossBlocks(retention);
    dbs, cbs := ChainCompresses(retention, blocks);
    LiveValueIsLost(retention, dbs, cbs);
    var t := dbs[|blocks|].tables.scriptCode;
    assert 1 in t.values && t.values[1] !in t.index;
  }
}
