/**
 Eviction over a whole compressed chain: the evictor of a keyspace goes round all keys before
 it takes one again, whatever the blocks keep and register in between.
 */
module ChainEviction {
  import opened Wrappers
  import opened RegistryKeys
  import opened EvictionPolicy
  import opened TemporalRegistry
  import opened CompressionSpec
  import opened Chain

  /* ---------- the cursor passes over kept keys only ---------- */

  lemma {:induction false} ArcHolds(k: Key, n: nat, i: nat)
    requires i < n
    ensures Advance(k, i) in Arc(k, n)
    decreases n
  {
    if i < n - 1 {
      ArcHolds(k, n - 1, i);
    }
  }

  // At every position of a block that assigns keys, the cursor stands on a key that the block
  // keeps or assigns.
  lemma {:induction false} CallsVisit(e: Evictor, at: nat, calls: nat, p: nat)
    requires 0 < calls && |e.keep| + calls <= DEFAULT_VALUE && e.next == Advance(ZERO, at)
    requires at <= p <= Calls(e, at, calls).at
    ensures Advance(ZERO, p) in Calls(e, at, calls).evictor.keep
    decreases calls
  {
    var t := Calls(e, at, calls - 1);
    CallsAdvance(e, at, calls - 1);
    CallsAreFresh(e, at, calls - 1);
    if p < t.at && calls > 1 {
      CallsVisit(e, at, calls - 1, p);
      AssignIsFresh(t.evictor);
    } else {
      ScanVisits(t.evictor, t.at, p);
    }
  }

  lemma ScanVisits(e: Evictor, at: nat, p: nat)
    requires |e.keep| < DEFAULT_VALUE && e.next == Advance(ZERO, at)
    requires at <= p <= at + Travel(e.keep, e.next)
    ensures Advance(ZERO, p) in Assigned(e).keep
  {
    AdvanceAdds(ZERO, at, p - at);
    FirstFreeIsFree(e.keep, e.next);
    if p < at + Travel(e.keep, e.next) {
      ArcHolds(e.next, Travel(e.keep, e.next), p - at);
    }
  }

  // If nothing is assigned, there is only one position.
  lemma CallsVisited(e: Evictor, at: nat, calls: nat, p: nat)
    requires |e.keep| + calls <= DEFAULT_VALUE && e.next == Advance(ZERO, at)
    requires at <= p <= Calls(e, at, calls).at
    ensures var t := Calls(e, at, calls);
            if calls == 0 then t.evictor.next == Advance(ZERO, p) else Advance(ZERO, p) in e.keep + KeysOf(t.issued)
  {
    if calls > 0 {
      CallsVisit(e, at, calls, p);
      CallsAreFresh(e, at, calls);
    }
  }

  lemma StartStands(c: Cursor)
    requires Standing(c)
    ensures Restored(c.latest) == Advance(ZERO, Start(c))
  {
  }

  lemma BlockRunVisits(c: Cursor, s: Session, p: nat)
    requires Standing(c) && Feasible(s)
    requires Start(c) <= p <= BlockRun(c, s).1.at
    ensures var (r, c') := BlockRun(c, s);
            if s.calls == 0 then c'.latest == Some(Advance(ZERO, p)) else Advance(ZERO, p) in s.keep + KeysOf(r)
  {
    StartStands(c);
    CallsVisited(Evictor(s.keep, Restored(c.latest)), Start(c), s.calls, p);
  }

  /* ---------- a block as a session of the evictor ---------- */

  lemma KeysAreFew(keep: set<Key>)
    ensures |keep| <= DEFAULT_VALUE
  {
    SubsetIsSmaller(keep, KeysBelow(DEFAULT_VALUE));
  }

  // What a keyspace has gone through since the start of the pass is a run of `next_key` calls.
  ghost predicate IsSession(e: Evictor, at: nat, c: Ctx)
  {
    CallsLead(e, at, |c.changes.Keys|, c.evictor, c.changes.Keys)
  }

  // `calls` calls lead to the evictor `last` and assign `keys`.
  ghost predicate CallsLead(e: Evictor, at: nat, calls: nat, last: Evictor, keys: set<Key>)
  {
    var t := Calls(e, at, calls);
    t.evictor == last && KeysOf(t.issued) == keys
  }

  lemma CallAddsKey(t: Trace)
    ensures KeysOf(Call(t).issued) == KeysOf(t.issued) + {Call(t).evictor.next}
  {
    KeysOfSnoc(t.issued, Call(t).issued[|t.issued|]);
  }

  lemma OneMoreCall(e: Evictor, at: nat, calls: nat, last: Evictor, keys: set<Key>, calls': nat, last': Evictor,
                    keys': set<Key>)
    requires CallsLead(e, at, calls, last, keys)
    requires calls' == calls + 1 && last' == Assigned(last) && keys' == keys + {last'.next}
    ensures CallsLead(e, at, calls', last', keys')
  {
    CallAddsKey(Calls(e, at, calls));
  }

  lemma NewKeyCounts(m: map<Key, Value>, k: Key, v: Value)
    requires k !in m
    ensures m[k := v].Keys == m.Keys + {k} && |m[k := v].Keys| == |m.Keys| + 1
  {
    assert m[k := v].Keys == m.Keys + {k};
  }

  lemma RegisteringExtendsSession(e: Evictor, at: nat, c: Ctx, last: Evictor, v: Value)
    requires IsSession(e, at, c) && last == Assigned(c.evictor) && last.next !in c.changes
    ensures IsSession(e, at, Registering(c, last, v))
  {
    var keys := c.changes[last.next := v].Keys;
    NewKeyCounts(c.changes, last.next, v);
    OneMoreCall(e, at, |c.changes.Keys|, c.evictor, c.changes.Keys, |keys|, last, keys);
  }

  lemma CompressValueExtendsSession(retention: nat, now: Time, t: Table, c: Ctx, v: Value, found: Option<Key>,
                                    e: Evictor, at: nat)
    requires FindAccessible(retention, now, t, v) == Ok(found) && (found.None? ==> RoomFor(c, v))
    requires c.changes.Keys <= c.evictor.keep && IsSession(e, at, c)
    ensures CompressValue(retention, now, t, c, v).Ok?
    ensures IsSession(e, at, CompressValue(retention, now, t, c, v).value.1)
  {
    if v !in c.lookup && found.None? {
      FirstFreeIsFree(c.evictor.keep, c.evictor.next);
      RegisteringExtendsSession(e, at, c, Assigned(c.evictor), v);
    }
  }

  lemma CompressItemExtendsSession(retention: nat, now: Time, tables: Registry, kept: PerKeyspace<set<Key>>,
                                   items: seq<Item>, ctx: PerKeyspace<Ctx>, item: Item, ks: Keyspace, e: Evictor,
                                   at: nat)
    requires AllReadable(retention, now, tables, items) && Prepared(retention, now, tables, items, kept) && Fits(items)
    requires PassInv(retention, now, tables, kept, items, ctx) && item in items
    requires IsSession(e, at, ctx.At(ks))
    requires CompressItem(retention, now, tables, ctx, item).Ok?
    ensures IsSession(e, at, CompressItem(retention, now, tables, ctx, item).value.1.At(ks))
  {
    if !IsDefault(item) && item.ks == ks {
      assert item.value in ValuesIn(items, ks);
      var found := FindAccessible(retention, now, tables.At(ks), item.value).value;
      FoundOrRoom(retention, now, tables, kept, items, ctx, item, found);
      assert CtxInv(retention, now, tables.At(ks), kept.At(ks), ctx.At(ks));
      CompressValueExtendsSession(retention, now, tables.At(ks), ctx.At(ks), item.value, found, e, at);
    }
  }

  lemma {:induction false} PassIsSession(retention: nat, now: Time, tables: Registry, kept: PerKeyspace<set<Key>>,
                                         latest: PerKeyspace<Option<Key>>, all: seq<Item>, items: seq<Item>,
                                         ks: Keyspace, at: nat)
    requires AllReadable(retention, now, tables, all) && Prepared(retention, now, tables, all, kept) && Fits(all)
    requires items <= all
    ensures var r := CompressItems(retention, now, tables, InitialCtxs(kept, latest), items);
            r.Ok? && IsSession(Evictor(kept.At(ks), Restored(latest.At(ks))), at, r.value.1.At(ks))
    decreases |items|
  {
    var e := Evictor(kept.At(ks), Restored(latest.At(ks)));
    CompressItemsResolve(retention, now, tables, kept, latest, all, items);
    if items == [] {
      assert InitialCtxs(kept, latest).At(ks) == Ctx(e, map[], map[]);
      assert Calls(e, at, 0) == Trace([], e, at);
    } else {
      var init, last := items[..|items| - 1], items[|items| - 1];
      CompressItemsResolve(retention, now, tables, kept, latest, all, init);
      PassIsSession(retention, now, tables, kept, latest, all, init, ks, at);
      var ctx := CompressItems(retention, now, tables, InitialCtxs(kept, latest), init).value.1;
      assert last in all by { assert all[|items| - 1] == last; }
      CompressItemExtendsSession(retention, now, tables, kept, all, ctx, last, ks, e, at);
    }
  }

  ghost function KeptIn(retention: nat, db: Db, block: Block, ks: Keyspace): (r: set<Key>)
    requires Passes(retention, db, block).Ok?
  {
    PrepareItems(retention, block.time, db.tables, block.items).value.At(ks)
  }

  ghost function CtxAfter(retention: nat, db: Db, block: Block, ks: Keyspace): (r: Ctx)
    requires Passes(retention, db, block).Ok?
  {
    Passes(retention, db, block).value.1.At(ks)
  }

  ghost function SessionOf(retention: nat, db: Db, block: Block, ks: Keyspace): (r: Session)
    requires Passes(retention, db, block).Ok?
  {
    Session(KeptIn(retention, db, block, ks), |CtxAfter(retention, db, block, ks).changes.Keys|)
  }

  // A block uses the evictor as one session: the keys it registers are those assigned, and the
  // session asks for no more keys than there are.
  lemma BlockIsSession(retention: nat, db: Db, block: Block, ks: Keyspace, at: nat)
    requires Passes(retention, db, block).Ok? && Fits(block.items)
    ensures Feasible(SessionOf(retention, db, block, ks))
    ensures var s, c := SessionOf(retention, db, block, ks), CtxAfter(retention, db, block, ks);
            && IsSession(Evictor(s.keep, Restored(db.latest.At(ks))), at, c)
            && c.evictor.keep == s.keep + c.changes.Keys
  {
    var now, items := block.time, block.items;
    PrepareKeepsAccessibleKeys(retention, now, db.tables, items);
    var kept := PrepareItems(retention, now, db.tables, items).value;
    CompressItemsResolve(retention, now, db.tables, kept, db.latest, items, items);
    PassIsSession(retention, now, db.tables, kept, db.latest, items, items, ks, at);
    var c := CtxAfter(retention, db, block, ks);
    assert CtxInv(retention, now, db.tables.At(ks), kept.At(ks), c);
    KeysAreFew(c.evictor.keep);
  }

  // The same in terms of the persisted cursor.
  lemma BlockRunsSession(retention: nat, db: Db, block: Block, cb: CompressedBlock, db': Db, ks: Keyspace, c: Cursor)
    requires IsCompression(retention, db, block, cb, db') && Fits(block.items)
    requires c.latest == db.latest.At(ks)
    ensures var s := SessionOf(retention, db, block, ks);
            && Feasible(s)
            && BlockRun(c, s).1.latest == db'.latest.At(ks)
            && KeysOf(BlockRun(c, s).0) == CtxAfter(retention, db, block, ks).changes.Keys
  {
    BlockIsSession(retention, db, block, ks, Start(c));
    assert db'.latest.At(ks) == Some(CtxAfter(retention, db, block, ks).evictor.next);
  }

  /* ---------- what the cursor passes ---------- */

  // The positions of the cursor during a block, from `from` to before `to`; the keys the block
  // registers and the keys it accounts for.
  datatype Passage = Passage(from: nat, to: nat, registered: set<Key>, visited: set<Key>)

  // Registered keys lie at positions of the block, and every position is accounted for.
  ghost predicate SoundPassage(p: Passage)
  {
    && p.from < p.to
    && (forall k :: k in p.registered ==> exists at: nat :: p.from <= at < p.to && Advance(ZERO, at) == k)
    && (forall at: nat :: p.from <= at < p.to ==> Advance(ZERO, at) in p.visited)
  }

  // The blocks follow each other without a gap.
  ghost predicate Tiling(ps: seq<Passage>)
  {
    && (forall i :: 0 <= i < |ps| ==> SoundPassage(ps[i]))
    && (forall i, j :: 0 <= i && j == i + 1 < |ps| ==> ps[i].to == ps[j].from)
  }

  lemma {:induction false} Later(ps: seq<Passage>, i: nat, j: nat)
    requires Tiling(ps) && i < j < |ps|
    ensures ps[i].to <= ps[j].from
    decreases j
  {
    if i + 1 < j {
      Later(ps, i, j - 1);
      assert SoundPassage(ps[j - 1]);
    }
    assert ps[j - 1].to == ps[j].from;
  }

  // Between the positions of a key in two blocks the cursor makes a full round.
  lemma FullRound(ps: seq<Passage>, i: nat, j: nat, a: nat, b: nat)
    requires Tiling(ps) && i < j < |ps| && ps[i].from <= a < ps[i].to && ps[j].from <= b < ps[j].to
    requires Advance(ZERO, a) == Advance(ZERO, b)
    ensures a + DEFAULT_VALUE <= b
  {
    Later(ps, i, j);
    SameKeyNeedsFullRound(ZERO, a, b);
  }

  lemma PositionOf(p: Passage, k: Key) returns (at: nat)
    requires SoundPassage(p) && k in p.registered
    ensures p.from <= at < p.to && Advance(ZERO, at) == k
  {
    at :| p.from <= at < p.to && Advance(ZERO, at) == k;
  }

  lemma {:induction false} PassageOfPosition(ps: seq<Passage>, i: nat, j: nat, at: nat) returns (m: nat)
    requires Tiling(ps) && i <= j < |ps| && ps[i].from <= at < ps[j].to
    ensures i <= m <= j && ps[m].from <= at < ps[m].to
    decreases j
  {
    if i == j || ps[j].from <= at {
      m := j;
    } else {
      assert ps[j - 1].to == ps[j].from;
      m := PassageOfPosition(ps, i, j - 1, at);
    }
  }

  // So every key is visited in between.
  lemma RoundVisits(ps: seq<Passage>, i: nat, j: nat, k: Key, other: Key) returns (m: nat)
    requires Tiling(ps) && i < j < |ps| && k in ps[i].registered && k in ps[j].registered
    ensures i <= m <= j && other in ps[m].visited
  {
    var a := PositionOf(ps[i], k);
    var b := PositionOf(ps[j], k);
    FullRound(ps, i, j, a, b);
    var at := ComesUp(a, other);
    m := PassageOfPosition(ps, i, j, at);
    assert SoundPassage(ps[m]);
  }

  // Every key comes up within a round.
  lemma ComesUp(at: nat, k: Key) returns (p: nat)
    ensures at <= p <= at + DEFAULT_VALUE && Advance(ZERO, p) == k
  {
    var from := Advance(ZERO, at);
    var steps := if from <= k then k - from else k - from + DEFAULT_VALUE;
    AdvanceWithinRound(from, steps);
    AdvanceAdds(ZERO, at, steps);
    p := at + steps;
  }

  /* ---------- the blocks of a chain ---------- */

  // Keys that a block keeps or registers; a block that registers nothing skips a key.
  ghost function VisitedKeys(retention: nat, db: Db, block: Block, ks: Keyspace): (r: set<Key>)
    requires Passes(retention, db, block).Ok?
  {
    var c := CtxAfter(retention, db, block, ks);
    KeptIn(retention, db, block, ks) + c.changes.Keys + if c.changes.Keys == {} then {c.evictor.next} else {}
  }

  ghost function PassageOf(retention: nat, db: Db, block: Block, ks: Keyspace, c: Cursor): (r: Passage)
    requires Passes(retention, db, block).Ok?
  {
    Passage(Start(c), BlockRun(c, SessionOf(retention, db, block, ks)).1.at + 1,
            CtxAfter(retention, db, block, ks).changes.Keys, VisitedKeys(retention, db, block, ks))
  }

  lemma {:induction false} StrictlyLaterFrom(r: seq<Assignment>, at: nat, i: nat)
    requires StrictlyLater(r, at) && i < |r|
    ensures at <= r[i].at
    decreases |r|
  {
    if i > 0 {
      StrictlyLaterFrom(r[1..], r[0].at + 1, i - 1);
    }
  }

  // The evictor passes soundly: assigned keys at its positions, and nothing but kept and assigned
  // keys, or a single one.
  lemma SessionPasses(c: Cursor, s: Session)
    requires Standing(c) && Feasible(s)
    ensures var (r, c') := BlockRun(c, s);
            && Standing(c') && c'.latest.Some? && Start(c') == c'.at + 1
            && var visited := s.keep + KeysOf(r) + if s.calls == 0 then {c'.latest.value} else {};
            SoundPassage(Passage(Start(c), c'.at + 1, KeysOf(r), visited))
  {
    var (r, c') := BlockRun(c, s);
    BlockAdvances(c, s);
    StartIsReached(c, s);
    forall k | k in KeysOf(r) ensures exists at: nat :: Start(c) <= at < c'.at + 1 && Advance(ZERO, at) == k {
      var a :| a in r && a.key == k;
      var i :| 0 <= i < |r| && r[i] == a;
      StrictlyLaterFrom(r, Start(c), i);
      assert Advance(ZERO, a.at) == k;
    }
    forall at: nat | Start(c) <= at < c'.at + 1
      ensures Advance(ZERO, at) in s.keep + KeysOf(r) + if s.calls == 0 then {c'.latest.value} else {}
    {
      BlockRunVisits(c, s, at);
    }
  }

  lemma StartIsReached(c: Cursor, s: Session)
    requires Standing(c) && Feasible(s)
    ensures Start(c) <= BlockRun(c, s).1.at
  {
    StartStands(c);
    CallsAdvance(Evictor(s.keep, Restored(c.latest)), Start(c), s.calls);
  }

  lemma BlockPasses(retention: nat, db: Db, block: Block, cb: CompressedBlock, db': Db, ks: Keyspace, c: Cursor)
    requires IsCompression(retention, db, block, cb, db') && Fits(block.items)
    requires Standing(c) && c.latest == db.latest.At(ks)
    ensures var c' := BlockRun(c, SessionOf(retention, db, block, ks)).1;
            && Standing(c') && c'.latest == db'.latest.At(ks)
            && Start(c') == PassageOf(retention, db, block, ks, c).to
            && SoundPassage(PassageOf(retention, db, block, ks, c))
  {
    var s := SessionOf(retention, db, block, ks);
    BlockRunsSession(retention, db, block, cb, db', ks, c);
    SessionPasses(c, s);
    assert db'.latest.At(ks) == Some(CtxAfter(retention, db, block, ks).evictor.next);
  }

  // What is said about a compressed block by its passage.
  ghost predicate Describes(p: Passage, retention: nat, db: Db, block: Block, cb: CompressedBlock, db': Db,
                            ks: Keyspace)
  {
    && IsCompression(retention, db, block, cb, db')
    && p.registered == CtxAfter(retention, db, block, ks).changes.Keys
    && p.visited == VisitedKeys(retention, db, block, ks)
  }

  ghost predicate DescribesAll(ps: seq<Passage>, retention: nat, dbs: seq<Db>, blocks: seq<Block>,
                               cbs: seq<CompressedBlock>, ks: Keyspace)
  {
    && |ps| <= |blocks| == |cbs| && |dbs| == |blocks| + 1
    && forall i :: 0 <= i < |ps| ==> Describes(ps[i], retention, dbs[i], blocks[i], cbs[i], dbs[i + 1], ks)
  }

  // The passages of the first `n` blocks, and the cursor that the chain has persisted after them.
  ghost predicate Passed(ps: seq<Passage>, c: Cursor, retention: nat, dbs: seq<Db>, blocks: seq<Block>,
                         cbs: seq<CompressedBlock>, ks: Keyspace, n: nat)
  {
    && DescribesAll(ps, retention, dbs, blocks, cbs, ks)
    && |ps| == n && Tiling(ps)
    && Standing(c) && c.latest == dbs[n].latest.At(ks)
    && Start(c) == if n == 0 then 0 else ps[n - 1].to
  }

  // The cursor goes through the blocks of a chain without a gap, and the chain persists it.
  lemma {:induction false} ChainPasses(retention: nat, dbs: seq<Db>, blocks: seq<Block>, cbs: seq<CompressedBlock>,
                                       ks: Keyspace, n: nat)
    returns (ps: seq<Passage>, c: Cursor)
    requires IsCompressedChain(retention, dbs, blocks, cbs) && ValidChain(blocks) && dbs[0] == EMPTY_DB
    requires n <= |blocks|
    ensures Passed(ps, c, retention, dbs, blocks, cbs, ks, n)
    decreases n
  {
    if n == 0 {
      ps, c := [], Cursor(None, 0);
    } else {
      ps, c := ChainPasses(retention, dbs, blocks, cbs, ks, n - 1);
      ps, c := PassNext(ps, c, retention, dbs, blocks, cbs, ks, n - 1);
    }
  }

  lemma PassNext(ps: seq<Passage>, c: Cursor, retention: nat, dbs: seq<Db>, blocks: seq<Block>,
                 cbs: seq<CompressedBlock>, ks: Keyspace, n: nat)
    returns (ps': seq<Passage>, c': Cursor)
    requires IsCompressedChain(retention, dbs, blocks, cbs) && ValidChain(blocks) && n < |blocks|
    requires Passed(ps, c, retention, dbs, blocks, cbs, ks, n)
    ensures Passed(ps', c', retention, dbs, blocks, cbs, ks, n + 1)
  {
    var p;
    p, c' := NextPassage(retention, dbs, blocks, cbs, ks, n, c);
    TilingSnoc(ps, p);
    DescribesSnoc(ps, p, retention, dbs, blocks, cbs, ks);
    ps' := ps + [p];
  }

  lemma DescribesSnoc(ps: seq<Passage>, p: Passage, retention: nat, dbs: seq<Db>, blocks: seq<Block>,
                      cbs: seq<CompressedBlock>, ks: Keyspace)
    requires DescribesAll(ps, retention, dbs, blocks, cbs, ks) && |ps| < |blocks|
    requires Describes(p, retention, dbs[|ps|], blocks[|ps|], cbs[|ps|], dbs[|ps| + 1], ks)
    ensures DescribesAll(ps + [p], retention, dbs, blocks, cbs, ks)
  {
    var all := ps + [p];
    forall i | 0 <= i < |all| ensures Describes(all[i], retention, dbs[i], blocks[i], cbs[i], dbs[i + 1], ks) {
      if i < |ps| {
        assert Describes(ps[i], retention, dbs[i], blocks[i], cbs[i], dbs[i + 1], ks);
      }
    }
  }

  lemma NextPassage(retention: nat, dbs: seq<Db>, blocks: seq<Block>, cbs: seq<CompressedBlock>, ks: Keyspace, n: nat,
                    c: Cursor)
    returns (p: Passage, c': Cursor)
    requires IsCompressedChain(retention, dbs, blocks, cbs) && ValidChain(blocks) && n < |blocks|
    requires Standing(c) && c.latest == dbs[n].latest.At(ks)
    ensures Describes(p, retention, dbs[n], blocks[n], cbs[n], dbs[n + 1], ks) && SoundPassage(p) && p.from == Start(c)
    ensures Standing(c') && c'.latest == dbs[n + 1].latest.At(ks) && Start(c') == p.to
  {
    var db, block, cb, db' := dbs[n], blocks[n], cbs[n], dbs[n + 1];
    assert IsCompression(retention, db, block, cb, db') && Fits(block.items);
    BlockPasses(retention, db, block, cb, db', ks, c);
    c' := BlockRun(c, SessionOf(retention, db, block, ks)).1;
    p := PassageOf(retention, db, block, ks, c);
  }

  lemma TilingSnoc(ps: seq<Passage>, p: Passage)
    requires Tiling(ps) && SoundPassage(p) && (ps != [] ==> ps[|ps| - 1].to == p.from)
    ensures Tiling(ps + [p])
  {
  }

  ghost predicate Registers(cb: CompressedBlock, ks: Keyspace, k: Key)
  {
    exists i :: 0 <= i < |cb.registrations.At(ks)| && cb.registrations.At(ks)[i].key == k
  }

  lemma RegisteredInPassage(retention: nat, db: Db, block: Block, cb: CompressedBlock, db': Db, ks: Keyspace,
                            p: Passage, k: Key)
    requires Describes(p, retention, db, block, cb, db', ks) && Registers(cb, ks, k)
    ensures k in p.registered
  {
    var regs, changes := cb.registrations.At(ks), CtxAfter(retention, db, block, ks).changes;
    var i :| 0 <= i < |regs| && regs[i].key == k;
    assert IsDrain(regs, changes);
    DrainLists(regs, changes, i);
  }

  // Round-robin eviction over a chain: a key that some block registers is registered again only
  // after every key has been kept, registered or skipped by a block from the first one on.
  lemma EveryKeyIsVisited(retention: nat, dbs: seq<Db>, blocks: seq<Block>, cbs: seq<CompressedBlock>, ks: Keyspace,
                          i: nat, j: nat, k: Key, other: Key)
    returns (m: nat, p: Passage)
    requires IsCompressedChain(retention, dbs, blocks, cbs) && ValidChain(blocks) && dbs[0] == EMPTY_DB
    requires i < j < |blocks| && Registers(cbs[i], ks, k) && Registers(cbs[j], ks, k)
    ensures i <= m <= j && Describes(p, retention, dbs[m], blocks[m], cbs[m], dbs[m + 1], ks) && other in p.visited
  {
    var ps, _ := ChainPasses(retention, dbs, blocks, cbs, ks, |blocks|);
    VisitedAgain(retention, dbs, blocks, cbs, ks, ps, i, k);
    VisitedAgain(retention, dbs, blocks, cbs, ks, ps, j, k);
    m := RoundVisits(ps, i, j, k, other);
    p := ps[m];
  }

  lemma VisitedAgain(retention: nat, dbs: seq<Db>, blocks: seq<Block>, cbs: seq<CompressedBlock>, ks: Keyspace,
                     ps: seq<Passage>, i: nat, k: Key)
    requires DescribesAll(ps, retention, dbs, blocks, cbs, ks) && i < |ps| && Registers(cbs[i], ks, k)
    ensures k in ps[i].registered
  {
    RegisteredInPassage(retention, dbs[i], blocks[i], cbs[i], dbs[i + 1], ks, ps[i], k);
  }

  /* ---------- blocks that register nothing ---------- */

  // The cursor is persisted as the latest assigned key, but it was assigned by the block exactly
  // when the block registers a value in the keyspace. Otherwise a key is skipped.
  lemma LatestIsAssignedIff(retention: nat, db: Db, block: Block, cb: CompressedBlock, db': Db, ks: Keyspace)
    requires IsCompression(retention, db, block, cb, db') && Fits(block.items)
    ensures db'.latest.At(ks).Some?
    ensures Registers(cb, ks, db'.latest.At(ks).value) <==> cb.registrations.At(ks) != []
    ensures cb.registrations.At(ks) == [] ==> db'.latest.At(ks) == Some(Restored(db.latest.At(ks)))
  {
    var regs, ctx := cb.registrations.At(ks), CtxAfter(retention, db, block, ks);
    assert IsDrain(regs, ctx.changes) && db'.latest.At(ks) == Some(ctx.evictor.next);
    BlockIsSession(retention, db, block, ks, 0);
    CallsAreFresh(Evictor(KeptIn(retention, db, block, ks), Restored(db.latest.At(ks))), 0, |ctx.changes.Keys|);
    if regs != [] {
      DrainLists(regs, ctx.changes, 0);
      var i := DrainHasKey(regs, ctx.changes, ctx.evictor.next);
    }
  }

  // The first block of a chain can skip key zero.
  lemma EmptyBlockSkipsAKey(retention: nat, time: Time, cb: CompressedBlock, db: Db, ks: Keyspace)
    requires IsCompression(retention, EMPTY_DB, Block(time, []), cb, db)
    ensures cb.registrations.At(ks) == [] && db.latest.At(ks) == Some(ZERO)
  {
    var ctx := CtxAfter(retention, EMPTY_DB, Block(time, []), ks);
    assert ctx == InitialCtx({}, None);
    assert IsDrain(cb.registrations.At(ks), ctx.changes);
  }
}
