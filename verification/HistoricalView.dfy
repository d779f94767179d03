/**
 Views of a database at a past height. A view looks up the nearest undo operation of a row by
 seeking in the byte order of the keys.
 */
module HistoricalView {
  import opened Wrappers
  import opened Integers
  import opened ByteKeys
  import opened HistoricalStore
  import opened Database

  /* ---------- what a view should show ---------- */

  function RowOf(rows: Rows, key: RowKey): (r: Option<RowValue>)
  {
    if key in rows then Some(rows[key]) else None
  }

  function OperationResult(op: WriteOperation): (r: Option<RowValue>)
  {
    match op
    case Insert(v) => Some(v)
    case Remove => None
  }

  type Versions = map<(RowKey, nat), WriteOperation>

  // The nearest modification of a row from a height on.
  function Nearest(versions: Versions, key: RowKey, from: nat, top: int): (r: Option<nat>)
    ensures r.Some? ==> from <= r.value <= top && (key, r.value) in versions
    ensures forall h :: from <= h <= top && (r.Some? ==> h < r.value) ==> (key, h) !in versions
    decreases top - from
  {
    if from > top then None
    else if (key, from) in versions then Some(from)
    else Nearest(versions, key, from + 1, top)
  }

  // A row as it was before the commit at height `from`: the nearest modification from there on
  // knows its old value; if there is none the row has not changed since.
  function ReadFrom(s: Store, key: RowKey, from: nat, top: int): (r: Option<RowValue>)
  {
    var hit := Nearest(s.versions, key, from, top);
    if hit.Some? then OperationResult(s.versions[(key, hit.value)]) else RowOf(s.rows, key)
  }

  // A row not mentioned by an undo record is the same before and after the commit; one that is
  // mentioned gets its old value from it.
  lemma RowBeforeCommit(history: History, past: Past, h: int, key: RowKey)
    requires 0 <= h + 1 && h + 1 in history && Undoes(history, past, h + 1)
    ensures RowOf(past.At(h), key)
            == if key in history[h + 1] then OperationResult(history[h + 1][key]) else RowOf(past.At(h + 1), key)
  {
  }

  lemma {:induction false} ReadFromShowsThePast(s: Store, policy: StateRewindPolicy, past: Past, h: int, key: RowKey)
    requires HistoryInv(s, policy, past) && s.rows == past.At(past.Top())
    requires past.first - 1 <= h <= past.Top() && (h + 1 in s.history || h == past.Top())
    ensures ReadFrom(s, key, h + 1, past.Top()) == RowOf(past.At(h), key)
    decreases past.Top() - h
  {
    if h < past.Top() {
      assert Undoes(s.history, past, h + 1);
      RowBeforeCommit(s.history, past, h, key);
      if (key, h + 1) !in s.versions {
        ReadFromShowsThePast(s, policy, past, h + 1, key);
      }
    }
  }

  /* ---------- which views there are ---------- */

  datatype ViewAtHeight = ViewAtHeight(height: nat, store: Store)

  // The first commit that is undone for a view.
  function RollbackHeight(height: nat): (r: nat)
  {
    if height < U64_MAX then height + 1 else U64_MAX
  }

  // `create_view_at`.
  function CreateViewAt(s: Store, height: nat): (r: Result<ViewAtHeight, DatabaseError>)
  {
    if RollbackHeight(height) in s.history || height in s.history then Ok(ViewAtHeight(RollbackHeight(height), s))
    else Err(NoHistoryForRequestedHeight(height))
  }

  // There is a view from just before the oldest record to the last commit, if there are records.
  lemma ViewRangeIff(db: Db, past: Past, height: nat)
    requires Inv(db, past) && height <= U64_MAX
    ensures CreateViewAt(db.store, height).Ok?
            <==> var oldest := Oldest(db.desc.policy, past);
                 past.snapshots != [] && oldest <= past.Top() && oldest - 1 <= height <= past.Top()
  {
    RecordsIff(db.store.history, db.desc.policy, past, height);
    RecordsIff(db.store.history, db.desc.policy, past, RollbackHeight(height));
  }

  lemma RecordsIff(history: History, policy: StateRewindPolicy, past: Past, h: nat)
    requires RecordRange(policy, history, past)
    ensures h in history <==> past.snapshots != [] && Oldest(policy, past) <= h <= past.Top()
  {
  }

  // The documented range of a bounded history holds for views, counted from the highest height
  // there has been, as long as anything can be undone.
  lemma BoundedViewRangeIff(db: Db, past: Past, size: nat, height: nat)
    requires Inv(db, past) && db.desc.policy == RewindRange(size) && past.snapshots != [] && height <= U64_MAX
    ensures past.peak == past.Top() ==>
              (CreateViewAt(db.store, height).Ok? <==> past.first - 1 <= height <= past.Top() <= height + size)
    ensures CreateViewAt(db.store, height).Ok?
            <==> && past.first - 1 <= height <= past.Top() && past.peak <= height + size
                 && past.peak < past.Top() + size && (past.Top() > 0 || past.peak == 0)
  {
    ViewRangeIff(db, past, height);
  }

  /* ---------- the byte order of row versions ---------- */

  function TableOf(key: RowKey): (r: Option<nat>)
  {
    if key.MetadataRow? then None else Some(key.table)
  }

  function BytesOf(key: RowKey): (r: ByteString)
  {
    if key.MetadataRow? then [] else key.key
  }

  type Entry = (RowKey, nat)

  function EntryKey(e: Entry): (r: ByteString)
  {
    HeightKey(BytesOf(e.0), e.1)
  }

  // The row versions of a table from a byte string on.
  function EntriesFrom(versions: Versions, table: Option<nat>, start: ByteString): (r: set<Entry>)
  {
    set e | e in versions.Keys && TableOf(e.0) == table && Leq(start, EntryKey(e))
  }

  ghost predicate IsFirst(entries: set<Entry>, e: Entry)
  {
    e in entries && forall o :: o in entries ==> Leq(EntryKey(e), EntryKey(o))
  }

  lemma {:induction false} FirstExists(entries: set<Entry>) returns (e: Entry)
    requires entries != {}
    ensures IsFirst(entries, e)
    decreases |entries|
  {
    var x :| x in entries;
    e := x;
    LeqReflexive(EntryKey(x));
    if entries != {x} {
      assert entries - {x} != {};
      var y := FirstExists(entries - {x});
      e := FirstOf(entries, x, y);
    }
  }

  lemma FirstOf(entries: set<Entry>, x: Entry, y: Entry) returns (e: Entry)
    requires x in entries && IsFirst(entries - {x}, y)
    ensures IsFirst(entries, e)
  {
    LeqReflexive(EntryKey(x));
    LeqTotal(EntryKey(x), EntryKey(y));
    e := if Leq(EntryKey(x), EntryKey(y)) then x else y;
    forall o | o in entries ensures Leq(EntryKey(e), EntryKey(o)) {
      if o != x {
        assert o in entries - {x};
        LeqReflexive(EntryKey(o));
        if e == x {
          LeqTransitive(EntryKey(x), EntryKey(y), EntryKey(o));
        }
      }
    }
  }

  // Entries of one table have different height keys.
  lemma FirstIsUnique(entries: set<Entry>, d: Entry, e: Entry)
    requires IsFirst(entries, d) && IsFirst(entries, e) && TableOf(d.0) == TableOf(e.0)
    requires d.1 <= U64_MAX && e.1 <= U64_MAX
    ensures d == e
  {
    LeqAntisymmetric(EntryKey(d), EntryKey(e));
    HeightKeyInjective(BytesOf(d.0), d.1, BytesOf(e.0), e.1);
  }

  ghost function First(entries: set<Entry>): (r: Option<Entry>)
    ensures r.Some? ==> IsFirst(entries, r.value)
    ensures r.None? <==> entries == {}
  {
    if entries == {} then None
    else
      assert exists e :: IsFirst(entries, e) by { var e := FirstExists(entries); }
      var e :| IsFirst(entries, e);
      Some(e)
  }

  /* ---------- reading through a view ---------- */

  // A read gives a row, or panics because the found key is too short to be compared.
  datatype Read = Value(row: Option<RowValue>) | Panic

  // What a read makes of the first entry from the height key on.
  function ReadHit(view: ViewAtHeight, key: RowKey, hit: Option<Entry>): (r: Read)
    requires hit.Some? ==> hit.value in view.store.versions
  {
    var bytes := BytesOf(key);
    if hit.None? then Value(RowOf(view.store.rows, key))
    else
      var found := EntryKey(hit.value);
      if |found| < |bytes| then Panic
      else if found[..|bytes|] == bytes then Value(OperationResult(view.store.versions[hit.value]))
      else Value(RowOf(view.store.rows, key))
  }

  ghost function Candidates(view: ViewAtHeight, key: RowKey): (r: set<Entry>)
  {
    EntriesFrom(view.store.versions, TableOf(key), HeightKey(BytesOf(key), view.height))
  }

  ghost function ReadView(view: ViewAtHeight, key: RowKey): (r: Read)
  {
    ReadHit(view, key, First(Candidates(view, key)))
  }

  // The modification of another key at `height` is taken for one of `key`, or makes the read of
  // `key` panic.
  predicate Confusable(key: ByteString, from: nat, other: ByteString, height: nat)
  {
    && other != key
    && Leq(HeightKey(key, from), HeightKey(other, height))
    && (|other| + 8 < |key| || key <= HeightKey(other, height))
  }

  ghost predicate Unconfused(versions: Versions, key: RowKey, from: nat)
  {
    forall e :: e in versions && TableOf(e.0) == TableOf(key) ==> !Confusable(BytesOf(key), from, BytesOf(e.0), e.1)
  }

  lemma SameRow(k: RowKey, l: RowKey)
    requires TableOf(k) == TableOf(l) && BytesOf(k) == BytesOf(l)
    ensures k == l
  {
  }

  // Without confusable keys a read finds the nearest modification of its own row.
  lemma ReadIsNearest(s: Store, key: RowKey, from: nat, top: nat)
    requires from <= U64_MAX && top <= U64_MAX && forall e :: e in s.versions ==> e.1 <= top
    requires Unconfused(s.versions, key, from)
    ensures ReadView(ViewAtHeight(from, s), key) == Value(ReadFrom(s, key, from, top))
  {
    var view, bytes := ViewAtHeight(from, s), BytesOf(key);
    var hit, own := First(Candidates(view, key)), Nearest(s.versions, key, from, top);
    if own.Some? {
      FirstIsOwn(s, key, from, top, own.value, hit);
    } else if hit.Some? {
      ForeignIsSkipped(s, key, from, top, hit.value);
    }
  }

  lemma FirstIsOwn(s: Store, key: RowKey, from: nat, top: nat, own: nat, hit: Option<Entry>)
    requires from <= U64_MAX && top <= U64_MAX && forall e :: e in s.versions ==> e.1 <= top
    requires Unconfused(s.versions, key, from)
    requires Nearest(s.versions, key, from, top) == Some(own)
    requires hit == First(Candidates(ViewAtHeight(from, s), key))
    ensures hit == Some((key, own))
  {
    var bytes := BytesOf(key);
    HeightKeyOrder(bytes, from, own);
    assert (key, own) in Candidates(ViewAtHeight(from, s), key);
    var e := hit.value;
    Between(bytes, BigEndian(8, from), EntryKey(e), BigEndian(8, own));
    assert !Confusable(bytes, from, BytesOf(e.0), e.1);
    SameRow(e.0, key);
    HeightKeyOrder(bytes, from, e.1);
    HeightKeyOrder(bytes, e.1, own);
    assert e == (key, e.1);
  }

  lemma ForeignIsSkipped(s: Store, key: RowKey, from: nat, top: nat, e: Entry)
    requires from <= U64_MAX && top <= U64_MAX && forall o :: o in s.versions ==> o.1 <= top
    requires Unconfused(s.versions, key, from) && Nearest(s.versions, key, from, top) == None
    requires e in Candidates(ViewAtHeight(from, s), key)
    ensures |EntryKey(e)| >= |BytesOf(key)| && EntryKey(e)[..|BytesOf(key)|] != BytesOf(key)
  {
    var bytes := BytesOf(key);
    assert e == (e.0, e.1);
    if BytesOf(e.0) == bytes {
      SameRow(e.0, key);
      HeightKeyOrder(bytes, from, e.1);
      assert false;
    }
    assert !Confusable(bytes, from, BytesOf(e.0), e.1);
  }

  lemma EntriesAreRecorded(db: Db, past: Past)
    requires Inv(db, past)
    ensures forall e :: e in db.store.versions ==> past.first <= e.1 <= past.Top() <= U64_MAX
  {
    forall e | e in db.store.versions ensures past.first <= e.1 <= past.Top() {
      assert e == (e.0, e.1);
      assert Undoes(db.store.history, past, e.1);
    }
  }

  lemma ViewStart(db: Db, past: Past, height: nat)
    requires Inv(db, past) && height <= U64_MAX && CreateViewAt(db.store, height).Ok?
    ensures var from := RollbackHeight(height);
            && past.first <= from <= past.Top() + 1 && from <= U64_MAX
            && (from in db.store.history || from == past.Top() + 1)
  {
    ViewRangeIff(db, past, height);
    RecordsIff(db.store.history, db.desc.policy, past, RollbackHeight(height));
  }

  // A view shows every row without confusable keys as it was after the commit at the view's
  // height; at the largest 64-bit height, as it was before that commit.
  lemma ViewShowsThePast(db: Db, past: Past, height: nat, key: RowKey)
    requires Inv(db, past) && height <= U64_MAX && CreateViewAt(db.store, height).Ok?
    requires Unconfused(db.store.versions, key, RollbackHeight(height))
    ensures past.first <= RollbackHeight(height) <= past.Top() + 1
    ensures var view := CreateViewAt(db.store, height).value;
            ReadView(view, key) == Value(RowOf(past.At(RollbackHeight(height) - 1), key))
    ensures height < U64_MAX ==> RollbackHeight(height) - 1 == height
  {
    ViewStart(db, past, height);
    ReadsThePast(db, past, RollbackHeight(height), key);
  }

  lemma ReadsThePast(db: Db, past: Past, from: nat, key: RowKey)
    requires Inv(db, past) && past.first <= from <= past.Top() + 1 && from <= U64_MAX
    requires from in db.store.history || from == past.Top() + 1
    requires Unconfused(db.store.versions, key, from)
    ensures ReadView(ViewAtHeight(from, db.store), key) == Value(RowOf(past.At(from - 1), key))
  {
    EntriesAreRecorded(db, past);
    ReadFromShowsThePast(db.store, db.desc.policy, past, from - 1, key);
    ReadIsNearest(db.store, key, from, if past.Top() < 0 then 0 else past.Top());
  }

  // If there is a view at the height, it shows the row as it was.
  ghost predicate ShowsThePast(db: Db, past: Past, height: nat, row: RowKey)
  {
    CreateViewAt(db.store, height).Ok? ==>
      && past.first - 1 <= height <= past.Top()
      && ReadView(CreateViewAt(db.store, height).value, row) == Value(RowOf(past.At(height), row))
  }

  lemma UnconfusedShowsThePast(db: Db, past: Past, height: nat, row: RowKey)
    requires Inv(db, past) && height < U64_MAX && Unconfused(db.store.versions, row, RollbackHeight(height))
    ensures ShowsThePast(db, past, height, row)
  {
    if CreateViewAt(db.store, height).Ok? {
      ViewShowsThePast(db, past, height, row);
    }
  }

  // After any run of operations, views show what the journal of the run has at their height.
  lemma ViewAfterRun(desc: Description, ops: seq<Operation>, height: nat, key: RowKey)
    requires ValidDescription(desc) && AllProper(desc, ops) && height < U64_MAX
    requires Unconfused(Run(NewDatabase(desc), ops).store.versions, key, RollbackHeight(height))
    ensures ShowsThePast(Run(NewDatabase(desc), ops), JournalOf(desc, ops).past, height, key)
  {
    RunFollowsJournal(desc, ops);
    UnconfusedShowsThePast(Run(NewDatabase(desc), ops), JournalOf(desc, ops).past, height, key);
  }

  // A commit at the largest 64-bit height inserts a row, and the view at that height does not
  // show it.
  lemma LastViewIsBehind(row: RowKey, v: RowValue)
    requires row.Row?
    ensures var desc := Description(0, {}, U64_MAX, RewindFullRange);
            var ops := [CommitOp(map[row := Insert(v)], [U64_MAX])];
            var s, past := Run(NewDatabase(desc), ops).store, JournalOf(desc, ops).past;
            && past.Top() == U64_MAX && RowOf(past.At(U64_MAX), row) == Some(v)
            && CreateViewAt(s, U64_MAX).Ok? && ReadView(CreateViewAt(s, U64_MAX).value, row) == Value(None)
  {
    var desc, op := Description(0, {}, U64_MAX, RewindFullRange), CommitOp(map[row := Insert(v)], [U64_MAX]);
    assert [op] == [] + [op];
    JournalSnoc(desc, [], op);
    RunFollowsJournal(desc, [op]);
    var past := JournalOf(desc, [op]).past;
    assert past == Past(map[], U64_MAX, [past.snapshots[0]], U64_MAX);
    OnlyOneRow(desc, row, v);
    ViewRangeIff(Run(NewDatabase(desc), [op]), past, U64_MAX);
    ViewShowsThePast(Run(NewDatabase(desc), [op]), past, U64_MAX, row);
  }

  lemma OnlyOneRow(desc: Description, row: RowKey, v: RowValue)
    requires ValidDescription(desc) && desc.policy == RewindFullRange && desc.maxHeight == U64_MAX && row.Row?
    ensures var ops := [CommitOp(map[row := Insert(v)], [U64_MAX])];
            Unconfused(Run(NewDatabase(desc), ops).store.versions, row, U64_MAX)
  {
    var ops := [CommitOp(map[row := Insert(v)], [U64_MAX])];
    assert ops[..|ops| - 1] == [];
    assert Run(NewDatabase(desc), ops[..|ops| - 1]) == NewDatabase(desc);
    var db := Run(NewDatabase(desc), ops);
    forall e | e in db.store.versions && TableOf(e.0) == TableOf(row) ensures e.0 == row {
    }
  }

  // Seeks forward in byte order.
  method SeekForward(versions: Versions, table: Option<nat>, start: ByteString) returns (hit: Option<Entry>)
    ensures hit.None? <==> EntriesFrom(versions, table, start) == {}
    ensures hit.Some? ==> IsFirst(EntriesFrom(versions, table, start), hit.value)
  {
    var rest := EntriesFrom(versions, table, start);
    hit := FirstEntry(rest);
  }

  method FirstEntry(entries: set<Entry>) returns (hit: Option<Entry>)
    ensures hit.None? <==> entries == {}
    ensures hit.Some? ==> IsFirst(entries, hit.value)
  {
    var rest := entries;
    ghost var seen: set<Entry> := {};
    hit := None;
    while rest != {}
      invariant seen + rest == entries && (hit.None? <==> seen == {})
      invariant hit.Some? ==> IsFirst(seen, hit.value)
      decreases |rest|
    {
      var e :| e in rest;
      LeqReflexive(EntryKey(e));
      if hit.None? {
        hit := Some(e);
      } else {
        LeqTotal(EntryKey(hit.value), EntryKey(e));
        if !Leq(EntryKey(hit.value), EntryKey(e)) {
          NewFirst(seen, hit.value, e);
          hit := Some(e);
        }
      }
      rest, seen := rest - {e}, seen + {e};
    }
  }

  lemma NewFirst(seen: set<Entry>, first: Entry, e: Entry)
    requires IsFirst(seen, first) && Leq(EntryKey(e), EntryKey(first))
    ensures IsFirst(seen + {e}, e)
  {
    LeqReflexive(EntryKey(e));
    forall o | o in seen ensures Leq(EntryKey(e), EntryKey(o)) {
      LeqTransitive(EntryKey(e), EntryKey(first), EntryKey(o));
    }
  }

  // `get` of a view.
  method Get(view: ViewAtHeight, key: RowKey) returns (r: Read)
    requires forall e :: e in view.store.versions ==> e.1 <= U64_MAX
    ensures r == ReadView(view, key)
  {
    var hit := SeekForward(view.store.versions, TableOf(key), HeightKey(BytesOf(key), view.height));
    ghost var entries := Candidates(view, key);
    if hit.Some? {
      FirstIsUnique(entries, hit.value, First(entries).value);
    }
    r := ReadHit(view, key, hit);
  }
}
