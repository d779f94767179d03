/**
 A database whose commits are linked by height: a store, and the height cached in memory.
 */
module Database {
  import opened Wrappers
  import opened Integers
  import opened HistoricalStore

  datatype DatabaseError =
    | MultipleHeightsInCommit
    | FailedToAdvanceHeight
    | HeightsAreNotLinked(prevHeight: nat, newHeight: nat)
    | NewHeightIsNotSet(prevHeight: nat)
    | NoHeightToRollback
    | HistoryNotFound
    | NoHistoryForRequestedHeight(requested: nat)

  // What distinguishes the databases of a node: version, indexes of a new database, largest
  // height, and how far commits can be undone.
  datatype Description =
    Description(version: nat, indexation: set<nat>, maxHeight: nat, policy: StateRewindPolicy)

  datatype Db = Db(desc: Description, store: Store, height: Option<nat>)

  function MetadataHeight(rows: Rows): (r: Option<nat>)
  {
    if MetadataRow in rows && rows[MetadataRow].Meta? then Some(rows[MetadataRow].metadata.height) else None
  }

  // `latest_height_from_metadata`.
  function LatestHeight(db: Db): (r: Option<nat>)
  {
    MetadataHeight(db.store.rows)
  }

  function UpdatedMetadata(desc: Description, rows: Rows, newHeight: nat): (r: Metadata)
    ensures r.height == newHeight && r.version == desc.version
    ensures MetadataRow !in rows ==> r.V2? && r.indexation == desc.indexation
    ensures MetadataRow in rows && rows[MetadataRow].Meta? ==>
              && (rows[MetadataRow].metadata.V1? <==> r.V1?)
              && (r.V2? ==> r.indexation == rows[MetadataRow].metadata.indexation)
  {
    if MetadataRow in rows && rows[MetadataRow].Meta? then
      match rows[MetadataRow].metadata
      case V1(_, _) => V1(desc.version, newHeight)
      case V2(_, _, indexation) => V2(desc.version, newHeight, indexation)
    else V2(desc.version, newHeight, desc.indexation)
  }

  // The height rules for a commit whose changes contain the given heights.
  function CheckHeights(maxHeight: nat, height: Option<nat>, newHeights: seq<nat>)
    : (r: Result<Option<nat>, DatabaseError>)
  {
    if |newHeights| > 1 then Err(MultipleHeightsInCommit)
    else
      match height
      case None => Ok(if newHeights == [] then None else Some(newHeights[0]))
      case Some(prev) =>
        if newHeights == [] then Err(NewHeightIsNotSet(prev))
        else if prev >= maxHeight then Err(FailedToAdvanceHeight)
        else if newHeights[0] != prev + 1 then Err(HeightsAreNotLinked(prev, newHeights[0]))
        else Ok(Some(newHeights[0]))
  }

  // The changes of a commit with a height also set the metadata row.
  function AllChanges(desc: Description, rows: Rows, changes: Changes, newHeight: Option<nat>): (r: Changes)
  {
    if newHeight.None? then changes
    else changes[MetadataRow := Insert(Meta(UpdatedMetadata(desc, rows, newHeight.value)))]
  }

  // `commit_changes_with_height_update`.
  function Commit(db: Db, changes: Changes, newHeights: seq<nat>): (r: Result<Db, DatabaseError>)
  {
    var newHeight :- CheckHeights(db.desc.maxHeight, db.height, newHeights);
    Ok(Db(db.desc,
          Committed(db.store, db.desc.policy, newHeight, AllChanges(db.desc, db.store.rows, changes, newHeight)),
          if newHeight.Some? then newHeight else db.height))
  }

  // The heights that a commit may have: any or none as long as there is no height, then the next.
  predicate Acceptable(maxHeight: nat, height: Option<nat>, newHeights: seq<nat>)
  {
    if height.None? then |newHeights| <= 1
    else height.value < maxHeight && newHeights == [height.value + 1]
  }

  lemma AcceptedIff(db: Db, changes: Changes, newHeights: seq<nat>)
    ensures Commit(db, changes, newHeights).Ok? <==> Acceptable(db.desc.maxHeight, db.height, newHeights)
    ensures var r := Commit(db, changes, newHeights);
            r.Err? && |newHeights| <= 1 ==>
              && db.height.Some?
              && (newHeights == [] <==> r.error == NewHeightIsNotSet(db.height.value))
              && (newHeights != [] && db.height.value >= db.desc.maxHeight <==> r.error == FailedToAdvanceHeight)
    ensures |newHeights| > 1 <==> Commit(db, changes, newHeights) == Err(MultipleHeightsInCommit)
  {
  }

  // The contents after a commit: its changes are made, and with a height the metadata row has it.
  ghost predicate CommitMade(before: Rows, after: Rows, changes: Changes, newHeights: seq<nat>)
  {
    && (forall k :: k != MetadataRow ==> RowMade(before, after, changes, k))
    && (newHeights == [] ==> RowMade(before, after, changes, MetadataRow))
    && (newHeights != [] ==> MetadataHeight(after) == Some(newHeights[0]))
  }

  lemma CommitMakesChanges(db: Db, changes: Changes, newHeights: seq<nat>)
    requires Commit(db, changes, newHeights).Ok?
    ensures CommitMade(db.store.rows, Commit(db, changes, newHeights).value.store.rows, changes, newHeights)
  {
    RowsMade(db.desc, db.store.rows, changes, newHeights);
  }

  function Max(a: nat, b: nat): (r: nat)
  {
    if a < b then b else a
  }

  function Pred(h: nat): (r: Option<nat>)
  {
    if h == 0 then None else Some(h - 1)
  }

  // `rollback_last_block`: it undoes the cached height.
  function Rollback(db: Db): (r: Result<Db, DatabaseError>)
  {
    if db.height.None? then Err(NoHeightToRollback)
    else
      match RolledBack(db.store, db.height.value)
      case None => Err(HistoryNotFound)
      case Some(store) => Ok(Db(db.desc, store, Pred(db.height.value)))
  }

  // Opening a database reads the cached height from its metadata.
  function Opened(db: Db): (r: Db)
  {
    db.(height := LatestHeight(db))
  }

  /* ---------- what a database means ---------- */

  // `base` is the contents before the first commit with a height, `snapshots[i]` the contents
  // after the commit at height `first + i`, and `peak` the highest height there has been since
  // the first commit.
  datatype Past = Past(base: Rows, first: nat, snapshots: seq<Rows>, peak: nat) {

    function Top(): (r: int)
    {
      first + |snapshots| - 1
    }

    // The contents at a height, from just before the first commit to the last one.
    function At(h: int): (r: Rows)
      requires first - 1 <= h <= Top()
    {
      if h == first - 1 then base else snapshots[h - first]
    }

    function Push(rows: Rows): (r: Past)
    {
      this.(snapshots := snapshots + [rows], peak := Max(peak, first + |snapshots|))
    }

    function Pop(): (r: Past)
      requires snapshots != []
    {
      this.(snapshots := snapshots[..|snapshots| - 1])
    }
  }

  type History = map<nat, Changes>

  // An undo record leads from the contents at its height to those before it.
  ghost predicate Undoes(history: History, past: Past, h: nat)
    requires h in history
  {
    past.first <= h <= past.Top() && Applied(past.At(h), history[h]) == past.At(h - 1)
  }

  ghost predicate UndoInv(history: History, past: Past)
  {
    forall h {:trigger Undoes(history, past, h)} :: h in history ==> Undoes(history, past, h)
  }

  // The height of the oldest record. A bounded history reaches back from the highest height
  // there has been, and loses the record of height 0 as soon as there is another one.
  function Oldest(policy: StateRewindPolicy, past: Past): (r: nat)
  {
    match policy
    case NoRewind => Max(past.first, past.peak + 1)
    case RewindFullRange => past.first
    case RewindRange(size) =>
      Max(past.first, if past.peak + 1 > size then past.peak + 1 - size else if past.peak > 0 then 1 else 0)
  }

  // There are records from the oldest one on, and nothing older has been undone.
  ghost predicate RecordRange(policy: StateRewindPolicy, history: History, past: Past)
  {
    && (forall h :: h in history <==> Oldest(policy, past) <= h <= past.Top())
    && (policy.NoRewind? || Oldest(policy, past) <= past.Top() + 1)
  }

  ghost predicate HistoryInv(s: Store, policy: StateRewindPolicy, past: Past)
  {
    && UndoInv(s.history, past)
    && RecordRange(policy, s.history, past)
    && VersionsMatch(s)
  }

  // Heights fit into 64 bits, and a bounded history has room for a record.
  predicate ValidDescription(desc: Description)
  {
    desc.maxHeight <= U64_MAX && (desc.policy.RewindRange? ==> desc.policy.size > 0)
  }

  // Cached height, metadata and contents follow the past. Only when the first commit with a
  // height has been undone do they differ: the metadata is gone, and the cache may hold the
  // height before it.
  ghost predicate Inv(db: Db, past: Past)
  {
    match db
    case Db(desc, store, height) =>
      && ValidDescription(desc)
      && store.rows == past.At(past.Top())
      && MetadataHeight(past.base) == None
      && (forall h :: past.first <= h <= past.Top() ==> MetadataHeight(past.At(h)) == Some(h))
      && HistoryInv(store, desc.policy, past)
      && past.Top() <= past.peak && past.Top() <= desc.maxHeight && past.first <= desc.maxHeight
      && (if past.snapshots == [] then height == None || height == Pred(past.first) else height == Some(past.Top()))
  }

  lemma LatestHeightIs(db: Db, past: Past)
    requires Inv(db, past)
    ensures LatestHeight(db) == if past.snapshots == [] then None else Some(past.Top())
  {
  }

  /* ---------- commits ---------- */

  lemma PushAt(past: Past, rows: Rows, h: int)
    requires past.first - 1 <= h <= past.Top() + 1
    ensures past.Push(rows).At(h) == if h == past.Top() + 1 then rows else past.At(h)
  {
  }

  lemma RecordKeepsUndoInv(history: History, past: Past, pruned: set<nat>, rows: Rows, changes: Changes, top: nat)
    requires UndoInv(history, past) && rows == past.At(past.Top()) && top == past.first + |past.snapshots|
    ensures UndoInv((history - pruned)[top := Reversed(rows, changes)], past.Push(Applied(rows, changes)))
  {
    var r, past' := (history - pruned)[top := Reversed(rows, changes)], past.Push(Applied(rows, changes));
    forall h | h in r ensures Undoes(r, past', h) {
      if h == top {
        ReverseUndoes(rows, changes);
      } else {
        assert Undoes(history, past, h);
      }
      PushAt(past, Applied(rows, changes), h);
      PushAt(past, Applied(rows, changes), h - 1);
    }
  }

  // A bounded history only ever loses its oldest record.
  lemma RecordKeepsRange(policy: StateRewindPolicy, history: History, past: Past, reverse: Changes, rows: Rows,
                         top: nat)
    requires RecordRange(policy, history, past) && !policy.NoRewind? && (policy.RewindRange? ==> policy.size > 0)
    requires top == past.first + |past.snapshots| && past.Top() <= past.peak
    requires past.snapshots == [] ==> past.peak == past.first
    ensures RecordRange(policy, (history - PrunedHeights(policy, top))[top := reverse], past.Push(rows))
  {
  }

  // A commit at the next height extends the past and keeps its history.
  lemma CommitKeepsHistory(s: Store, policy: StateRewindPolicy, past: Past, changes: Changes, top: nat)
    requires HistoryInv(s, policy, past) && s.rows == past.At(past.Top()) && (policy.RewindRange? ==> policy.size > 0)
    requires top == past.first + |past.snapshots| && past.Top() <= past.peak
    requires past.snapshots == [] ==> past.peak == past.first
    ensures HistoryInv(Committed(s, policy, Some(top), changes), policy, past.Push(Applied(s.rows, changes)))
  {
    CommittedMatches(s, policy, Some(top), changes);
    if !policy.NoRewind? {
      CommittedHistory(s, policy, top, changes);
      RecordKeepsUndoInv(s.history, past, PrunedHeights(policy, top), s.rows, changes, top);
      RecordKeepsRange(policy, s.history, past, Reversed(s.rows, changes), Applied(s.rows, changes), top);
    }
  }

  // The past after a commit.
  function NextPast(past: Past, newHeight: Option<nat>, rows: Rows): (r: Past)
  {
    match newHeight
    case None => past.(base := rows)
    case Some(h) => if past.snapshots == [] then Past(past.base, h, [rows], h) else past.Push(rows)
  }

  // A commit either is rejected or follows its height rules, and then extends the past.
  lemma CommitKeepsInv(db: Db, past: Past, changes: Changes, newHeights: seq<nat>)
    requires Inv(db, past)
    requires MetadataRow !in changes && forall h :: h in newHeights ==> h <= db.desc.maxHeight
    requires Commit(db, changes, newHeights).Ok?
    ensures var db' := Commit(db, changes, newHeights).value;
            var newHeight := if newHeights == [] then None else Some(newHeights[0]);
            && Inv(db', NextPast(past, newHeight, db'.store.rows))
            // heights are contiguous
            && (newHeight.Some? && past.snapshots != [] ==> newHeight == Some(past.Top() + 1))
            && (newHeight.None? ==> past.snapshots == [])
  {
    if newHeights == [] {
      GenesisKeepsInv(db, past, changes);
    } else {
      assert newHeights == [newHeights[0]] && newHeights[0] in newHeights;
      HeightedCommit(db, past, changes, newHeights[0]);
    }
  }

  // Where a commit with a height starts from: the first one chooses its height.
  function StartOf(past: Past, h: nat): (r: Past)
  {
    if past.snapshots == [] then Past(past.base, h, [], h) else past
  }

  lemma StartKeeps(db: Db, past: Past, h: nat)
    requires Inv(db, past) && CheckHeights(db.desc.maxHeight, db.height, [h]).Ok?
    ensures var start := StartOf(past, h);
            && h == start.first + |start.snapshots|
            && HistoryInv(db.store, db.desc.policy, start) && db.store.rows == start.At(start.Top())
            && (forall i :: start.first <= i <= start.Top() ==> MetadataHeight(start.At(i)) == Some(i))
  {
    if past.snapshots == [] {
      assert forall i :: i !in db.store.history;
    }
  }

  lemma HeightedCommit(db: Db, past: Past, changes: Changes, h: nat)
    requires Inv(db, past) && CheckHeights(db.desc.maxHeight, db.height, [h]).Ok? && h <= db.desc.maxHeight
    ensures var all := AllChanges(db.desc, db.store.rows, changes, Some(h));
            var store := Committed(db.store, db.desc.policy, Some(h), all);
            Inv(Db(db.desc, store, Some(h)), NextPast(past, Some(h), store.rows))
  {
    StartKeeps(db, past, h);
    var start, all := StartOf(past, h), AllChanges(db.desc, db.store.rows, changes, Some(h));
    CommitKeepsHistory(db.store, db.desc.policy, start, all, h);
    HeightedKeepsInv(db, start, all, h);
    PushStart(past, h, Committed(db.store, db.desc.policy, Some(h), all).rows);
  }

  lemma PushStart(past: Past, h: nat, rows: Rows)
    ensures NextPast(past, Some(h), rows) == StartOf(past, h).Push(rows)
  {
    assert [] + [rows] == [rows];
  }

  lemma GenesisKeepsInv(db: Db, past: Past, changes: Changes)
    requires Inv(db, past) && past.snapshots == [] && db.height == None
    requires MetadataRow !in changes
    ensures var rows := Applied(db.store.rows, changes);
            Inv(Db(db.desc, Committed(db.store, db.desc.policy, None, changes), None), past.(base := rows))
  {
  }

  lemma HeightedKeepsInv(db: Db, past: Past, all: Changes, h: nat)
    requires ValidDescription(db.desc)
    requires db.store.rows == past.At(past.Top()) && h == past.first + |past.snapshots| <= db.desc.maxHeight
    requires MetadataHeight(past.base) == None
    requires forall i :: past.first <= i <= past.Top() ==> MetadataHeight(past.At(i)) == Some(i)
    requires MetadataRow in all && all[MetadataRow].Insert? && all[MetadataRow].value.Meta?
    requires all[MetadataRow].value.metadata.height == h
    requires var store := Committed(db.store, db.desc.policy, Some(h), all);
             HistoryInv(store, db.desc.policy, past.Push(Applied(db.store.rows, all)))
    ensures var store := Committed(db.store, db.desc.policy, Some(h), all);
            Inv(Db(db.desc, store, Some(h)), past.Push(store.rows))
  {
    var rows := Applied(db.store.rows, all);
    var past' := past.Push(rows);
    assert MetadataHeight(rows) == Some(h);
    forall i | past'.first <= i <= past'.Top() ensures MetadataHeight(past'.At(i)) == Some(i) {
      PushAt(past, rows, i);
    }
    PushAt(past, rows, past'.Top());
  }

  /* ---------- rollbacks ---------- */

  lemma PopAt(past: Past, h: int)
    requires past.snapshots != [] && past.first - 1 <= h < past.Top()
    ensures past.Pop().At(h) == past.At(h)
  {
  }

  lemma PopKeepsUndoInv(history: History, past: Past)
    requires UndoInv(history, past) && past.snapshots != []
    ensures UndoInv(history - {past.Top()}, past.Pop())
  {
    var r := history - {past.Top()};
    forall h | h in r ensures Undoes(r, past.Pop(), h) {
      assert Undoes(history, past, h);
      PopAt(past, h);
      PopAt(past, h - 1);
    }
  }

  lemma PopKeepsRange(policy: StateRewindPolicy, history: History, past: Past, top: nat)
    requires RecordRange(policy, history, past) && past.snapshots != [] && top == past.Top() && top in history
    ensures RecordRange(policy, history - {top}, past.Pop())
  {
    assert Oldest(policy, past.Pop()) == Oldest(policy, past);
  }

  lemma RollbackKeepsHistory(s: Store, policy: StateRewindPolicy, past: Past, top: nat, rows: Rows)
    requires HistoryInv(s, policy, past) && past.snapshots != [] && top == past.Top() && top in s.history
    ensures HistoryInv(Forgotten(s, top).(rows := rows), policy, past.Pop())
  {
    ForgottenMatches(s, top);
    ForgottenHistory(s, top);
    PopKeepsUndoInv(s.history, past);
    PopKeepsRange(policy, s.history, past, top);
  }

  lemma PopKeepsHeights(past: Past)
    requires past.snapshots != []
    requires forall h :: past.first <= h <= past.Top() ==> MetadataHeight(past.At(h)) == Some(h)
    ensures forall h :: past.first <= h <= past.Pop().Top() ==> MetadataHeight(past.Pop().At(h)) == Some(h)
  {
    forall h | past.first <= h <= past.Pop().Top() ensures MetadataHeight(past.Pop().At(h)) == Some(h) {
      PopAt(past, h);
    }
  }

  lemma PoppedInv(db: Db, past: Past, top: nat, store: Store)
    requires Inv(db, past) && past.snapshots != [] && top == past.Top()
    requires HistoryInv(store, db.desc.policy, past.Pop()) && store.rows == past.At(top - 1)
    ensures Inv(Db(db.desc, store, Pred(top)), past.Pop())
  {
    PopAt(past, top - 1);
    PopKeepsHeights(past);
  }

  // The store after undoing the last commit.
  function WithoutLast(db: Db, past: Past): (r: Store)
    requires past.snapshots != []
  {
    Forgotten(db.store, past.Top()).(rows := past.At(past.Top() - 1))
  }

  lemma RollbackIs(db: Db, past: Past)
    requires Inv(db, past) && past.snapshots != []
    ensures Rollback(db)
            == if Oldest(db.desc.policy, past) <= past.Top()
               then Ok(Db(db.desc, WithoutLast(db, past), Pred(past.Top())))
               else Err(HistoryNotFound)
  {
    if past.Top() in db.store.history {
      assert Undoes(db.store.history, past, past.Top());
    }
  }

  lemma WithoutLastHistory(db: Db, past: Past)
    requires HistoryInv(db.store, db.desc.policy, past) && past.snapshots != []
    requires Oldest(db.desc.policy, past) <= past.Top()
    ensures HistoryInv(WithoutLast(db, past), db.desc.policy, past.Pop())
  {
    RollbackKeepsHistory(db.store, db.desc.policy, past, past.Top(), past.At(past.Top() - 1));
  }

  lemma WithoutLastInv(db: Db, past: Past, top: nat)
    requires Inv(db, past) && past.snapshots != [] && Oldest(db.desc.policy, past) <= top == past.Top()
    ensures Inv(Db(db.desc, WithoutLast(db, past), Pred(top)), past.Pop())
  {
    WithoutLastHistory(db, past);
    PoppedInv(db, past, top, WithoutLast(db, past));
  }

  // A rollback succeeds exactly when there is a commit with an undo record, and then restores
  // the contents before that commit, metadata included.
  lemma RollbackRestores(db: Db, past: Past)
    requires Inv(db, past)
    ensures Rollback(db).Ok? <==> past.snapshots != [] && Oldest(db.desc.policy, past) <= past.Top()
    ensures Rollback(db).Ok? ==> Inv(Rollback(db).value, past.Pop())
  {
    if past.snapshots == [] {
      NothingToRollBack(db, past);
    } else {
      RollbackIs(db, past);
      if Rollback(db).Ok? {
        WithoutLastInv(db, past, past.Top());
      }
    }
  }

  lemma NothingToRollBack(db: Db, past: Past)
    requires Inv(db, past) && past.snapshots == []
    ensures Rollback(db).Err?
  {
  }

  // Undoing a commit leads back to the contents before it, which is possible under every policy
  // that keeps records. The cached height is restored too, except that undoing a first commit
  // leaves its predecessor.
  lemma CommitThenRollback(db: Db, past: Past, changes: Changes, newHeights: seq<nat>)
    requires Inv(db, past) && !db.desc.policy.NoRewind?
    requires MetadataRow !in changes && forall h :: h in newHeights ==> h <= db.desc.maxHeight
    requires Commit(db, changes, newHeights).Ok? && newHeights != []
    ensures var r := Rollback(Commit(db, changes, newHeights).value);
            && r.Ok?
            && r.value.store.rows == db.store.rows
            && r.value.height == if past.snapshots == [] then Pred(newHeights[0]) else db.height
  {
    CommitKeepsInv(db, past, changes, newHeights);
    var db', h := Commit(db, changes, newHeights).value, newHeights[0];
    var past' := NextPast(past, Some(h), db'.store.rows);
    NextPastIs(db, past, h, db'.store.rows);
    UndoesLast(db', past', h);
  }

  lemma UndoesLast(db: Db, past: Past, top: nat)
    requires Inv(db, past) && past.snapshots != [] && Oldest(db.desc.policy, past) <= top == past.Top()
    ensures Rollback(db).Ok? && Rollback(db).value.store.rows == past.At(top - 1)
    ensures Rollback(db).value.height == Pred(top)
  {
    RollbackIs(db, past);
  }

  lemma NextPastIs(db: Db, past: Past, h: nat, rows: Rows)
    requires Inv(db, past) && !db.desc.policy.NoRewind?
    requires past.snapshots != [] ==> h == past.Top() + 1
    ensures var past' := NextPast(past, Some(h), rows);
            && past'.snapshots != [] && past'.Top() == h && Oldest(db.desc.policy, past') <= h
            && past'.At(h - 1) == db.store.rows
            && (past.snapshots != [] ==> db.height == Pred(h))
  {
    if past.snapshots != [] {
      PushAt(past, rows, h - 1);
    }
  }

  /* ---------- whole runs ---------- */

  datatype Operation = CommitOp(changes: Changes, newHeights: seq<nat>) | RollbackOp | ReopenOp

  // An operation that fails leaves the database as it is.
  function Step(db: Db, op: Operation): (r: Db)
  {
    match op
    case CommitOp(changes, newHeights) =>
      var r := Commit(db, changes, newHeights);
      if r.Ok? then r.value else db
    case RollbackOp =>
      var r := Rollback(db);
      if r.Ok? then r.value else db
    case ReopenOp => Opened(db)
  }

  function Run(db: Db, ops: seq<Operation>): (r: Db)
  {
    if ops == [] then db else Step(Run(db, ops[..|ops| - 1]), ops[|ops| - 1])
  }

  // Changes come from the tables of a database, never from its metadata row.
  predicate Proper(desc: Description, op: Operation)
  {
    op.CommitOp? ==> MetadataRow !in op.changes && forall h :: h in op.newHeights ==> h <= desc.maxHeight
  }

  predicate AllProper(desc: Description, ops: seq<Operation>)
  {
    forall i :: 0 <= i < |ops| ==> Proper(desc, ops[i])
  }

  function NewDatabase(desc: Description): (r: Db)
  {
    Db(desc, Store(map[], map[], map[]), None)
  }

  // What a database should be: its past and the cached height, without undo records, row
  // versions or metadata.
  datatype Journal = Journal(past: Past, height: Option<nat>)

  const EMPTY_JOURNAL := Journal(Past(map[], 0, [], 0), None)

  function JournalStep(desc: Description, j: Journal, op: Operation): (r: Journal)
  {
    match op
    case CommitOp(changes, newHeights) =>
      var checked := CheckHeights(desc.maxHeight, j.height, newHeights);
      if checked.Err? then j
      else
        var rows := j.past.At(j.past.Top());
        var rows' := Applied(rows, AllChanges(desc, rows, changes, checked.value));
        Journal(NextPast(j.past, checked.value, rows'), if checked.value.Some? then checked.value else j.height)
    case RollbackOp =>
      if j.past.snapshots != [] && Oldest(desc.policy, j.past) <= j.past.Top()
      then Journal(j.past.Pop(), Pred(j.past.Top()))
      else j
    case ReopenOp => j.(height := if j.past.snapshots == [] then None else Some(j.past.Top()))
  }

  // The journal of a run from a new database.
  function JournalOf(desc: Description, ops: seq<Operation>): (r: Journal)
  {
    if ops == [] then EMPTY_JOURNAL
    else JournalStep(desc, JournalOf(desc, ops[..|ops| - 1]), ops[|ops| - 1])
  }

  lemma StepFollowsJournal(db: Db, j: Journal, op: Operation)
    requires Inv(db, j.past) && db.height == j.height && Proper(db.desc, op)
    ensures var db', j' := Step(db, op), JournalStep(db.desc, j, op);
            Inv(db', j'.past) && db'.height == j'.height && db'.desc == db.desc
  {
    match op
    case CommitOp(changes, newHeights) =>
      if Commit(db, changes, newHeights).Ok? {
        CommitKeepsInv(db, j.past, changes, newHeights);
      }
    case RollbackOp =>
      RollbackRestores(db, j.past);
    case ReopenOp =>
      LatestHeightIs(db, j.past);
  }

  // Every run of commits, rollbacks and reopenings of a new database follows the journal of its
  // operations: contents, metadata, cached height, and which commits can be undone.
  lemma {:induction false} RunFollowsJournal(desc: Description, ops: seq<Operation>)
    requires ValidDescription(desc) && AllProper(desc, ops)
    ensures var db, j := Run(NewDatabase(desc), ops), JournalOf(desc, ops);
            Inv(db, j.past) && db.height == j.height && db.desc == desc
    decreases |ops|
  {
    if ops != [] {
      var init := ops[..|ops| - 1];
      RunFollowsJournal(desc, init);
      StepFollowsJournal(Run(NewDatabase(desc), init), JournalOf(desc, init), ops[|ops| - 1]);
    }
  }

  /* ---------- cache and metadata ---------- */

  // The only commit, at a height above 0, is undone.
  predicate UndoesOnlyCommit(desc: Description, j: Journal, op: Operation)
  {
    op.RollbackOp? && |j.past.snapshots| == 1 && 0 < j.past.first && Oldest(desc.policy, j.past) <= j.past.first
  }

  // An operation without effect after that.
  predicate Ignored(first: nat, op: Operation)
  {
    op.RollbackOp? || (op.CommitOp? && op.newHeights != [first])
  }

  // The only commit was undone by operation `n`, and nothing has happened since.
  ghost predicate Stranded(desc: Description, ops: seq<Operation>, n: nat)
    requires n < |ops|
  {
    var j := JournalOf(desc, ops[..n]);
    UndoesOnlyCommit(desc, j, ops[n]) && forall i :: n < i < |ops| ==> Ignored(j.past.first, ops[i])
  }

  lemma StrandedBefore(desc: Description, ops: seq<Operation>, n: nat)
    requires n < |ops| - 1
    ensures Stranded(desc, ops, n) <==>
              && Stranded(desc, ops[..|ops| - 1], n)
              && Ignored(JournalOf(desc, ops[..n]).past.first, ops[|ops| - 1])
  {
    var init := ops[..|ops| - 1];
    assert init[..n] == ops[..n];
    assert forall i :: n < i < |init| ==> init[i] == ops[i];
  }

  // The cached height is that of the last commit; without one it may be left over.
  predicate ValidJournal(j: Journal)
  {
    if j.past.snapshots == [] then j.height == None || j.height == Pred(j.past.first)
    else j.height == Some(j.past.Top())
  }

  // Undoing the only commit strands the cache, and ignored operations leave it there.
  lemma StrandingStep(desc: Description, j: Journal, op: Operation)
    requires ValidJournal(j)
    ensures var j' := JournalStep(desc, j, op);
            && (UndoesOnlyCommit(desc, j, op) ==> IsStranded(j', j.past.first))
            && (j.past.snapshots == [] && j.height != None && Ignored(j.past.first, op) ==> j' == j)
  {
  }

  // There is no other way to it.
  lemma OnlyStranding(desc: Description, j: Journal, op: Operation)
    requires ValidJournal(j) && j.past.first <= desc.maxHeight
    requires var j' := JournalStep(desc, j, op); j'.past.snapshots == [] && j'.height != None
    ensures UndoesOnlyCommit(desc, j, op) || (j.past.snapshots == [] && j.height != None && Ignored(j.past.first, op))
  {
  }

  // An empty journal with the cache on the height before its first commit.
  predicate IsStranded(j: Journal, first: nat)
  {
    0 < first && j.past.snapshots == [] && j.past.first == first && j.height == Some(first - 1)
  }

  lemma {:induction false} StrandedJournal(desc: Description, ops: seq<Operation>, n: nat)
    requires ValidDescription(desc) && AllProper(desc, ops)
    requires n < |ops| && Stranded(desc, ops, n)
    ensures IsStranded(JournalOf(desc, ops), JournalOf(desc, ops[..n]).past.first)
    decreases |ops|
  {
    var init, last := ops[..|ops| - 1], ops[|ops| - 1];
    assert ops == init + [last];
    if n < |ops| - 1 {
      assert init[..n] == ops[..n];
      StrandedBefore(desc, ops, n);
      StrandedJournal(desc, init, n);
    }
    StrandedAgain(desc, init, last, JournalOf(desc, ops[..n]).past.first);
  }

  lemma StrandedAgain(desc: Description, init: seq<Operation>, last: Operation, first: nat)
    requires ValidDescription(desc) && AllProper(desc, init)
    requires var j := JournalOf(desc, init);
             || (UndoesOnlyCommit(desc, j, last) && first == j.past.first)
             || (IsStranded(j, first) && Ignored(first, last))
    ensures IsStranded(JournalOf(desc, init + [last]), first)
  {
    JournalIsValid(desc, init);
    StrandingStep(desc, JournalOf(desc, init), last);
    JournalSnoc(desc, init, last);
  }

  lemma JournalIsValid(desc: Description, ops: seq<Operation>)
    requires ValidDescription(desc) && AllProper(desc, ops)
    ensures ValidJournal(JournalOf(desc, ops)) && JournalOf(desc, ops).past.first <= desc.maxHeight
  {
    RunFollowsJournal(desc, ops);
  }

  // The cached height differs from the metadata exactly when the only commit, at a height above
  // 0, has been undone, and since then the database has neither been reopened nor got a commit
  // at that height again. The cache then holds the height before it.
  lemma {:induction false} CacheDiffersIff(desc: Description, ops: seq<Operation>)
    requires ValidDescription(desc) && AllProper(desc, ops)
    ensures var db := Run(NewDatabase(desc), ops);
            db.height != LatestHeight(db) <==> exists n :: 0 <= n < |ops| && Stranded(desc, ops, n)
    decreases |ops|
  {
    RunFollowsJournal(desc, ops);
    var db, j := Run(NewDatabase(desc), ops), JournalOf(desc, ops);
    LatestHeightIs(db, j.past);
    if n :| 0 <= n < |ops| && Stranded(desc, ops, n) {
      StrandedJournal(desc, ops, n);
    } else if ops != [] && db.height != LatestHeight(db) {
      var n := Stranding(desc, ops);
    }
  }

  lemma {:induction false} Stranding(desc: Description, ops: seq<Operation>) returns (n: nat)
    requires ValidDescription(desc) && AllProper(desc, ops)
    requires var j := JournalOf(desc, ops); j.past.snapshots == [] && j.height != None
    ensures n < |ops| && Stranded(desc, ops, n)
    decreases |ops|
  {
    n := |ops| - 1;
    var init := ops[..n];
    var j := JournalOf(desc, init);
    JournalIsValid(desc, init);
    OnlyStranding(desc, j, ops[n]);
    if !UndoesOnlyCommit(desc, j, ops[n]) {
      n := Stranding(desc, init);
      StrandedJournal(desc, init, n);
      assert init[..n] == ops[..n];
      StrandedBefore(desc, ops, n);
    }
  }

  // A commit at height 5 and its rollback leave the cache at 4, and no height in the metadata.
  lemma CacheIsStale(desc: Description, changes: Changes)
    requires ValidDescription(desc) && !desc.policy.NoRewind? && desc.maxHeight >= 5 && MetadataRow !in changes
    ensures var db := Run(NewDatabase(desc), [CommitOp(changes, [5]), RollbackOp]);
            db.height == Some(4) && LatestHeight(db) == None
  {
    var ops := [CommitOp(changes, [5]), RollbackOp];
    assert ops == [ops[0]] + [RollbackOp] && [ops[0]] == [] + [ops[0]];
    JournalSnoc(desc, [], ops[0]);
    JournalSnoc(desc, [ops[0]], RollbackOp);
    var past := JournalOf(desc, [ops[0]]).past;
    assert past.first == 5 && |past.snapshots| == 1 && past.peak == 5;
    RunFollowsJournal(desc, ops);
    LatestHeightIs(Run(NewDatabase(desc), ops), JournalOf(desc, ops).past);
  }

  // Commits at the heights 0 to `top`.
  function CommitsTo(top: nat): (r: seq<Operation>)
  {
    (if top == 0 then [] else CommitsTo(top - 1)) + [CommitOp(map[], [top])]
  }

  // The journal of a database with commits at the heights 0 to `top`, without rollbacks.
  predicate Reached(j: Journal, top: nat)
  {
    j.past.first == 0 && j.past.Top() == top && j.past.peak == top && j.height == Some(top)
  }

  lemma NextReached(desc: Description, j: Journal, top: nat)
    requires top < desc.maxHeight && Reached(j, top)
    ensures Reached(JournalStep(desc, j, CommitOp(map[], [top + 1])), top + 1)
  {
  }

  lemma FirstReached(desc: Description)
    ensures Reached(JournalStep(desc, EMPTY_JOURNAL, CommitOp(map[], [0])), 0)
  {
  }

  lemma {:induction false} CommitsAreProper(desc: Description, top: nat)
    requires top <= desc.maxHeight
    ensures AllProper(desc, CommitsTo(top))
  {
    if top > 0 {
      CommitsAreProper(desc, top - 1);
    }
  }

  lemma {:induction false} CommitsToReach(desc: Description, top: nat)
    requires top <= desc.maxHeight
    ensures Reached(JournalOf(desc, CommitsTo(top)), top)
    decreases top
  {
    var before := if top == 0 then [] else CommitsTo(top - 1);
    JournalSnoc(desc, before, CommitOp(map[], [top]));
    if top == 0 {
      FirstReached(desc);
    } else {
      CommitsToReach(desc, top - 1);
      NextReached(desc, JournalOf(desc, before), top - 1);
    }
  }

  /* ---------- how far back a bounded history reaches ---------- */

  // With the other policies there are records of all commits of the past, or of none.
  lemma RecordsOfRun(desc: Description, ops: seq<Operation>, h: nat)
    requires ValidDescription(desc) && AllProper(desc, ops) && !desc.policy.RewindRange?
    ensures var past := JournalOf(desc, ops).past;
            h in Run(NewDatabase(desc), ops).store.history
            <==> desc.policy == RewindFullRange && past.first <= h <= past.Top()
  {
    RunFollowsJournal(desc, ops);
  }

  // The commits that can be undone after a run: those less than `size` below the highest height
  // there has been. The record of height 0 goes as soon as there is another one.
  lemma RangeOfRecords(desc: Description, ops: seq<Operation>, h: nat)
    requires ValidDescription(desc) && AllProper(desc, ops) && desc.policy.RewindRange?
    ensures var past := JournalOf(desc, ops).past;
            h in Run(NewDatabase(desc), ops).store.history
            <==> past.first <= h <= past.Top() && past.peak < h + desc.policy.size && (h > 0 || past.peak == 0)
  {
    RunFollowsJournal(desc, ops);
  }

  // The last `size` commits can be undone exactly when no higher height has used up records, and
  // the record of height 0 is not among those needed.
  lemma LastCommitsUndoableIff(db: Db, past: Past, size: nat)
    requires Inv(db, past) && db.desc.policy == RewindRange(size) && past.snapshots != []
    ensures (forall h :: past.first <= h <= past.Top() && past.Top() < h + size ==> h in db.store.history)
            <==> && (past.peak == past.Top() || past.peak < past.first + size)
                 && (0 < past.first || past.peak == 0 || size <= past.Top())
  {
    var from := if past.Top() + 1 > size then Max(past.first, past.Top() + 1 - size) else past.first;
    assert past.first <= from <= past.Top() && past.Top() < from + size;
    assert from in db.store.history <==> Oldest(db.desc.policy, past) <= from;
  }

  // With room for ten records, the first of two commits cannot be undone if it is at height 0.
  lemma HeightZeroIsPruned(desc: Description, a: Changes, b: Changes)
    requires ValidDescription(desc) && desc.policy == RewindRange(10) && desc.maxHeight > 0
    requires MetadataRow !in a && MetadataRow !in b
    ensures var ops := [CommitOp(a, [0]), CommitOp(b, [1])];
            && JournalOf(desc, ops).past.Top() == 1
            && 0 !in Run(NewDatabase(desc), ops).store.history
  {
    var ops := [CommitOp(a, [0]), CommitOp(b, [1])];
    assert ops[..1] == [ops[0]] && ops[..1][..0] == [];
    assert JournalOf(desc, ops[..1][..0]) == EMPTY_JOURNAL;
    var j := JournalOf(desc, ops[..1]);
    assert j.past.first == 0 && |j.past.snapshots| == 1 && j.height == Some(0) && j.past.peak == 0;
    RangeOfRecords(desc, ops, 0);
  }

  function Rollbacks(n: nat): (r: seq<Operation>)
    ensures |r| == n
  {
    if n == 0 then [] else Rollbacks(n - 1) + [RollbackOp]
  }

  // How many commits can be undone in a row.
  function Depth(policy: StateRewindPolicy, past: Past): (r: nat)
  {
    if past.snapshots == [] || past.Top() < Oldest(policy, past) then 0 else past.Top() + 1 - Oldest(policy, past)
  }

  // A past without its last `n` commits, or as many as can be undone.
  function Undone(policy: StateRewindPolicy, past: Past, n: nat): (r: Past)
    requires Depth(policy, past) <= |past.snapshots|
  {
    var undone := if n < Depth(policy, past) then n else Depth(policy, past);
    past.(snapshots := past.snapshots[..|past.snapshots| - undone])
  }

  lemma DepthIsBounded(policy: StateRewindPolicy, past: Past)
    ensures Depth(policy, past) <= |past.snapshots|
  {
  }

  lemma UndoneOnce(desc: Description, past: Past, n: nat, j: Journal)
    requires Depth(desc.policy, past) <= |past.snapshots| && j.past == Undone(desc.policy, past, n)
    ensures JournalStep(desc, j, RollbackOp).past == Undone(desc.policy, past, n + 1)
  {
    assert Oldest(desc.policy, j.past) == Oldest(desc.policy, past);
    if n < Depth(desc.policy, past) {
      var s, left := past.snapshots, |past.snapshots| - n;
      assert s[..left][..left - 1] == s[..left - 1];
    }
  }

  lemma JournalSnoc(desc: Description, ops: seq<Operation>, op: Operation)
    ensures JournalOf(desc, ops + [op]) == JournalStep(desc, JournalOf(desc, ops), op)
  {
    assert (ops + [op])[..|ops|] == ops;
  }

  lemma {:induction false} JournalAfterRollbacks(desc: Description, ops: seq<Operation>, n: nat)
    ensures Depth(desc.policy, JournalOf(desc, ops).past) <= |JournalOf(desc, ops).past.snapshots|
    ensures JournalOf(desc, ops + Rollbacks(n)).past == Undone(desc.policy, JournalOf(desc, ops).past, n)
    decreases n
  {
    var past := JournalOf(desc, ops).past;
    DepthIsBounded(desc.policy, past);
    if n == 0 {
      assert ops + Rollbacks(0) == ops;
    } else {
      JournalAfterRollbacks(desc, ops, n - 1);
      var before := ops + Rollbacks(n - 1);
      assert ops + Rollbacks(n) == before + [RollbackOp];
      JournalSnoc(desc, before, RollbackOp);
      UndoneOnce(desc, past, n - 1, JournalOf(desc, before));
    }
  }

  lemma {:induction false} RollbacksAreProper(desc: Description, n: nat)
    ensures AllProper(desc, Rollbacks(n))
  {
    if n > 0 {
      RollbacksAreProper(desc, n - 1);
    }
  }

  ghost function Interval(low: nat, high: int): (r: set<nat>)
    ensures forall h: nat :: h in r <==> low <= h <= high
    ensures |r| == if low <= high then high + 1 - low else 0
    decreases high - low
  {
    if low > high then {} else Interval(low, high - 1) + {high}
  }

  lemma DepthIsRecords(db: Db, past: Past)
    requires Inv(db, past)
    ensures |db.store.history.Keys| == Depth(db.desc.policy, past)
  {
    assert db.store.history.Keys == Interval(Oldest(db.desc.policy, past), past.Top());
  }

  // After any run, an acceptable commit makes its changes to the contents, and any other is ignored.
  lemma CommitAfterRun(desc: Description, ops: seq<Operation>, changes: Changes, newHeights: seq<nat>)
    requires ValidDescription(desc) && AllProper(desc, ops)
    ensures var j, j' := JournalOf(desc, ops), JournalOf(desc, ops + [CommitOp(changes, newHeights)]);
            if Acceptable(desc.maxHeight, j.height, newHeights) then
              && CommitMade(j.past.At(j.past.Top()), j'.past.At(j'.past.Top()), changes, newHeights)
              && j'.height == (if newHeights == [] then None else Some(newHeights[0]))
              && (newHeights != [] ==> PastStays(j.past, j'.past, newHeights[0]))
            else j' == j
  {
    var j, op := JournalOf(desc, ops), CommitOp(changes, newHeights);
    JournalSnoc(desc, ops, op);
    JournalIsValid(desc, ops);
    if Acceptable(desc.maxHeight, j.height, newHeights) {
      CommitStepMakes(desc, j, changes, newHeights);
    }
  }

  lemma CommitStepMakes(desc: Description, j: Journal, changes: Changes, newHeights: seq<nat>)
    requires ValidJournal(j) && Acceptable(desc.maxHeight, j.height, newHeights)
    ensures var j' := JournalStep(desc, j, CommitOp(changes, newHeights));
            && CommitMade(j.past.At(j.past.Top()), j'.past.At(j'.past.Top()), changes, newHeights)
            && j'.height == (if newHeights == [] then None else Some(newHeights[0]))
            && (newHeights != [] ==> PastStays(j.past, j'.past, newHeights[0]))
  {
    var newHeight := if newHeights == [] then None else Some(newHeights[0]);
    assert CheckHeights(desc.maxHeight, j.height, newHeights) == Ok(newHeight);
    var rows := j.past.At(j.past.Top());
    var rows' := Applied(rows, AllChanges(desc, rows, changes, newHeight));
    LastIsNew(j.past, newHeight, rows');
    RowsMade(desc, rows, changes, newHeights);
  }

  // A commit at height `h` leaves the contents at earlier heights alone.
  ghost predicate PastStays(past: Past, past': Past, h: nat)
  {
    && past'.Top() == h && past'.base == past.base
    && (past.snapshots == [] ==> past'.first == h)
    && (past.snapshots != [] ==>
        && past'.first == past.first && past.Top() == h - 1
        && forall i :: past.first <= i < h ==> past'.At(i) == past.At(i))
  }

  lemma LastIsNew(past: Past, newHeight: Option<nat>, rows: Rows)
    requires newHeight.None? ==> past.snapshots == []
    ensures var past' := NextPast(past, newHeight, rows);
            past'.At(past'.Top()) == rows
  {
  }

  lemma RowsMade(desc: Description, rows: Rows, changes: Changes, newHeights: seq<nat>)
    ensures var newHeight := if newHeights == [] then None else Some(newHeights[0]);
            CommitMade(rows, Applied(rows, AllChanges(desc, rows, changes, newHeight)), changes, newHeights)
  {
  }

  // From any run, rollbacks undo exactly as many commits as there are records, and no more.
  lemma RollbackDepth(desc: Description, ops: seq<Operation>, n: nat)
    requires ValidDescription(desc) && AllProper(desc, ops)
    ensures Depth(desc.policy, JournalOf(desc, ops).past) == |Run(NewDatabase(desc), ops).store.history.Keys|
    ensures Depth(desc.policy, JournalOf(desc, ops).past) <= |JournalOf(desc, ops).past.snapshots|
    ensures Inv(Run(NewDatabase(desc), ops + Rollbacks(n)), Undone(desc.policy, JournalOf(desc, ops).past, n))
  {
    RunFollowsJournal(desc, ops);
    DepthIsRecords(Run(NewDatabase(desc), ops), JournalOf(desc, ops).past);
    JournalAfterRollbacks(desc, ops, n);
    RollbacksAreProper(desc, n);
    RunFollowsJournal(desc, ops + Rollbacks(n));
  }

  /** A database of the node. */
  class LinkedDatabase {
    const desc: Description
    var store: Store
    var height: Option<nat>
    ghost var past: Past

    ghost function View(): Db
      reads this
    {
      Db(desc, store, height)
    }

    ghost predicate Valid()
      reads this
    {
      Inv(View(), past)
    }

    // Opens a stored database.
    constructor (desc: Description, store: Store, ghost past: Past)
      requires Inv(Db(desc, store, MetadataHeight(store.rows)), past)
      ensures this.desc == desc && this.store == store && this.past == past
      ensures View() == Opened(View()) && Valid()
    {
      this.desc, this.store, this.past := desc, store, past;
      height := MetadataHeight(store.rows);
    }

    method LatestHeightFromMetadata() returns (r: Option<nat>)
      requires Valid()
      ensures r == LatestHeight(View())
      ensures r == if past.snapshots == [] then None else Some(past.Top())
    {
      LatestHeightIs(View(), past);
      r := MetadataHeight(store.rows);
    }

    // An acceptable commit makes its changes; on an error nothing has changed.
    method CommitChanges(changes: Changes, newHeights: seq<nat>) returns (error: Option<DatabaseError>)
      requires Valid()
      requires MetadataRow !in changes && forall h :: h in newHeights ==> h <= desc.maxHeight
      modifies this
      ensures Valid()
      ensures error == None <==> Acceptable(desc.maxHeight, old(height), newHeights)
      ensures error == None ==> CommitMade(old(store.rows), store.rows, changes, newHeights)
      ensures match Commit(old(View()), changes, newHeights)
              case Ok(db) =>
                var newHeight := if newHeights == [] then None else Some(newHeights[0]);
                error == None && View() == db && past == NextPast(old(past), newHeight, db.store.rows)
              case Err(e) => error == Some(e) && View() == old(View()) && past == old(past)
    {
      AcceptedIff(View(), changes, newHeights);
      if |newHeights| > 1 {
        return Some(MultipleHeightsInCommit);
      }
      var newHeight := if newHeights == [] then None else Some(newHeights[0]);
      if height.Some? {
        if newHeight.None? {
          return Some(NewHeightIsNotSet(height.value));
        }
        if height.value >= desc.maxHeight {
          return Some(FailedToAdvanceHeight);
        }
        if newHeight.value != height.value + 1 {
          return Some(HeightsAreNotLinked(height.value, newHeight.value));
        }
      }
      CommitKeepsInv(View(), past, changes, newHeights);
      CommitMakesChanges(View(), changes, newHeights);
      var all := changes;
      if newHeight.Some? {
        var metadata := UpdatedMetadata(desc, store.rows, newHeight.value);
        all := all[MetadataRow := Insert(Meta(metadata))];
      }
      store := Committed(store, desc.policy, newHeight, all);
      past := NextPast(past, newHeight, store.rows);
      if newHeight.Some? {
        height := newHeight;
      }
      error := None;
    }

    // Undoes the last commit, which needs its record; otherwise nothing changes.
    method RollbackLastBlock() returns (error: Option<DatabaseError>)
      requires Valid()
      modifies this
      ensures Valid()
      ensures error == None <==> old(past.snapshots) != [] && Oldest(desc.policy, old(past)) <= old(past.Top())
      ensures error == None ==> past == old(past.Pop()) && height == Pred(old(past.Top()))
      ensures error != None ==> View() == old(View()) && past == old(past)
      ensures error == Some(NoHeightToRollback) <==> old(height) == None
    {
      ghost var db, before := View(), past;
      RollbackRestores(db, before);
      error := None;
      if height.None? {
        error := Some(NoHeightToRollback);
      } else {
        var restored := RolledBack(store, height.value);
        if restored.None? {
          error := Some(HistoryNotFound);
        } else {
          store := restored.value;
          height := Pred(height.value);
          past := before.Pop();
          assert View() == Rollback(db).value;
        }
      }
    }
  }
}
