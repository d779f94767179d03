/**
 A key-value store that remembers, for each committed height, how to undo that commit.
 */
module HistoricalStore {
  import opened Wrappers
  import opened ByteKeys

  // The row that holds a database's metadata, and all other rows.
  datatype RowKey = MetadataRow | Row(table: nat, key: ByteString)

  datatype Metadata = V1(version: nat, height: nat) | V2(version: nat, height: nat, indexation: set<nat>)

  datatype RowValue = Meta(metadata: Metadata) | Bytes(bytes: ByteString)

  datatype WriteOperation = Insert(value: RowValue) | Remove

  type Rows = map<RowKey, RowValue>

  type Changes = map<RowKey, WriteOperation>

  datatype StateRewindPolicy = NoRewind | RewindFullRange | RewindRange(size: nat)

  // `history` maps a height to the changes that undo its commit; `versions` holds the same
  // operations row by row.
  datatype Store = Store(rows: Rows, history: map<nat, Changes>, versions: map<(RowKey, nat), WriteOperation>)

  /* ---------- changes and their reverse ---------- */

  function Applied(rows: Rows, changes: Changes): (r: Rows)
  {
    map k | k in rows.Keys + changes.Keys && (k in changes ==> changes[k].Insert?) ::
      if k in changes then changes[k].value else rows[k]
  }

  // A change that leaves its row as it was needs no undoing.
  function Reversed(rows: Rows, changes: Changes): (r: Changes)
  {
    map k | k in changes && !(if k in rows then changes[k] == Insert(rows[k]) else changes[k].Remove?) ::
      if k in rows then Insert(rows[k]) else Remove
  }

  // The rows after some changes: inserted rows have their new value, removed rows are gone, and all
  // others are as they were.
  ghost predicate Made(before: Rows, after: Rows, changes: Changes)
  {
    forall k :: RowMade(before, after, changes, k)
  }

  ghost predicate RowMade(before: Rows, after: Rows, changes: Changes, k: RowKey)
  {
    if k in changes then
      match changes[k]
      case Insert(v) => k in after && after[k] == v
      case Remove => k !in after
    else (k in after <==> k in before) && (k in before ==> k in after && after[k] == before[k])
  }

  lemma AppliedIs(rows: Rows, changes: Changes)
    ensures Made(rows, Applied(rows, changes), changes)
  {
  }

  // The reverse changes mention exactly the rows that a change makes different.
  lemma ReversedIs(rows: Rows, changes: Changes, k: RowKey)
    ensures var after := Applied(rows, changes);
            k in Reversed(rows, changes)
            <==> (k in rows) != (k in after) || (k in rows && k in after && rows[k] != after[k])
  {
  }

  lemma ReverseUndoes(rows: Rows, changes: Changes)
    ensures Applied(Applied(rows, changes), Reversed(rows, changes)) == rows
  {
  }

  /* ---------- commits and rollbacks ---------- */

  function WithoutVersions(versions: map<(RowKey, nat), WriteOperation>, keys: set<RowKey>, height: nat)
    : (r: map<(RowKey, nat), WriteOperation>)
  {
    map p | p in versions && !(p.1 == height && p.0 in keys) :: versions[p]
  }

  function WithVersions(versions: map<(RowKey, nat), WriteOperation>, changes: Changes, height: nat)
    : (r: map<(RowKey, nat), WriteOperation>)
  {
    map p | p in versions.Keys + (set k | k in changes :: (k, height)) ::
      if p.1 == height && p.0 in changes then changes[p.0] else versions[p]
  }

  // Forgets how to undo the commit at `height`.
  function Forgotten(s: Store, height: nat): (r: Store)
  {
    if height !in s.history then s
    else s.(history := s.history - {height}, versions := WithoutVersions(s.versions, s.history[height].Keys, height))
  }

  // The height that leaves a bounded history when `height` is committed.
  function OldHeight(policy: StateRewindPolicy, height: nat): (r: Option<nat>)
  {
    match policy
    case RewindRange(size) => Some(if height <= size then 0 else height - size)
    case _ => None
  }

  // `commit_changes` with a height: record how to undo the changes, then make them.
  function Committed(s: Store, policy: StateRewindPolicy, height: Option<nat>, changes: Changes): (r: Store)
  {
    if height.None? || policy.NoRewind? then s.(rows := Applied(s.rows, changes))
    else
      var reverse := Reversed(s.rows, changes);
      var pruned := OldHeight(policy, height.value);
      var s1 := if pruned.Some? then Forgotten(s, pruned.value) else s;
      // a record of the same height is replaced
      var s2 := Forgotten(s1, height.value);
      Store(Applied(s.rows, changes), s2.history[height.value := reverse],
            WithVersions(s2.versions, reverse, height.value))
  }

  // `rollback_block_to`.
  function RolledBack(s: Store, height: nat): (r: Option<Store>)
  {
    if height !in s.history then None
    else Some(Forgotten(s, height).(rows := Applied(s.rows, s.history[height])))
  }

  // Every undo operation is recorded row by row as well.
  ghost predicate VersionsMatch(s: Store)
  {
    && (forall k, h :: (k, h) in s.versions <==> h in s.history && k in s.history[h])
    && (forall k, h :: (k, h) in s.versions ==> s.versions[(k, h)] == s.history[h][k])
  }

  lemma ForgottenMatches(s: Store, height: nat)
    requires VersionsMatch(s)
    ensures VersionsMatch(Forgotten(s, height))
  {
  }

  lemma RecordedMatches(s: Store, reverse: Changes, height: nat, rows: Rows)
    requires VersionsMatch(s) && height !in s.history
    ensures VersionsMatch(Store(rows, s.history[height := reverse], WithVersions(s.versions, reverse, height)))
  {
    RecordedVersions(s.versions, reverse, height);
    var history, versions := s.history[height := reverse], WithVersions(s.versions, reverse, height);
    forall k, h ensures (k, h) in versions <==> h in history && k in history[h] {
      assert (k, h) in s.versions <==> h in s.history && k in s.history[h];
    }
    forall k, h | (k, h) in versions ensures versions[(k, h)] == history[h][k] {
      assert h != height ==> s.versions[(k, h)] == s.history[h][k];
    }
  }

  lemma RecordedVersions(versions: map<(RowKey, nat), WriteOperation>, reverse: Changes, height: nat)
    ensures var r := WithVersions(versions, reverse, height);
            && (forall k, h :: (k, h) in r <==> (h == height && k in reverse) || (k, h) in versions)
            && (forall k, h :: (k, h) in r ==>
                  r[(k, h)] == if h == height && k in reverse then reverse[k] else versions[(k, h)])
  {
  }

  lemma CommittedMatches(s: Store, policy: StateRewindPolicy, height: Option<nat>, changes: Changes)
    requires VersionsMatch(s)
    ensures VersionsMatch(Committed(s, policy, height, changes))
  {
    if height.Some? && !policy.NoRewind? {
      var pruned := OldHeight(policy, height.value);
      var s1 := if pruned.Some? then Forgotten(s, pruned.value) else s;
      if pruned.Some? {
        ForgottenMatches(s, pruned.value);
      }
      ForgottenMatches(s1, height.value);
      RecordedMatches(Forgotten(s1, height.value), Reversed(s.rows, changes), height.value, Applied(s.rows, changes));
    }
  }

  function PrunedHeights(policy: StateRewindPolicy, height: nat): (r: set<nat>)
  {
    var pruned := OldHeight(policy, height);
    if pruned.Some? then {pruned.value} else {}
  }

  // A commit with a height leaves one record for that height.
  lemma CommittedHistory(s: Store, policy: StateRewindPolicy, height: nat, changes: Changes)
    requires !policy.NoRewind?
    ensures Committed(s, policy, Some(height), changes).history
            == (s.history - PrunedHeights(policy, height))[height := Reversed(s.rows, changes)]
  {
    var pruned := OldHeight(policy, height);
    var s1 := if pruned.Some? then Forgotten(s, pruned.value) else s;
    assert s1.history == s.history - PrunedHeights(policy, height);
    var reverse := Reversed(s.rows, changes);
    assert Forgotten(s1, height).history[height := reverse] == s1.history[height := reverse];
  }

  lemma ForgottenHistory(s: Store, height: nat)
    ensures Forgotten(s, height).history == s.history - {height} && Forgotten(s, height).rows == s.rows
  {
  }

  // With an unbounded history, rolling back is the exact inverse of committing: rows, undo
  // records and their copies by row are all as before.
  lemma RollbackInvertsCommit(s: Store, height: nat, changes: Changes)
    requires VersionsMatch(s) && height !in s.history
    ensures RolledBack(Committed(s, RewindFullRange, Some(height), changes), height) == Some(s)
  {
    CommittedIsRecorded(s, height, changes);
    UndoRecorded(s, height, Applied(s.rows, changes), Reversed(s.rows, changes));
    ReverseUndoes(s.rows, changes);
  }

  function Recorded(s: Store, height: nat, rows: Rows, reverse: Changes): (r: Store)
  {
    Store(rows, s.history[height := reverse], WithVersions(s.versions, reverse, height))
  }

  lemma CommittedIsRecorded(s: Store, height: nat, changes: Changes)
    requires height !in s.history
    ensures Committed(s, RewindFullRange, Some(height), changes)
            == Recorded(s, height, Applied(s.rows, changes), Reversed(s.rows, changes))
  {
  }

  lemma UndoRecorded(s: Store, height: nat, rows: Rows, reverse: Changes)
    requires VersionsMatch(s) && height !in s.history
    ensures RolledBack(Recorded(s, height, rows, reverse), height) == Some(s.(rows := Applied(rows, reverse)))
  {
    assert s.history[height := reverse] - {height} == s.history;
    VersionsRestored(s.versions, reverse, height);
  }

  lemma VersionsRestored(versions: map<(RowKey, nat), WriteOperation>, changes: Changes, height: nat)
    requires forall k :: (k, height) !in versions
    ensures WithoutVersions(WithVersions(versions, changes, height), changes.Keys, height) == versions
  {
    var r := WithoutVersions(WithVersions(versions, changes, height), changes.Keys, height);
    forall p ensures p in r <==> p in versions {
      assert p == (p.0, p.1);
    }
  }
}
