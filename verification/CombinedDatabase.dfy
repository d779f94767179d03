/**
 The databases of a node, rolled back together.
 */
module CombinedDatabase {
  import opened Wrappers
  import opened Integers
  import opened HistoricalStore
  import opened Database

  datatype Member = OnChain | OffChain | GasPrice | Compression | Relayer

  datatype RollbackError =
    | NoHeight(member: Member)
    | LessThanTarget(member: Member)
    | DatabaseFailure(error: DatabaseError)
    | Cancelled

  /* ---------- one database and a target height ---------- */

  // The past of a database and the height of its oldest undo record.
  datatype Ledger = Ledger(past: Past, oldest: nat) {

    predicate Above(target: nat)
    {
      past.snapshots != [] && past.Top() > target
    }

    predicate Behind(target: nat)
    {
      past.snapshots != [] && past.Top() < target
    }

    // The contents at the target height are part of the past.
    predicate Holds(target: nat)
    {
      past.first <= target <= past.Top()
    }

    // Every commit above the target has an undo record.
    predicate Undoable(target: nat)
    {
      Above(target) ==> oldest <= Max(past.first, target + 1)
    }

    function Height(): (r: Option<nat>)
    {
      if past.snapshots == [] then None else Some(past.Top())
    }

    // After one rollback, if the database is above the target.
    function Lowered(target: nat): (r: Ledger)
    {
      if Above(target) then Ledger(past.Pop(), oldest) else this
    }

    predicate CanLower(target: nat)
    {
      Above(target) ==> oldest <= past.Top()
    }

    function LoweredIfPossible(target: nat): (r: Ledger)
    {
      if CanLower(target) then Lowered(target) else this
    }
  }

  // The past without the commits above the target.
  function Truncated(past: Past, target: nat): (r: Past)
  {
    if past.snapshots == [] || past.Top() <= target then past
    else past.(snapshots := past.snapshots[..if target < past.first then 0 else target + 1 - past.first])
  }

  // What is left after truncation: the contents after the last commit at or below the target.
  lemma TruncatedIs(past: Past, target: nat, h: int)
    requires past.first - 1 <= h <= past.Top() && h <= target
    ensures var r := Truncated(past, target);
            && h <= r.Top() && r.At(h) == past.At(h)
            && (r.snapshots != [] ==> r.Top() <= target)
            && (past.first <= target <= past.Top() ==> r.snapshots != [] && r.Top() == target)
  {
  }

  lemma LoweredTruncates(l: Ledger, target: nat)
    ensures Truncated(l.Lowered(target).past, target) == Truncated(l.past, target)
  {
    if l.Above(target) {
      var n := if target < l.past.first then 0 else target + 1 - l.past.first;
      assert l.past.snapshots[..|l.past.snapshots| - 1][..n] == l.past.snapshots[..n];
    }
  }

  lemma LoweredUndoable(l: Ledger, target: nat)
    ensures l.Undoable(target) <==> l.CanLower(target) && l.Lowered(target).Undoable(target)
  {
  }

  ghost function LedgerOf(db: LinkedDatabase): Ledger
    reads db
  {
    Ledger(db.past, Oldest(db.desc.policy, db.past))
  }

  // The ledger of a database tells which commits have their undo records.
  lemma UndoableIff(db: Db, past: Past, target: nat)
    requires Inv(db, past)
    ensures Ledger(past, Oldest(db.desc.policy, past)).Undoable(target)
            <==> forall h :: past.first <= h <= past.Top() && target < h ==> h in db.store.history
  {
    var h := Max(past.first, target + 1);
    assert h in db.store.history <==> Oldest(db.desc.policy, past) <= h <= past.Top();
  }

  // With a bounded history: the target is less than `size` below the highest height there has
  // been, and height 0 does not have to be undone.
  lemma BoundedUndoableIff(past: Past, size: nat, target: nat)
    requires past.snapshots != [] && target < past.Top() <= past.peak && size > 0
    ensures var h := Max(past.first, target + 1);
            Ledger(past, Oldest(RewindRange(size), past)).Undoable(target) <==> past.peak < h + size
  {
  }

  // One rollback, if the database is above the target.
  method RollbackIfAbove(db: LinkedDatabase, height: Option<nat>, target: nat) returns (error: Option<DatabaseError>)
    requires db.Valid() && height == LedgerOf(db).Height()
    modifies db
    ensures db.Valid()
    ensures error == None <==> old(LedgerOf(db)).CanLower(target)
    ensures LedgerOf(db) == old(LedgerOf(db)).LoweredIfPossible(target)
    ensures error != None || !old(LedgerOf(db)).Above(target) ==> db.View() == old(db.View()) && db.past == old(db.past)
  {
    error := None;
    if height.Some? && height.value > target {
      error := db.RollbackLastBlock();
    }
  }

  predicate IsEqualOrLessThanOrNone(left: Option<nat>, right: nat)
  {
    left.None? || left.value <= right
  }

  predicate IsEqualOrNone(left: Option<nat>, right: nat)
  {
    left.None? || left.value == right
  }

  // Tells a long operation that the node is shutting down: the poll from which on a signal is
  // there, if it ever comes, and the number of polls so far.
  datatype ShutdownListener = ShutdownListener(signal: Option<nat>, polls: nat) {

    // Some poll has met the signal.
    predicate Seen()
    {
      signal.Some? && signal.value < polls
    }

    // One of the first `n` polls meets the signal.
    predicate SeenWithin(n: nat)
    {
      signal.Some? && signal.value < n
    }

    // The next poll meets the signal.
    predicate Pending()
    {
      signal.Some? && signal.value <= polls
    }

    function Polled(): (r: ShutdownListener)
    {
      this.(polls := polls + 1)
    }
  }

  /* ---------- five databases and a target height ---------- */

  datatype Ledgers = Ledgers(on: Ledger, off: Ledger, gas: Ledger, comp: Ledger, agg: Ledger) {

    // Nothing is left to undo.
    predicate RolledBack(target: nat)
    {
      && on.Holds(target) && !on.Above(target) && off.Holds(target) && !off.Above(target)
      && !gas.Above(target) && !comp.Above(target) && !agg.Above(target)
    }

    // The first database behind the target, in the order in which they are looked at.
    function FirstBehind(target: nat): (r: Option<Member>)
    {
      if on.Behind(target) then Some(OnChain)
      else if off.Behind(target) then Some(OffChain)
      else if gas.Behind(target) then Some(GasPrice)
      else if comp.Behind(target) then Some(Compression)
      else None
    }

    predicate NoneBehind(target: nat)
    {
      !on.Behind(target) && !off.Behind(target) && !gas.Behind(target) && !comp.Behind(target)
    }

    predicate AllCanLower(target: nat)
    {
      && on.CanLower(target) && off.CanLower(target) && gas.CanLower(target)
      && comp.CanLower(target) && agg.CanLower(target)
    }

    predicate AllUndoable(target: nat)
    {
      && on.Undoable(target) && off.Undoable(target) && gas.Undoable(target)
      && comp.Undoable(target) && agg.Undoable(target)
    }

    // When a rollback goes through: on-chain and off-chain hold the target, every commit above
    // it can be undone, and no database lags behind the target, unless there is nothing to do.
    predicate CanRollBack(target: nat)
    {
      && on.Holds(target) && off.Holds(target)
      && AllUndoable(target)
      && (NoneBehind(target) || RolledBack(target))
    }

    // One database after the other loses a commit, up to the first that cannot.
    function LoweredInTurn(target: nat): (r: Ledgers)
    {
      var onOk := on.CanLower(target);
      var offOk := onOk && off.CanLower(target);
      var gasOk := offOk && gas.CanLower(target);
      var compOk := gasOk && comp.CanLower(target);
      Ledgers(on.LoweredIfPossible(target),
              if onOk then off.LoweredIfPossible(target) else off,
              if offOk then gas.LoweredIfPossible(target) else gas,
              if gasOk then comp.LoweredIfPossible(target) else comp,
              if compOk then agg.LoweredIfPossible(target) else agg)
    }

    function Lowered(target: nat): (r: Ledgers)
    {
      Ledgers(on.Lowered(target), off.Lowered(target), gas.Lowered(target), comp.Lowered(target), agg.Lowered(target))
    }

    // How many rounds it takes to undo the commits above the target.
    function Rounds(target: nat): (r: nat)
    {
      MostExcess([on, off, gas, comp, agg], target)
    }
  }

  // How many commits of a database are above the target.
  function ExcessOf(l: Ledger, target: nat): (r: nat)
  {
    if !l.Above(target) then 0
    else if l.past.first <= target then l.past.Top() - target else |l.past.snapshots|
  }

  function MostExcess(ls: seq<Ledger>, target: nat): (r: nat)
  {
    if ls == [] then 0 else Max(ExcessOf(ls[0], target), MostExcess(ls[1..], target))
  }

  lemma LoweredExcess(l: Ledger, target: nat)
    ensures ExcessOf(l.Lowered(target), target) == if l.Above(target) then ExcessOf(l, target) - 1 else 0
    ensures l.Above(target) <==> ExcessOf(l, target) > 0
  {
  }

  // A round brings the databases one step closer to the target.
  lemma {:induction false} LoweredMost(ls: seq<Ledger>, lowered: seq<Ledger>, target: nat)
    requires |lowered| == |ls| && forall i :: 0 <= i < |ls| ==> lowered[i] == ls[i].Lowered(target)
    ensures MostExcess(lowered, target) == if MostExcess(ls, target) == 0 then 0 else MostExcess(ls, target) - 1
    ensures MostExcess(ls, target) > 0 <==> exists i :: 0 <= i < |ls| && ls[i].Above(target)
    decreases |ls|
  {
    if ls != [] {
      LoweredExcess(ls[0], target);
      LoweredMost(ls[1..], lowered[1..], target);
      if i :| 0 < i < |ls| && ls[i].Above(target) {
        assert ls[1..][i - 1].Above(target);
      }
      if i :| 0 <= i < |ls| - 1 && ls[1..][i].Above(target) {
        assert ls[i + 1].Above(target);
      }
    }
  }

  lemma LoweredRounds(ls: Ledgers, target: nat)
    ensures ls.Lowered(target).Rounds(target) == if ls.Rounds(target) == 0 then 0 else ls.Rounds(target) - 1
    ensures ls.Rounds(target) > 0 <==>
            || ls.on.Above(target) || ls.off.Above(target) || ls.gas.Above(target)
            || ls.comp.Above(target) || ls.agg.Above(target)
  {
    var all, low := [ls.on, ls.off, ls.gas, ls.comp, ls.agg], ls.Lowered(target);
    LoweredMost(all, [low.on, low.off, low.gas, low.comp, low.agg], target);
    assert all[0] == ls.on && all[1] == ls.off && all[2] == ls.gas && all[3] == ls.comp && all[4] == ls.agg;
  }

  ghost predicate SameTruncation(a: Ledgers, b: Ledgers, target: nat)
  {
    && Truncated(a.on.past, target) == Truncated(b.on.past, target)
    && Truncated(a.off.past, target) == Truncated(b.off.past, target)
    && Truncated(a.gas.past, target) == Truncated(b.gas.past, target)
    && Truncated(a.comp.past, target) == Truncated(b.comp.past, target)
    && Truncated(a.agg.past, target) == Truncated(b.agg.past, target)
  }

  ghost predicate Truncates(after: Ledgers, before: Ledgers, target: nat)
  {
    && after.on.past == Truncated(before.on.past, target)
    && after.off.past == Truncated(before.off.past, target)
    && after.gas.past == Truncated(before.gas.past, target)
    && after.comp.past == Truncated(before.comp.past, target)
    && after.agg.past == Truncated(before.agg.past, target)
  }

  // Once nothing is above the target, the databases are truncated, and on-chain and off-chain
  // end with the contents at the target.
  lemma DoneTruncates(now: Ledgers, start: Ledgers, target: nat)
    requires now.RolledBack(target) && SameTruncation(now, start, target)
    requires start.CanRollBack(target)
    ensures Truncates(now, start, target)
    ensures now.on.past.At(now.on.past.Top()) == start.on.past.At(target)
    ensures now.off.past.At(now.off.past.Top()) == start.off.past.At(target)
  {
    TruncatedIs(start.on.past, target, target);
    TruncatedIs(start.off.past, target, target);
  }

  // A round of rollbacks does not change whether the rollback goes through, nor its result.
  lemma RoundKeepsOutcome(ls: Ledgers, target: nat)
    requires ls.NoneBehind(target)
    ensures !ls.AllCanLower(target) ==> !ls.CanRollBack(target)
    ensures ls.AllCanLower(target) ==>
              && ls.Lowered(target).NoneBehind(target)
              && (ls.Lowered(target).CanRollBack(target) <==> ls.CanRollBack(target))
    ensures SameTruncation(ls.Lowered(target), ls, target)
  {
    LoweredUndoable(ls.on, target);
    LoweredUndoable(ls.off, target);
    LoweredUndoable(ls.gas, target);
    LoweredUndoable(ls.comp, target);
    LoweredUndoable(ls.agg, target);
    LoweredTruncates(ls.on, target);
    LoweredTruncates(ls.off, target);
    LoweredTruncates(ls.gas, target);
    LoweredTruncates(ls.comp, target);
    LoweredTruncates(ls.agg, target);
  }

  // A round that fails midway has not touched what is left to keep.
  lemma InTurnTruncates(ls: Ledgers, target: nat)
    ensures SameTruncation(ls.LoweredInTurn(target), ls, target)
    ensures ls.AllCanLower(target) ==> ls.LoweredInTurn(target) == ls.Lowered(target)
  {
    LoweredTruncates(ls.on, target);
    LoweredTruncates(ls.off, target);
    LoweredTruncates(ls.gas, target);
    LoweredTruncates(ls.comp, target);
    LoweredTruncates(ls.agg, target);
  }

  // Neither the result of the rollback nor whether it goes through has changed.
  ghost predicate Resumable(before: Ledgers, after: Ledgers, target: nat)
  {
    && (after.CanRollBack(target) <==> before.CanRollBack(target))
    && SameTruncation(after, before, target)
  }

  // A round that goes on has undone something and changed nothing else.
  ghost predicate Progress(before: Ledgers, after: Ledgers, target: nat)
  {
    && after.Rounds(target) + 1 == before.Rounds(target)
    && after.NoneBehind(target)
    && Resumable(before, after, target)
  }

  datatype Decision = Done | Refuse(error: RollbackError) | Continue

  // What a round of the rollback decides from the heights.
  function Decide(on: Option<nat>, off: Option<nat>, gas: Option<nat>, comp: Option<nat>, agg: Option<nat>, target: nat)
    : (r: Decision)
  {
    if on.None? then Refuse(NoHeight(OnChain))
    else if off.None? then Refuse(NoHeight(OffChain))
    else if on.value == target && off.value == target && IsEqualOrLessThanOrNone(gas, target)
            && IsEqualOrLessThanOrNone(comp, target) && IsEqualOrLessThanOrNone(agg, target) then Done
    else if on.value < target then Refuse(LessThanTarget(OnChain))
    else if off.value < target then Refuse(LessThanTarget(OffChain))
    else if gas.Some? && gas.value < target then Refuse(LessThanTarget(GasPrice))
    else if comp.Some? && comp.value < target then Refuse(LessThanTarget(Compression))
    else Continue
  }

  // What a rollback must report at once, if anything.
  function ReportedAtOnce(ls: Ledgers, target: nat): (r: Option<RollbackError>)
  {
    if ls.on.past.snapshots == [] then Some(NoHeight(OnChain))
    else if ls.off.past.snapshots == [] then Some(NoHeight(OffChain))
    else if ls.RolledBack(target) || ls.FirstBehind(target).None? then None
    else Some(LessThanTarget(ls.FirstBehind(target).value))
  }

  ghost predicate RightDecision(ls: Ledgers, decision: Decision, target: nat)
  {
    match decision
    case Done =>
      && ls.RolledBack(target) && ls.CanRollBack(target) && ls.Rounds(target) == 0
      && ReportedAtOnce(ls, target) == None
    case Refuse(e) =>
      && !ls.CanRollBack(target) && e != Cancelled && !e.DatabaseFailure?
      && (e.LessThanTarget? ==> !ls.NoneBehind(target)) && ReportedAtOnce(ls, target) == Some(e)
    case Continue =>
      && ls.NoneBehind(target) && ls.Lowered(target).Rounds(target) + 1 == ls.Rounds(target)
      && ReportedAtOnce(ls, target) == None
  }

  lemma DecisionIsRight(ls: Ledgers, target: nat)
    ensures var (on, off, gas) := (ls.on.Height(), ls.off.Height(), ls.gas.Height());
            RightDecision(ls, Decide(on, off, gas, ls.comp.Height(), ls.agg.Height(), target), target)
  {
    LoweredRounds(ls, target);
  }

  // What a round does, by its decision.
  ghost predicate RoundOutcome(before: Ledgers, after: Ledgers, decision: Decision, target: nat)
  {
    match decision
    case Done =>
      after == before && before.RolledBack(target) && before.CanRollBack(target) && before.Rounds(target) == 0
      && ReportedAtOnce(before, target) == None
    case Refuse(e) =>
      && !before.CanRollBack(target) && e != Cancelled
      && (e.LessThanTarget? ==> !before.NoneBehind(target))
      && ReportedAtOnce(before, target) == (if e.DatabaseFailure? then None else Some(e))
      && after == (if e.DatabaseFailure? then before.LoweredInTurn(target) else before)
      && SameTruncation(after, before, target)
    case Continue => Progress(before, after, target) && ReportedAtOnce(before, target) == None
  }

  // The databases during a rollback: as at the start, or none behind the target any more.
  ghost predicate Underway(start: Ledgers, now: Ledgers, moved: bool, target: nat)
  {
    && Resumable(start, now, target)
    && (if moved then now.NoneBehind(target) && ReportedAtOnce(start, target) == None else now == start)
  }

  // How a rollback ends.
  ghost predicate RollbackOutcome(start: Ledgers, after: Ledgers, error: Option<RollbackError>, target: nat)
  {
    && SameTruncation(after, start, target)
    && (error == None ==> after.RolledBack(target) && start.CanRollBack(target))
    && (error == None || error == Some(Cancelled) ==> Resumable(start, after, target))
    && (error.Some? && error != Some(Cancelled) ==> !start.CanRollBack(target))
    && (error != Some(Cancelled) && ReportedAtOnce(start, target).Some? ==> error == ReportedAtOnce(start, target))
    && (error.Some? && error.value.LessThanTarget? ==> error == ReportedAtOnce(start, target))
  }

  lemma RoundKeepsUnderway(start: Ledgers, now: Ledgers, moved: bool, after: Ledgers, decision: Decision, target: nat)
    requires Underway(start, now, moved, target) && RoundOutcome(now, after, decision, target)
    ensures decision.Done? ==> RollbackOutcome(start, after, None, target)
    ensures decision.Refuse? ==>
              RollbackOutcome(start, after, Some(decision.error), target) && decision.error != Cancelled
    ensures decision.Refuse? && decision.error.LessThanTarget? ==> !moved
    ensures decision.Continue? ==>
              Underway(start, after, true, target) && after.Rounds(target) + 1 == now.Rounds(target)
    ensures decision.Done? ==> now.Rounds(target) == 0
  {
  }

  lemma UnderwayCanStop(start: Ledgers, now: Ledgers, moved: bool, target: nat)
    requires Underway(start, now, moved, target)
    ensures RollbackOutcome(start, now, Some(Cancelled), target)
  {
  }

  class Combined {
    const onChain: LinkedDatabase
    const offChain: LinkedDatabase
    const gasPrice: LinkedDatabase
    const compression: LinkedDatabase
    const blockAggregation: LinkedDatabase

    ghost function Members(): set<LinkedDatabase>
    {
      {onChain, offChain, gasPrice, compression, blockAggregation}
    }

    ghost predicate Valid()
      reads Members()
    {
      && onChain !in {offChain, gasPrice, compression, blockAggregation}
      && offChain !in {gasPrice, compression, blockAggregation}
      && gasPrice !in {compression, blockAggregation}
      && compression != blockAggregation
      && onChain.Valid() && offChain.Valid() && gasPrice.Valid() && compression.Valid() && blockAggregation.Valid()
    }

    ghost function View(): Ledgers
      reads Members()
    {
      Ledgers(LedgerOf(onChain), LedgerOf(offChain), LedgerOf(gasPrice), LedgerOf(compression),
              LedgerOf(blockAggregation))
    }

    constructor (onChain: LinkedDatabase, offChain: LinkedDatabase, gasPrice: LinkedDatabase,
                 compression: LinkedDatabase,
                 blockAggregation: LinkedDatabase)
      ensures this.onChain == onChain && this.offChain == offChain && this.gasPrice == gasPrice
      ensures this.compression == compression && this.blockAggregation == blockAggregation
    {
      this.onChain, this.offChain, this.gasPrice := onChain, offChain, gasPrice;
      this.compression, this.blockAggregation := compression, blockAggregation;
    }

    // Everything there is to the databases.
    ghost function States(): seq<Db>
      reads Members()
    {
      [onChain.View(), offChain.View(), gasPrice.View(), compression.View(), blockAggregation.View()]
    }

    method LowerChains(target: nat, on: Option<nat>, off: Option<nat>) returns (error: Option<DatabaseError>)
      requires Valid() && on == View().on.Height() && off == View().off.Height()
      modifies onChain, offChain
      ensures Valid()
      ensures error == None <==> old(View()).on.CanLower(target) && old(View()).off.CanLower(target)
      ensures var ls := old(View());
              View() == ls.(on := ls.on.LoweredIfPossible(target),
                            off := if ls.on.CanLower(target) then ls.off.LoweredIfPossible(target) else ls.off)
    {
      error := RollbackIfAbove(onChain, on, target);
      if error.None? {
        error := RollbackIfAbove(offChain, off, target);
      }
    }

    method LowerOthers(target: nat, gas: Option<nat>, comp: Option<nat>) returns (error: Option<DatabaseError>)
      requires Valid() && gas == View().gas.Height() && comp == View().comp.Height()
      modifies gasPrice, compression, blockAggregation
      ensures Valid()
      ensures var ls := old(View());
              error == None <==> ls.gas.CanLower(target) && ls.comp.CanLower(target) && ls.agg.CanLower(target)
      ensures var ls := old(View());
              var compToo := ls.gas.CanLower(target);
              var aggToo := compToo && ls.comp.CanLower(target);
              View() == ls.(gas := ls.gas.LoweredIfPossible(target),
                            comp := if compToo then ls.comp.LoweredIfPossible(target) else ls.comp,
                            agg := if aggToo then ls.agg.LoweredIfPossible(target) else ls.agg)
    {
      error := RollbackIfAbove(gasPrice, gas, target);
      if error.None? {
        error := RollbackIfAbove(compression, comp, target);
      }
      if error.None? {
        var agg := blockAggregation.LatestHeightFromMetadata();
        error := RollbackIfAbove(blockAggregation, agg, target);
      }
    }

    // One round of the rollback: each database above the target loses its last commit.
    method RollbackRound(target: nat, on: Option<nat>, off: Option<nat>, gas: Option<nat>, comp: Option<nat>)
      returns (error: Option<DatabaseError>)
      requires Valid()
      requires on == View().on.Height() && off == View().off.Height()
      requires gas == View().gas.Height() && comp == View().comp.Height()
      modifies Members()
      ensures Valid()
      ensures error == None <==> old(View()).AllCanLower(target)
      ensures View() == old(View()).LoweredInTurn(target)
    {
      error := LowerChains(target, on, off);
      if error.None? {
        error := LowerOthers(target, gas, comp);
      }
    }

    // Reads the heights, and rolls back where they are above the target.
    method Round(target: nat) returns (decision: Decision)
      requires Valid()
      modifies Members()
      ensures Valid()
      ensures RoundOutcome(old(View()), View(), decision, target)
      ensures decision.Refuse? && !decision.error.DatabaseFailure? ==> States() == old(States())
    {
      var on, off, gas, comp;
      decision, on, off, gas, comp := ReadHeights(target);
      if decision.Continue? {
        RoundKeepsOutcome(View(), target);
        InTurnTruncates(View(), target);
        var failure := RollbackRound(target, on, off, gas, comp);
        if failure.Some? {
          decision := Refuse(DatabaseFailure(failure.value));
        }
      }
    }

    method ReadHeights(target: nat)
      returns (decision: Decision, on: Option<nat>, off: Option<nat>, gas: Option<nat>, comp: Option<nat>)
      requires Valid()
      ensures on == View().on.Height() && off == View().off.Height() && gas == View().gas.Height()
      ensures comp == View().comp.Height()
      ensures RightDecision(View(), decision, target)
    {
      on := onChain.LatestHeightFromMetadata();
      off := offChain.LatestHeightFromMetadata();
      gas := gasPrice.LatestHeightFromMetadata();
      comp := compression.LatestHeightFromMetadata();
      var agg := blockAggregation.LatestHeightFromMetadata();
      DecisionIsRight(View(), target);
      decision := Decide(on, off, gas, comp, agg, target);
    }

    // The rounds of a rollback, until there is nothing left to undo, a round is refused or a
    // shutdown signal comes.
    method RollbackRounds(target: nat, before: ShutdownListener)
      returns (error: Option<RollbackError>, listener: ShutdownListener)
      requires Valid()
      modifies Members()
      ensures Valid()
      ensures listener.signal == before.signal && before.polls < listener.polls
      ensures error == Some(Cancelled) <==> listener.Seen()
      ensures listener.polls <= before.polls + old(View()).Rounds(target) + 1
      ensures error == None ==> listener.polls == before.polls + old(View()).Rounds(target) + 1
      ensures RollbackOutcome(old(View()), View(), error, target)
      ensures before.Pending() || (error.Some? && error.value.LessThanTarget?) ==> States() == old(States())
      ensures ReportedAtOnce(old(View()), target).Some? ==> States() == old(States())
    {
      ghost var start, now, moved := View(), View(), false;
      var cancelled;
      cancelled, listener := before.Pending(), before.Polled();
      while !cancelled
        invariant Valid() && now == View() && Underway(start, now, moved, target)
        invariant !moved ==> States() == old(States())
        invariant listener.signal == before.signal && before.polls < listener.polls && (cancelled <==> listener.Seen())
        invariant before.Pending() ==> cancelled && !moved
        invariant listener.polls + now.Rounds(target) == before.polls + start.Rounds(target) + 1
        decreases now.Rounds(target)
      {
        var decision := Round(target);
        RoundKeepsUnderway(start, now, moved, View(), decision, target);
        if decision.Done? {
          return None, listener;
        }
        if decision.Refuse? {
          return Some(decision.error), listener;
        }
        moved, now := true, View();
        cancelled, listener := listener.Pending(), listener.Polled();
      }
      UnderwayCanStop(start, now, moved, target);
      error := Some(Cancelled);
    }

    // Rolls the node back to a height. Unless a shutdown signal is seen, it goes through exactly
    // when `CanRollBack` says so, and then every database is left with the commits at or below
    // the target. A database that is behind the target is noticed before anything has changed.
    // A cancelled rollback can be taken up again with the same outcome, and no outcome takes
    // away a commit at or below the target. A rollback that can go through is cancelled exactly
    // when the signal comes within one poll per round and two more.
    method RollbackTo(target: nat, before: ShutdownListener)
      returns (error: Option<RollbackError>, listener: ShutdownListener)
      requires Valid()
      modifies Members()
      ensures Valid()
      ensures listener.signal == before.signal && before.polls < listener.polls
      ensures error == Some(Cancelled) <==> listener.Seen()
      ensures listener.polls <= before.polls + old(View()).Rounds(target) + 2
      ensures error == None ==> listener.polls == before.polls + old(View()).Rounds(target) + 2
      ensures old(View()).CanRollBack(target) ==>
                (listener.Seen() <==> before.SeenWithin(before.polls + old(View()).Rounds(target) + 2))
      ensures !listener.Seen() ==> (error == None <==> old(View()).CanRollBack(target))
      ensures error == None ==> View().RolledBack(target) && Truncates(View(), old(View()), target)
      ensures error == None ==>
                && onChain.store.rows == old(onChain.past).At(target)
                && offChain.store.rows == old(offChain.past).At(target)
      ensures SameTruncation(View(), old(View()), target)
      ensures before.Pending() || (error.Some? && error.value.LessThanTarget?) ==> States() == old(States())
      ensures ReportedAtOnce(old(View()), target).Some? ==> States() == old(States())
      ensures !listener.Seen() && ReportedAtOnce(old(View()), target).Some? ==>
                error == ReportedAtOnce(old(View()), target)
      ensures error.Some? && error.value.LessThanTarget? ==> error == ReportedAtOnce(old(View()), target)
      ensures listener.Seen() ==> Resumable(old(View()), View(), target)
    {
      error, listener := RollbackRounds(target, before);
      if error == None {
        DoneTruncates(View(), old(View()), target);
        var cancelled := listener.Pending();
        listener := listener.Polled();
        if cancelled {
          error := Some(Cancelled);
        }
      }
    }

    // One round of the synchronization.
    method SyncRound(target: nat) returns (error: Option<DatabaseError>, done: bool)
      requires Valid()
      modifies offChain, gasPrice
      ensures Valid() && View().on == old(View()).on
      ensures error == None <==> old(View()).off.CanLower(target) && old(View()).gas.CanLower(target)
      ensures View().off == old(View()).off.LoweredIfPossible(target)
      ensures View().gas == if old(View()).off.CanLower(target) then old(View()).gas.LoweredIfPossible(target)
                            else old(View()).gas
      ensures done <==> error == None && !old(View()).off.Above(target) && !old(View()).gas.Above(target)
    {
      var off := offChain.LatestHeightFromMetadata();
      var gas := gasPrice.LatestHeightFromMetadata();
      error := RollbackIfAbove(offChain, off, target);
      assert gasPrice.Valid() && LedgerOf(gasPrice) == old(LedgerOf(gasPrice));
      if error.None? {
        error := RollbackIfAbove(gasPrice, gas, target);
      }
      done := error.None? && IsEqualOrLessThanOrNone(off, target) && IsEqualOrLessThanOrNone(gas, target);
    }

    // Undoes the commits of the off-chain and gas price databases that are ahead of the on-chain
    // database, no more than needed. The on-chain database is not touched. If it meets a shutdown
    // signal, it reports success all the same, and can be taken up again.
    method SyncAuxDbHeights(before: ShutdownListener) returns (error: Option<DatabaseError>, listener: ShutdownListener)
      requires Valid()
      modifies offChain, gasPrice
      ensures Valid()
      ensures listener.signal == before.signal && before.polls < listener.polls && (listener.Seen() ==> error == None)
      ensures var on := onChain.past;
              if on.snapshots == [] then
                error == None && View() == old(View()) && listener.polls == before.polls + 1
              else
                && AsBefore(View().off, old(View()).off, on.Top()) && AsBefore(View().gas, old(View()).gas, on.Top())
                && listener.polls <= before.polls + old(Ahead(View(), on.Top())) + 1
                && (!listener.Seen() ==>
                    && (error == None <==> old(View()).off.Undoable(on.Top()) && old(View()).gas.Undoable(on.Top()))
                    && (error == None ==>
                        && listener.polls == before.polls + old(Ahead(View(), on.Top())) + 1
                        && offChain.past == Truncated(old(offChain.past), on.Top())
                        && gasPrice.past == Truncated(old(gasPrice.past), on.Top())))
    {
      ghost var start := View();
      ghost var target: nat := if start.on.past.snapshots == [] then 0 else start.on.past.Top();
      var cancelled;
      cancelled, listener := before.Pending(), before.Polled();
      while !cancelled
        invariant Valid() && View().on == start.on
        invariant listener.signal == before.signal && before.polls < listener.polls && (cancelled <==> listener.Seen())
        invariant start.on.past.snapshots == [] ==> View() == start && listener.polls == before.polls + 1
        invariant start.on.past.snapshots != [] ==>
          && AsBefore(View().off, start.off, target) && AsBefore(View().gas, start.gas, target)
          && listener.polls + Ahead(View(), target) == before.polls + Ahead(start, target) + 1
        decreases Ahead(View(), target)
      {
        var onHeight := onChain.LatestHeightFromMetadata();
        if onHeight.None? {
          return None, listener;
        }
        SyncStep(View(), start, target);
        var done;
        error, done := SyncRound(onHeight.value);
        if error.Some? || done {
          return;
        }
        cancelled, listener := listener.Pending(), listener.Polled();
      }
      error := None;
    }
  }

  // How far the off-chain and gas price databases are ahead.
  function Ahead(ls: Ledgers, target: nat): (r: nat)
  {
    Max(ExcessOf(ls.off, target), ExcessOf(ls.gas, target))
  }

  // Rolling back so far has changed neither the result nor whether it can be reached.
  ghost predicate AsBefore(now: Ledger, start: Ledger, target: nat)
  {
    && Truncated(now.past, target) == Truncated(start.past, target)
    && (now.Undoable(target) <==> start.Undoable(target))
  }

  lemma LowerOnce(now: Ledger, start: Ledger, target: nat)
    requires AsBefore(now, start, target)
    ensures now.CanLower(target) ==> AsBefore(now.Lowered(target), start, target)
    ensures !now.CanLower(target) ==> !start.Undoable(target)
    ensures !now.Above(target) ==> start.Undoable(target) && now.past == Truncated(start.past, target)
    ensures ExcessOf(now.Lowered(target), target) == if now.Above(target) then ExcessOf(now, target) - 1 else 0
    ensures now.Above(target) <==> ExcessOf(now, target) > 0
  {
    LoweredExcess(now, target);
    LoweredTruncates(now, target);
    LoweredUndoable(now, target);
  }

  lemma SyncStep(now: Ledgers, start: Ledgers, target: nat)
    requires AsBefore(now.off, start.off, target) && AsBefore(now.gas, start.gas, target)
    ensures AsBefore(now.off.LoweredIfPossible(target), start.off, target)
    ensures AsBefore(now.gas.LoweredIfPossible(target), start.gas, target)
    ensures !now.off.CanLower(target) || !now.gas.CanLower(target) ==>
              !start.off.Undoable(target) || !start.gas.Undoable(target)
    ensures !now.off.Above(target) && !now.gas.Above(target) ==>
              && start.off.Undoable(target) && start.gas.Undoable(target) && Ahead(now, target) == 0
              && now.off.past == Truncated(start.off.past, target) && now.gas.past == Truncated(start.gas.past, target)
    ensures now.off.Above(target) || now.gas.Above(target) ==>
              var lowered := now.(off := now.off.Lowered(target), gas := now.gas.Lowered(target));
              Ahead(lowered, target) + 1 == Ahead(now, target)
  {
    LowerOnce(now.off, start.off, target);
    LowerOnce(now.gas, start.gas, target);
  }

  // Rolls the relayer database back to a height, or to nothing if its commits are all above it.
  method RollbackRelayerTo(relayer: LinkedDatabase, target: nat, before: ShutdownListener)
    returns (error: Option<RollbackError>, listener: ShutdownListener)
    requires relayer.Valid()
    modifies relayer
    ensures relayer.Valid()
    ensures listener.signal == before.signal && before.polls < listener.polls
    ensures error == Some(Cancelled) <==> listener.Seen()
    ensures listener.polls <= before.polls + ExcessOf(old(LedgerOf(relayer)), target) + 2
    ensures error == None ==> listener.polls == before.polls + ExcessOf(old(LedgerOf(relayer)), target) + 2
    ensures !listener.Seen() ==>
              (error == None <==> !old(LedgerOf(relayer)).Behind(target) && old(LedgerOf(relayer)).Undoable(target))
    ensures !listener.Seen() ==> (error == Some(LessThanTarget(Relayer)) <==> old(LedgerOf(relayer)).Behind(target))
    ensures error == None ==> relayer.past == Truncated(old(relayer.past), target)
    ensures error.Some? && error.value.LessThanTarget? ==>
              relayer.View() == old(relayer.View()) && relayer.past == old(relayer.past)
    ensures AsBefore(LedgerOf(relayer), old(LedgerOf(relayer)), target)
    ensures LedgerOf(relayer).Behind(target) <==> old(LedgerOf(relayer)).Behind(target)
  {
    ghost var start := LedgerOf(relayer);
    var cancelled;
    cancelled, listener := before.Pending(), before.Polled();
    while !cancelled
      invariant relayer.Valid()
      invariant listener.signal == before.signal && before.polls < listener.polls && (cancelled <==> listener.Seen())
      invariant AsBefore(LedgerOf(relayer), start, target)
      invariant LedgerOf(relayer).Behind(target) <==> start.Behind(target)
      invariant start.Behind(target) ==> relayer.View() == old(relayer.View()) && relayer.past == old(relayer.past)
      invariant listener.polls + ExcessOf(LedgerOf(relayer), target) == before.polls + ExcessOf(start, target) + 1
      decreases ExcessOf(LedgerOf(relayer), target)
    {
      var height := relayer.LatestHeightFromMetadata();
      LowerOnce(LedgerOf(relayer), start, target);
      if IsEqualOrNone(height, target) {
        // a signal that came meanwhile is still reported
        cancelled, listener := listener.Pending(), listener.Polled();
        return if cancelled then Some(Cancelled) else None, listener;
      }
      if height.Some? && height.value < target {
        return Some(LessThanTarget(Relayer)), listener;
      }
      var failure := RollbackIfAbove(relayer, height, target);
      if failure.Some? {
        return Some(DatabaseFailure(failure.value)), listener;
      }
      cancelled, listener := listener.Pending(), listener.Polled();
    }
    error := Some(Cancelled);
  }

  /* ---------- a database that is behind ---------- */

  const NODE := Description(0, {}, U32_MAX, RewindFullRange)

  // The ledger of a database with commits at the heights 0 to `top`.
  function LedgerAt(top: nat): (r: Ledger)
  {
    var past := JournalOf(NODE, CommitsTo(top)).past;
    Ledger(past, Oldest(NODE.policy, past))
  }

  lemma LedgerAtIs(top: nat)
    requires top <= U32_MAX
    ensures var l := LedgerAt(top);
            && Inv(Run(NewDatabase(NODE), CommitsTo(top)), l.past)
            && l.past.first == 0 && l.past.Top() == top && l.oldest == 0
  {
    CommitsAreProper(NODE, top);
    CommitsToReach(NODE, top);
    RunFollowsJournal(NODE, CommitsTo(top));
  }

  // If the gas price or the compression database is behind the target, a rollback of on-chain and
  // off-chain to it is refused, although once these are at the target it counts as rolled back.
  lemma BehindIsRefused(top: nat, behind: nat, target: nat)
    requires behind < target < top <= U32_MAX
    ensures var none := Ledger(EMPTY_JOURNAL.past, 0);
            var on, at, lag := LedgerAt(top), LedgerAt(target), LedgerAt(behind);
            && RefusedUntilThere(Ledgers(on, on, lag, none, none), at, target, GasPrice)
            && RefusedUntilThere(Ledgers(on, on, none, lag, none), at, target, Compression)
            && Ledgers(on, on, none, none, lag).CanRollBack(target)
  {
    LedgerAtIs(top);
    LedgerAtIs(behind);
    LedgerAtIs(target);
    BehindLedgers(LedgerAt(top), LedgerAt(target), LedgerAt(behind), Ledger(EMPTY_JOURNAL.past, 0), target);
  }

  // The rollback is refused because of `m`, but would be done if on-chain and off-chain were `at` the target.
  predicate RefusedUntilThere(ls: Ledgers, at: Ledger, target: nat, m: Member)
  {
    && ls.on.Holds(target) && ls.off.Holds(target) && ls.AllUndoable(target)
    && !ls.CanRollBack(target) && ls.FirstBehind(target) == Some(m)
    && ls.(on := at, off := at).CanRollBack(target)
  }

  lemma BehindLedgers(above: Ledger, at: Ledger, lag: Ledger, none: Ledger, target: nat)
    requires above.past.first == at.past.first == lag.past.first == 0 && none.past.snapshots == []
    requires above.oldest == 0 && 0 <= lag.past.Top() < target == at.past.Top() < above.past.Top()
    ensures RefusedUntilThere(Ledgers(above, above, lag, none, none), at, target, GasPrice)
    ensures RefusedUntilThere(Ledgers(above, above, none, lag, none), at, target, Compression)
    ensures Ledgers(above, above, none, none, lag).CanRollBack(target)
  {
  }

  // The condition for a rollback in heights: on-chain and off-chain hold the target, the commits above
  // it have records, and gas price and compression are not behind it unless nothing is above it.
  lemma CanRollBackIff(ls: Ledgers, target: nat)
    ensures ls.CanRollBack(target) <==>
            && ls.on.past.first <= target <= ls.on.past.Top()
            && ls.off.past.first <= target <= ls.off.past.Top()
            && (forall i :: 0 <= i < 5 ==> HasRecords([ls.on, ls.off, ls.gas, ls.comp, ls.agg][i], target))
            && (|| (forall i :: 0 <= i < 5 ==> Within([ls.on, ls.off, ls.gas, ls.comp, ls.agg][i], target))
                || ((ls.gas.past.snapshots == [] || target <= ls.gas.past.Top())
                    && (ls.comp.past.snapshots == [] || target <= ls.comp.past.Top())))
  {
    var all := [ls.on, ls.off, ls.gas, ls.comp, ls.agg];
    assert all[0] == ls.on && all[1] == ls.off && all[2] == ls.gas && all[3] == ls.comp && all[4] == ls.agg;
  }

  predicate Within(l: Ledger, target: nat)
  {
    l.past.snapshots == [] || l.past.Top() <= target
  }

  predicate HasRecords(l: Ledger, target: nat)
  {
    Within(l, target) || l.oldest <= l.past.first || l.oldest <= target + 1
  }
}
