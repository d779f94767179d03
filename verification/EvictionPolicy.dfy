/**
 The cache evictor of one keyspace: it walks the keys in cyclic order and hands out the
 first one that does not have to be kept.
 */
module EvictionPolicy {
  import opened Wrappers
  import opened RegistryKeys

  // State of the evictor: keys that must not be evicted, and the cursor.
  datatype Evictor = Evictor(keep: set<Key>, next: Key)

  // The number of successor steps from `k` to the first key outside `keep`.
  function Travel(keep: set<Key>, k: Key): (steps: nat)
    ensures steps <= |keep|
    decreases |keep|
  {
    if k in keep then 1 + Travel(keep - {k}, Next(k)) else 0
  }

  // What `next_key` answers.
  function FirstFree(keep: set<Key>, k: Key): (r: Key)
  {
    Advance(k, Travel(keep, k))
  }

  function Assigned(e: Evictor): (r: Evictor)
  {
    var k := FirstFree(e.keep, e.next);
    Evictor(e.keep + {k}, k)
  }

  function Restored(latest: Option<Key>): (r: Key)
  {
    match latest
    case Some(k) => Next(k)
    case None => ZERO
  }

  // Every key passed over on the way is kept; the scan ends at a kept key only by coming
  // round to one it passed over.
  lemma {:induction false} TravelScans(keep: set<Key>, k: Key)
    ensures var n := Travel(keep, k);
            Arc(k, n) <= keep && (Advance(k, n) in keep ==> Advance(k, n) in Arc(k, n))
    decreases |keep|
  {
    if k in keep {
      TravelScans(keep - {k}, Next(k));
      var n := Travel(keep, k);
      ArcHead(k, n);
      AdvanceNext(k, n - 1);
    }
  }

  // With a key to spare, the evictor returns the first key in cyclic order outside `keep`.
  lemma FirstFreeIsFree(keep: set<Key>, k: Key)
    requires |keep| < DEFAULT_VALUE
    ensures FirstFree(keep, k) !in keep
    ensures Arc(k, Travel(keep, k)) <= keep
  {
    TravelScans(keep, k);
    NoRevisit(k, Travel(keep, k), Travel(keep, k));
  }

  // The scan of `next_key` after `steps` steps: the rest of the way is still ahead.
  ghost predicate Scanning(keep: set<Key>, start: Key, steps: nat)
  {
    steps + Travel(keep - Arc(start, steps), Advance(start, steps)) == Travel(keep, start)
  }

  lemma ScanStep(keep: set<Key>, start: Key, steps: nat)
    requires |keep| < DEFAULT_VALUE && Scanning(keep, start, steps)
    requires Advance(start, steps) in keep
    ensures steps < Travel(keep, start) && Scanning(keep, start, steps + 1)
  {
    NoRevisit(start, steps, steps);
    var rest, k := keep - Arc(start, steps), Advance(start, steps);
    assert rest - {k} == keep - Arc(start, steps + 1);
    assert Travel(rest, k) == 1 + Travel(rest - {k}, Next(k));
  }

  // The scan of `next_key` reaches a free key exactly when not all keys are kept; otherwise
  // its loop never stops.
  lemma ScanStops(keep: set<Key>, k: Key)
    ensures (exists j: nat :: Advance(k, j) !in keep) <==> |keep| < DEFAULT_VALUE
  {
    if |keep| < DEFAULT_VALUE {
      FirstFreeIsFree(keep, k);
      assert Advance(k, Travel(keep, k)) !in keep;
    } else {
      var all := KeysBelow(DEFAULT_VALUE);
      assert keep <= all;
      SubsetOfSameSize(keep, all);
    }
  }

  ghost function KeysBelow(n: nat): (r: set<Key>)
    requires n <= DEFAULT_VALUE
    ensures |r| == n
    ensures forall k: Key :: k in r <==> k < n
  {
    if n == 0 then {} else KeysBelow(n - 1) + {n - 1}
  }

  lemma {:induction false} SubsetOfSameSize<T>(a: set<T>, b: set<T>)
    requires a <= b && |a| >= |b|
    ensures a == b
  {
    if x :| x in b && x !in a {
      SubsetIsSmaller(a, b - {x});
      assert false;
    }
  }

  lemma {:induction false} SubsetIsSmaller<T>(a: set<T>, b: set<T>)
    requires a <= b
    ensures |a| <= |b|
  {
    if x :| x in a {
      SubsetIsSmaller(a - {x}, b - {x});
    }
  }

  /** The evictor as the compressor uses it during one block. */
  class CacheEvictor {
    var keepKeys: set<Key>
    var nextKey: Key

    ghost function View(): Evictor
      reads this
    {
      Evictor(keepKeys, nextKey)
    }

    // Reads the cursor persisted by the previous block.
    constructor NewFromDb(latest: Option<Key>, keep: set<Key>)
      ensures View() == Evictor(keep, Restored(latest))
    {
      keepKeys := keep;
      if latest.Some? {
        nextKey := Next(latest.value);
      } else {
        nextKey := ZERO;
      }
    }

    method NextKey() returns (key: Key)
      requires |keepKeys| < DEFAULT_VALUE
      modifies this
      ensures View() == Assigned(old(View()))
      ensures key == nextKey
      ensures key !in old(keepKeys)
    {
      ghost var start, steps: nat := nextKey, 0;
      assert keepKeys - Arc(start, 0) == keepKeys;
      while nextKey in keepKeys
        invariant keepKeys == old(keepKeys)
        invariant nextKey == Advance(start, steps) && Scanning(keepKeys, start, steps)
        decreases Travel(keepKeys, start) - steps
      {
        ScanStep(keepKeys, start, steps);
        nextKey := Next(nextKey);
        steps := steps + 1;
      }
      keepKeys := keepKeys + {nextKey};
      key := nextKey;
    }

    // The cursor to persist.
    method Commit() returns (latest: Key)
      ensures latest == nextKey
    {
      latest := nextKey;
    }
  }

  /* ---------- whole runs ---------- */

  // What one block asks of the evictor: the keys to keep and the number of new keys.
  datatype Session = Session(keep: set<Key>, calls: nat)

  // An assigned key, with the total number of successor steps the cursor had made by then.
  datatype Assignment = Assignment(key: Key, at: nat)

  predicate Feasible(s: Session)
  {
    |s.keep| + s.calls <= DEFAULT_VALUE
  }

  // The evictor during a block, with what it has assigned so far.
  datatype Trace = Trace(issued: seq<Assignment>, evictor: Evictor, at: nat)

  function Call(t: Trace): (r: Trace)
  {
    var e, at := Assigned(t.evictor), t.at + Travel(t.evictor.keep, t.evictor.next);
    Trace(t.issued + [Assignment(e.next, at)], e, at)
  }

  // `calls` consecutive `next_key` calls.
  function Calls(e: Evictor, at: nat, calls: nat): (r: Trace)
    decreases calls
  {
    if calls == 0 then Trace([], e, at) else Call(Calls(e, at, calls - 1))
  }

  ghost function KeysOf(r: seq<Assignment>): (keys: set<Key>)
  {
    set a | a in r :: a.key
  }

  lemma KeysOfSnoc(r: seq<Assignment>, a: Assignment)
    ensures KeysOf(r + [a]) == KeysOf(r) + {a.key}
  {
    assert forall b :: b in r + [a] <==> b in r || b == a;
  }

  // The cursor as persisted, and the number of successor steps it has made.
  datatype Cursor = Cursor(latest: Option<Key>, at: nat)

  // Restoring a persisted cursor moves it one step on.
  function Start(c: Cursor): (at: nat)
  {
    if c.latest.None? then c.at else c.at + 1
  }

  // One block: restore, assign, commit.
  function BlockRun(c: Cursor, s: Session): (r: (seq<Assignment>, Cursor))
  {
    var block := Calls(Evictor(s.keep, Restored(c.latest)), Start(c), s.calls);
    (block.issued, Cursor(Some(block.evictor.next), block.at))
  }

  // Blocks in sequence, from a database without a cursor.
  function Run(sessions: seq<Session>): (r: (seq<Assignment>, Cursor))
    decreases |sessions|
  {
    if sessions == [] then ([], Cursor(None, 0))
    else
      var before := Run(sessions[..|sessions| - 1]);
      var block := BlockRun(before.1, sessions[|sessions| - 1]);
      (before.0 + block.0, block.1)
  }

  // Cursor positions increase strictly, from `at` on.
  predicate StrictlyLater(r: seq<Assignment>, at: nat)
    decreases |r|
  {
    r == [] || (at <= r[0].at && StrictlyLater(r[1..], r[0].at + 1))
  }

  // No key was in `keep` or assigned before.
  ghost predicate AllFresh(r: seq<Assignment>, keep: set<Key>)
    decreases |r|
  {
    r == [] || (AllFresh(r[..|r| - 1], keep) && r[|r| - 1].key !in keep + KeysOf(r[..|r| - 1]))
  }

  // The assigned key is where the cursor stands.
  predicate OnCycle(r: seq<Assignment>)
  {
    forall i :: 0 <= i < |r| ==> r[i].key == Advance(ZERO, r[i].at)
  }

  lemma {:induction false} StrictlyLaterAt(r: seq<Assignment>, at: nat, i: nat, j: nat)
    requires StrictlyLater(r, at) && i < j < |r|
    ensures at <= r[i].at < r[j].at
    decreases |r|
  {
    if i > 0 {
      StrictlyLaterAt(r[1..], r[0].at + 1, i - 1, j - 1);
    } else if j > 1 {
      StrictlyLaterAt(r[1..], r[0].at + 1, 0, j - 1);
    }
  }

  lemma {:induction false} StrictlyLaterConcat(a: seq<Assignment>, b: seq<Assignment>, at: nat, mid: nat)
    requires StrictlyLater(a, at) && StrictlyLater(b, mid) && at <= mid
    requires forall i :: 0 <= i < |a| ==> a[i].at < mid
    ensures StrictlyLater(a + b, at)
    decreases |a|
  {
    if a == [] {
      assert a + b == b;
    } else {
      StrictlyLaterConcat(a[1..], b, a[0].at + 1, mid);
      assert (a + b)[1..] == a[1..] + b;
    }
  }

  lemma AssignAdvances(e: Evictor, at: nat)
    requires |e.keep| < DEFAULT_VALUE && e.next == Advance(ZERO, at)
    ensures var e', at' := Assigned(e), at + Travel(e.keep, e.next);
      && e'.next == Advance(ZERO, at')
      && (e.next in e.keep ==> at < at')
  {
    FirstFreeIsFree(e.keep, e.next);
    AdvanceAdds(ZERO, at, Travel(e.keep, e.next));
  }

  lemma AssignIsFresh(e: Evictor)
    requires |e.keep| < DEFAULT_VALUE
    ensures var e' := Assigned(e);
            e'.next !in e.keep && e'.keep == e.keep + {e'.next} && |e'.keep| == |e.keep| + 1
  {
    FirstFreeIsFree(e.keep, e.next);
  }

  // The assigned keys are distinct, were not kept, and are kept from then on.
  ghost predicate FreshTrace(keep: set<Key>, t: Trace)
  {
    && AllFresh(t.issued, keep)
    && t.evictor.keep == keep + KeysOf(t.issued)
    && |t.evictor.keep| == |keep| + |t.issued|
    && (t.issued != [] ==> t.evictor.next in KeysOf(t.issued))
  }

  lemma CallIsFresh(keep: set<Key>, t: Trace)
    requires FreshTrace(keep, t) && |t.evictor.keep| < DEFAULT_VALUE
    ensures FreshTrace(keep, Call(t))
  {
    AssignIsFresh(t.evictor);
    var r, last := t.issued, Call(t).issued[|t.issued|];
    KeysOfSnoc(r, last);
    assert (r + [last])[..|r|] == r;
  }

  lemma {:induction false} CallsAreFresh(e: Evictor, at: nat, calls: nat)
    requires |e.keep| + calls <= DEFAULT_VALUE
    ensures FreshTrace(e.keep, Calls(e, at, calls)) && |Calls(e, at, calls).issued| == calls
    decreases calls
  {
    if calls == 0 {
      assert e.keep + KeysOf([]) == e.keep;
    } else {
      CallsAreFresh(e, at, calls - 1);
      CallIsFresh(e.keep, Calls(e, at, calls - 1));
    }
  }

  // Keys are assigned at strictly increasing cursor positions.
  ghost predicate OrderedTrace(from: nat, t: Trace)
  {
    && StrictlyLater(t.issued, from) && OnCycle(t.issued)
    && (forall i :: 0 <= i < |t.issued| ==> t.issued[i].at <= t.at)
    && from <= t.at && t.evictor.next == Advance(ZERO, t.at)
    && (t.issued != [] ==> t.evictor.next in t.evictor.keep)
  }

  lemma CallAdvances(from: nat, t: Trace)
    requires OrderedTrace(from, t) && |t.evictor.keep| < DEFAULT_VALUE
    ensures OrderedTrace(from, Call(t))
  {
    AssignAdvances(t.evictor, t.at);
    var last := Call(t).issued[|t.issued|];
    StrictlyLaterConcat(t.issued, [last], from, last.at);
  }

  lemma {:induction false} CallsAdvance(e: Evictor, at: nat, calls: nat)
    requires |e.keep| + calls <= DEFAULT_VALUE
    requires e.next == Advance(ZERO, at)
    ensures OrderedTrace(at, Calls(e, at, calls))
    decreases calls
  {
    if calls > 0 {
      CallsAdvance(e, at, calls - 1);
      CallsAreFresh(e, at, calls - 1);
      CallAdvances(at, Calls(e, at, calls - 1));
    }
  }

  // The cursor stands on its latest key.
  ghost predicate Standing(c: Cursor)
  {
    if c.latest.None? then c.at == 0 else c.latest.value == Advance(ZERO, c.at)
  }

  lemma BlockAdvances(c: Cursor, s: Session)
    requires Standing(c) && Feasible(s)
    ensures var (block, c') := BlockRun(c, s);
            && Standing(c') && c'.latest.Some? && c.at <= c'.at
            && StrictlyLater(block, Start(c)) && OnCycle(block)
            && (forall i :: 0 <= i < |block| ==> block[i].at <= c'.at)
  {
    CallsAdvance(Evictor(s.keep, Restored(c.latest)), Start(c), s.calls);
  }

  lemma {:induction false} RunAdvances(sessions: seq<Session>)
    requires forall s :: s in sessions ==> Feasible(s)
    ensures var (r, c) := Run(sessions);
            && Standing(c) && (c.latest.None? <==> sessions == [])
            && StrictlyLater(r, 0) && OnCycle(r)
            && (forall i :: 0 <= i < |r| ==> r[i].at <= c.at)
            && (sessions == [] ==> r == [])
    decreases |sessions|
  {
    if sessions != [] {
      var init, last := sessions[..|sessions| - 1], sessions[|sessions| - 1];
      assert Feasible(last);
      RunAdvances(init);
      var (r, c) := Run(init);
      BlockAdvances(c, last);
      StrictlyLaterConcat(r, BlockRun(c, last).0, 0, Start(c));
    }
  }

  // Round-robin eviction: between two assignments of one key, in the same block or in
  // different ones, the cursor has made at least a full round.
  lemma RoundRobin(sessions: seq<Session>, i: nat, j: nat)
    requires forall s :: s in sessions ==> Feasible(s)
    requires i < j < |Run(sessions).0| && Run(sessions).0[i].key == Run(sessions).0[j].key
    ensures Run(sessions).0[j].at - Run(sessions).0[i].at >= DEFAULT_VALUE
  {
    RunAdvances(sessions);
    var r := Run(sessions).0;
    StrictlyLaterAt(r, 0, i, j);
    SameKeyNeedsFullRound(ZERO, r[i].at, r[j].at);
  }
}
