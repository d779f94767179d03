/**
 The fault scheduler of the chaos test: faults are injected into a cluster of nodes and Redis
 servers, and reverted at once when they would leave no node with a Redis quorum.
 */
module ChaosFaults {
  import opened Wrappers

  datatype ProxyMode = Normal | DropAll | Latency(ms: nat) | CloseAfterBytes(bytes: nat)

  predicate Healthy(m: ProxyMode)
  {
    m.Normal? || m.Latency?
  }

  // `proxies[n][r]` connects node n with Redis server r.
  datatype Cluster = Cluster(redis: seq<bool>, nodes: seq<bool>, proxies: seq<seq<ProxyMode>>)

  predicate WellFormed(c: Cluster)
  {
    |c.proxies| == |c.nodes| && forall n :: 0 <= n < |c.proxies| ==> |c.proxies[n]| == |c.redis|
  }

  datatype FaultAction =
    | KillRedis(redis: nat)
    | RestartRedis(redis: nat)
    | PartitionNodeFromRedis(node: nat, redis: nat)
    | PartitionAllFromRedis(redis: nat)
    | AddLatency(node: nat, redis: nat, ms: nat)
    | DropMidOperation(node: nat, redis: nat, afterBytes: nat)
    | RestoreProxy(node: nat, redis: nat)
    | RestoreAllProxies
    | KillNode(node: nat)
    | RestartNode(node: nat)

  predicate InRange(c: Cluster, a: FaultAction)
  {
    match a
    case KillRedis(r) => r < |c.redis|
    case RestartRedis(r) => r < |c.redis|
    case PartitionNodeFromRedis(n, r) => n < |c.nodes| && r < |c.redis|
    case PartitionAllFromRedis(r) => r < |c.redis|
    case AddLatency(n, r, _) => n < |c.nodes| && r < |c.redis|
    case DropMidOperation(n, r, _) => n < |c.nodes| && r < |c.redis|
    case RestoreProxy(n, r) => n < |c.nodes| && r < |c.redis|
    case RestoreAllProxies => true
    case KillNode(n) => n < |c.nodes|
    case RestartNode(n) => n < |c.nodes|
  }

  /* ---------- quorum ---------- */

  // The smallest majority.
  function Quorum(c: Cluster): (r: nat)
    ensures |c.redis| < 2 * r <= |c.redis| + 2
  {
    |c.redis| / 2 + 1
  }

  // Redis servers below index `upTo` that are alive behind a healthy proxy.
  function Reachable(redis: seq<bool>, proxies: seq<ProxyMode>, upTo: nat): (r: nat)
    requires upTo <= |redis| && upTo <= |proxies|
  {
    if upTo == 0 then 0
    else Reachable(redis, proxies, upTo - 1) + if redis[upTo - 1] && Healthy(proxies[upTo - 1]) then 1 else 0
  }

  predicate NodeHasQuorum(c: Cluster, n: nat)
    requires WellFormed(c) && n < |c.nodes|
  {
    c.nodes[n] && Reachable(c.redis, c.proxies[n], |c.redis|) >= Quorum(c)
  }

  predicate HasQuorum(c: Cluster)
    requires WellFormed(c)
  {
    exists n :: 0 <= n < |c.nodes| && NodeHasQuorum(c, n)
  }

  // `d` is at least as connected as `c`.
  ghost predicate AtLeast(c: Cluster, d: Cluster)
    requires WellFormed(c) && WellFormed(d)
  {
    && |d.redis| == |c.redis| && |d.nodes| == |c.nodes|
    && (forall r :: 0 <= r < |c.redis| && c.redis[r] ==> d.redis[r])
    && (forall n :: 0 <= n < |c.nodes| && c.nodes[n] ==> d.nodes[n])
    && (forall n, r :: 0 <= n < |c.nodes| && 0 <= r < |c.redis| ==>
          (Healthy(c.proxies[n][r]) ==> Healthy(d.proxies[n][r])))
  }

  lemma {:induction false} ReachableGrows(c: Cluster, d: Cluster, n: nat, upTo: nat)
    requires WellFormed(c) && WellFormed(d) && AtLeast(c, d)
    requires n < |c.nodes| && upTo <= |c.redis|
    ensures Reachable(c.redis, c.proxies[n], upTo) <= Reachable(d.redis, d.proxies[n], upTo)
  {
    if upTo > 0 {
      ReachableGrows(c, d, n, upTo - 1);
    }
  }

  lemma QuorumGrows(c: Cluster, d: Cluster)
    requires WellFormed(c) && WellFormed(d) && AtLeast(c, d) && HasQuorum(c)
    ensures HasQuorum(d)
  {
    var n :| 0 <= n < |c.nodes| && NodeHasQuorum(c, n);
    ReachableGrows(c, d, n, |c.redis|);
    assert NodeHasQuorum(d, n);
  }

  // Node `n` can talk to Redis server `r`.
  predicate Reaches(c: Cluster, n: nat, r: nat)
    requires WellFormed(c) && n < |c.nodes| && r < |c.redis|
  {
    c.redis[r] && (c.proxies[n][r].Normal? || c.proxies[n][r].Latency?)
  }

  ghost function Reached(c: Cluster, n: nat, upTo: nat): (r: set<nat>)
    requires WellFormed(c) && n < |c.nodes| && upTo <= |c.redis|
  {
    set i: nat | i < upTo && Reaches(c, n, i)
  }

  lemma {:induction false} ReachableCounts(c: Cluster, n: nat, upTo: nat)
    requires WellFormed(c) && n < |c.nodes| && upTo <= |c.redis|
    ensures Reachable(c.redis, c.proxies[n], upTo) == |Reached(c, n, upTo)|
    decreases upTo
  {
    if upTo > 0 {
      ReachableCounts(c, n, upTo - 1);
      var before, last := Reached(c, n, upTo - 1), upTo - 1;
      assert Reached(c, n, upTo) == if Reaches(c, n, last) then before + {last} else before;
    }
  }

  // A node has a quorum exactly when it is alive and talks to more than half of the servers.
  lemma QuorumIsMajority(c: Cluster, n: nat)
    requires WellFormed(c) && n < |c.nodes|
    ensures NodeHasQuorum(c, n) <==> c.nodes[n] && 2 * |Reached(c, n, |c.redis|)| > |c.redis|
  {
    ReachableCounts(c, n, |c.redis|);
  }

  // A node that is cut off from all servers reaches none.
  lemma CutOffReachesNone(c: Cluster, n: nat)
    requires WellFormed(c) && n < |c.nodes|
    requires forall r :: 0 <= r < |c.redis| ==> c.proxies[n][r].DropAll? || c.proxies[n][r].CloseAfterBytes?
    ensures Reachable(c.redis, c.proxies[n], |c.redis|) == 0 && !NodeHasQuorum(c, n)
  {
    ReachableCounts(c, n, |c.redis|);
    assert Reached(c, n, |c.redis|) == {};
  }

  /* ---------- actions and their undoing ---------- */

  function WithProxy(c: Cluster, n: nat, r: nat, m: ProxyMode): (d: Cluster)
    requires WellFormed(c) && n < |c.nodes| && r < |c.redis|
    ensures WellFormed(d)
  {
    c.(proxies := c.proxies[n := c.proxies[n][r := m]])
  }

  function WithColumn(c: Cluster, r: nat, m: ProxyMode): (d: Cluster)
    requires WellFormed(c) && r < |c.redis|
    ensures WellFormed(d)
  {
    c.(proxies := seq(|c.proxies|, n requires 0 <= n < |c.proxies| => c.proxies[n][r := m]))
  }

  function WithAllProxies(c: Cluster, m: ProxyMode): (d: Cluster)
    requires WellFormed(c)
    ensures WellFormed(d)
  {
    c.(proxies := seq(|c.proxies|, n requires 0 <= n < |c.proxies| => seq(|c.redis|, r => m)))
  }

  function Applied(c: Cluster, a: FaultAction): (d: Cluster)
    requires WellFormed(c) && InRange(c, a)
    ensures WellFormed(d) && |d.redis| == |c.redis| && |d.nodes| == |c.nodes|
  {
    match a
    case KillRedis(r) => c.(redis := c.redis[r := false])
    case RestartRedis(r) => c.(redis := c.redis[r := true])
    case PartitionNodeFromRedis(n, r) => WithProxy(c, n, r, DropAll)
    case PartitionAllFromRedis(r) => WithColumn(c, r, DropAll)
    case AddLatency(n, r, ms) => WithProxy(c, n, r, Latency(ms))
    case DropMidOperation(n, r, bytes) => WithProxy(c, n, r, CloseAfterBytes(bytes))
    case RestoreProxy(n, r) => WithProxy(c, n, r, Normal)
    case RestoreAllProxies => WithAllProxies(c, Normal)
    case KillNode(n) => c.(nodes := c.nodes[n := false])
    case RestartNode(n) => c.(nodes := c.nodes[n := true])
  }

  function Undone(c: Cluster, a: FaultAction): (d: Cluster)
    requires WellFormed(c) && InRange(c, a)
    ensures WellFormed(d) && |d.redis| == |c.redis| && |d.nodes| == |c.nodes|
  {
    match a
    case KillRedis(r) => c.(redis := c.redis[r := true])
    case PartitionNodeFromRedis(n, r) => WithProxy(c, n, r, Normal)
    case PartitionAllFromRedis(r) => WithColumn(c, r, Normal)
    case AddLatency(n, r, _) => WithProxy(c, n, r, Normal)
    case DropMidOperation(n, r, _) => WithProxy(c, n, r, Normal)
    case KillNode(n) => c.(nodes := c.nodes[n := true])
    case _ => c
  }

  // What an action does to a connection and to a node: kills and partitions cut exactly the
  // connections they are about, restarts and restored proxies bring them back.
  lemma AppliedReaches(c: Cluster, a: FaultAction, n: nat, r: nat)
    requires WellFormed(c) && InRange(c, a) && n < |c.nodes| && r < |c.redis|
    ensures var was, through := Reaches(c, n, r), c.proxies[n][r].Normal? || c.proxies[n][r].Latency?;
            Reaches(Applied(c, a), n, r) <==>
            match a
            case KillRedis(r') => was && r != r'
            case RestartRedis(r') => was || (r == r' && through)
            case PartitionNodeFromRedis(n', r') => was && !(n == n' && r == r')
            case PartitionAllFromRedis(r') => was && r != r'
            case AddLatency(n', r', _) => was || (n == n' && r == r' && c.redis[r])
            case DropMidOperation(n', r', _) => was && !(n == n' && r == r')
            case RestoreProxy(n', r') => was || (n == n' && r == r' && c.redis[r])
            case RestoreAllProxies => c.redis[r]
            case KillNode(_) => was
            case RestartNode(_) => was
    ensures Applied(c, a).nodes[n] == (if a == KillNode(n) then false else c.nodes[n] || a == RestartNode(n))
    ensures Applied(c, a).redis[r] == (if a == KillRedis(r) then false else c.redis[r] || a == RestartRedis(r))
  {
  }

  lemma UndoneReaches(c: Cluster, a: FaultAction, n: nat, r: nat)
    requires WellFormed(c) && InRange(c, a) && n < |c.nodes| && r < |c.redis|
    ensures var was, through := Reaches(c, n, r), c.proxies[n][r].Normal? || c.proxies[n][r].Latency?;
            Reaches(Undone(c, a), n, r) <==>
            match a
            case KillRedis(r') => was || (r == r' && through)
            case PartitionNodeFromRedis(n', r') => was || (n == n' && r == r' && c.redis[r])
            case PartitionAllFromRedis(r') => was || (r == r' && c.redis[r])
            case AddLatency(n', r', _) => was || (n == n' && r == r' && c.redis[r])
            case DropMidOperation(n', r', _) => was || (n == n' && r == r' && c.redis[r])
            case _ => was
    ensures Undone(c, a).nodes[n] == (c.nodes[n] || a == KillNode(n))
    ensures Undone(c, a).redis[r] == (c.redis[r] || a == KillRedis(r))
  {
  }

  // Actions that can take connectivity away.
  predicate Destructive(a: FaultAction)
  {
    a.KillRedis? || a.PartitionNodeFromRedis? || a.PartitionAllFromRedis? || a.DropMidOperation? || a.KillNode?
  }

  // Other actions only add connectivity, and undoing a destructive one more than makes up for it.
  lemma UndoRestores(c: Cluster, a: FaultAction)
    requires WellFormed(c) && InRange(c, a)
    ensures InRange(Applied(c, a), a)
    ensures AtLeast(c, Undone(Applied(c, a), a))
    ensures !Destructive(a) ==> AtLeast(c, Applied(c, a))
  {
  }

  /* ---------- the scheduler ---------- */

  // The recovery that is queued for a fault.
  function RecoveryOf(a: FaultAction): (r: Option<FaultAction>)
  {
    match a
    case KillRedis(r) => Some(RestartRedis(r))
    case KillNode(n) => Some(RestartNode(n))
    case PartitionNodeFromRedis(n, r) => Some(RestoreProxy(n, r))
    case PartitionAllFromRedis(_) => Some(RestoreAllProxies)
    case _ => None
  }

  datatype PendingRecovery = PendingRecovery(action: FaultAction, at: nat)

  datatype Scheduler = Scheduler(cluster: Cluster, pending: seq<PendingRecovery>)

  // What is queued fits the cluster and only adds connectivity.
  predicate Harmless(c: Cluster, pending: seq<PendingRecovery>)
  {
    forall i :: 0 <= i < |pending| ==> InRange(c, pending[i].action) && !Destructive(pending[i].action)
  }

  predicate Safe(s: Scheduler)
  {
    WellFormed(s.cluster) && HasQuorum(s.cluster) && Harmless(s.cluster, s.pending)
  }

  function Queued(pending: seq<PendingRecovery>, a: FaultAction, at: nat): (r: seq<PendingRecovery>)
  {
    if RecoveryOf(a).Some? then pending + [PendingRecovery(RecoveryOf(a).value, at)] else pending
  }

  function PopBack(pending: seq<PendingRecovery>): (r: seq<PendingRecovery>)
  {
    if pending == [] then [] else pending[..|pending| - 1]
  }

  // `apply_fault`: queue the recovery, apply, and revert if no node has a quorum left.
  function Injected(s: Scheduler, a: FaultAction, at: nat): (r: Scheduler)
    requires WellFormed(s.cluster) && InRange(s.cluster, a)
  {
    var c := Applied(s.cluster, a);
    if HasQuorum(c) then Scheduler(c, Queued(s.pending, a, at))
    else Scheduler(Undone(c, a), PopBack(Queued(s.pending, a, at)))
  }

  // `process_recoveries`: the queue is emptied from the front as long as its head is due.
  function Recovered(s: Scheduler, now: nat): (r: Scheduler)
    requires WellFormed(s.cluster) && Harmless(s.cluster, s.pending)
    decreases |s.pending|
  {
    if s.pending == [] || s.pending[0].at > now then s
    else
      var c := Applied(s.cluster, s.pending[0].action);
      HarmlessStays(s.cluster, c, s.pending);
      Recovered(Scheduler(c, s.pending[1..]), now)
  }

  lemma HarmlessStays(c: Cluster, d: Cluster, pending: seq<PendingRecovery>)
    requires |d.redis| == |c.redis| && |d.nodes| == |c.nodes| && Harmless(c, pending)
    ensures Harmless(d, pending)
  {
  }

  lemma QueuedIsHarmless(c: Cluster, pending: seq<PendingRecovery>, a: FaultAction, at: nat)
    requires InRange(c, a) && Harmless(c, pending)
    ensures Harmless(c, Queued(pending, a, at))
  {
  }

  // Injecting a fault keeps the quorum, because reverting it leaves the cluster at least as
  // connected as it was.
  lemma InjectionIsSafe(s: Scheduler, a: FaultAction, at: nat)
    requires Safe(s) && InRange(s.cluster, a)
    ensures Safe(Injected(s, a, at))
  {
    UndoRestores(s.cluster, a);
    var c := Applied(s.cluster, a);
    QueuedIsHarmless(s.cluster, s.pending, a, at);
    HarmlessStays(s.cluster, c, Queued(s.pending, a, at));
    HarmlessStays(s.cluster, Undone(c, a), Queued(s.pending, a, at));
    if !HasQuorum(c) {
      QuorumGrows(s.cluster, Undone(c, a));
    }
  }

  lemma {:induction false} RecoveryIsSafe(s: Scheduler, now: nat)
    requires Safe(s)
    ensures Safe(Recovered(s, now))
    decreases |s.pending|
  {
    if s.pending != [] && s.pending[0].at <= now {
      var a := s.pending[0].action;
      UndoRestores(s.cluster, a);
      QuorumGrows(s.cluster, Applied(s.cluster, a));
      HarmlessStays(s.cluster, Applied(s.cluster, a), s.pending);
      RecoveryIsSafe(Scheduler(Applied(s.cluster, a), s.pending[1..]), now);
    }
  }

  // The recovery of a fault makes up for it, and touches nothing but what the fault was about. Only the
  // recovery from a partition of all nodes restores all proxies.
  lemma RecoveryMakesUp(c: Cluster, a: FaultAction, n: nat, r: nat)
    requires WellFormed(c) && InRange(c, a) && n < |c.nodes| && r < |c.redis|
    ensures RecoveryOf(a).Some? <==>
            a.KillRedis? || a.KillNode? || a.PartitionNodeFromRedis? || a.PartitionAllFromRedis?
    ensures RecoveryOf(a).Some? ==>
              && InRange(Applied(c, a), RecoveryOf(a).value)
              && var d := Applied(Applied(c, a), RecoveryOf(a).value);
              && AtLeast(c, d)
              && (d.redis[r] <==> c.redis[r] || a == KillRedis(r))
              && (d.nodes[n] <==> c.nodes[n] || a == KillNode(n))
              && (d.proxies[n][r] == c.proxies[n][r] || a == PartitionNodeFromRedis(n, r) || a.PartitionAllFromRedis?)
  {
  }

  // A fault that leaves a quorum is kept, with its recovery at the end of the queue; any other is undone.
  lemma InjectedIs(s: Scheduler, a: FaultAction, at: nat)
    requires WellFormed(s.cluster) && InRange(s.cluster, a)
    ensures var c := Applied(s.cluster, a);
            if HasQuorum(c) then
              Injected(s, a, at)
              == Scheduler(c, if RecoveryOf(a).None? then s.pending
                              else s.pending + [PendingRecovery(RecoveryOf(a).value, at)])
            else Injected(s, a, at).cluster == Undone(c, a)
  {
  }

  function AppliedAll(c: Cluster, pending: seq<PendingRecovery>): (d: Cluster)
    requires WellFormed(c) && Harmless(c, pending)
    ensures WellFormed(d) && |d.redis| == |c.redis| && |d.nodes| == |c.nodes|
    decreases |pending|
  {
    if pending == [] then c
    else
      HarmlessStays(c, Applied(c, pending[0].action), pending);
      AppliedAll(Applied(c, pending[0].action), pending[1..])
  }

  // Exactly the due entries at the head of the queue are processed, in order.
  lemma {:induction false} RecoveredIs(s: Scheduler, now: nat) returns (k: nat)
    requires WellFormed(s.cluster) && Harmless(s.cluster, s.pending)
    ensures k <= |s.pending| && (forall i :: 0 <= i < k ==> s.pending[i].at <= now)
    ensures k < |s.pending| ==> s.pending[k].at > now
    ensures Recovered(s, now) == Scheduler(AppliedAll(s.cluster, s.pending[..k]), s.pending[k..])
    decreases |s.pending|
  {
    if s.pending == [] || s.pending[0].at > now {
      k := 0;
      assert s.pending[0..] == s.pending && s.pending[..0] == [];
    } else {
      var c := Applied(s.cluster, s.pending[0].action);
      HarmlessStays(s.cluster, c, s.pending);
      var m := RecoveredIs(Scheduler(c, s.pending[1..]), now);
      k := m + 1;
      assert s.pending[..k][1..] == s.pending[1..][..m] && s.pending[1..][m..] == s.pending[k..];
    }
  }

  // A revert is meant to drop the recovery it queued. It does exactly that, except when a
  // mid-operation drop is reverted: that queues nothing, and the recovery of an earlier fault is
  // lost if there is one.
  lemma RevertKeepsQueueIff(s: Scheduler, a: FaultAction, at: nat)
    requires Safe(s) && InRange(s.cluster, a) && !HasQuorum(Applied(s.cluster, a))
    ensures Injected(s, a, at).pending == s.pending <==> !a.DropMidOperation? || s.pending == []
  {
    if !Destructive(a) {
      UndoRestores(s.cluster, a);
      QuorumGrows(s.cluster, Applied(s.cluster, a));
    }
    if RecoveryOf(a).Some? {
      assert Queued(s.pending, a, at)[..|s.pending|] == s.pending;
    }
  }

  // The drop takes the last quorum away and is reverted; with it goes the restart of node 1.
  lemma RestartIsLost()
    ensures var c := Cluster([true], [true, false], [[Normal], [Normal]]);
            var s := Scheduler(c, [PendingRecovery(RestartNode(1), 5)]);
            Safe(s) && Injected(s, DropMidOperation(0, 0, 10), 0) == Scheduler(s.cluster, [])
  {
    var c := Cluster([true], [true, false], [[Normal], [Normal]]);
    var s, a := Scheduler(c, [PendingRecovery(RestartNode(1), 5)]), DropMidOperation(0, 0, 10);
    assert Reachable(c.redis, c.proxies[0], 1) == 1;
    assert NodeHasQuorum(c, 0);
    var d := Applied(c, a);
    assert d.proxies[0] == [CloseAfterBytes(10)] && Reachable(d.redis, d.proxies[0], 1) == 0;
    assert !NodeHasQuorum(d, 0) && !NodeHasQuorum(d, 1);
    assert !HasQuorum(d);
    assert Undone(d, a).proxies[0] == [Normal] && Undone(d, a).proxies == c.proxies;
    RevertKeepsQueueIff(s, a, 0);
  }

  /* ---------- whole runs ---------- */

  datatype Event = Inject(action: FaultAction, at: nat) | Recover(now: nat)

  predicate EventInRange(c: Cluster, e: Event)
  {
    e.Inject? ==> InRange(c, e.action)
  }

  function Stepped(s: Scheduler, e: Event): (r: Scheduler)
    requires Safe(s) && EventInRange(s.cluster, e)
  {
    match e
    case Inject(a, at) => Injected(s, a, at)
    case Recover(now) => Recovered(s, now)
  }

  function InitialCluster(nodes: nat, redis: nat): (c: Cluster)
    ensures WellFormed(c)
  {
    Cluster(seq(redis, _ => true), seq(nodes, _ => true), seq(nodes, _ => seq(redis, _ => Normal)))
  }

  lemma {:induction false} AllReachable(redis: seq<bool>, proxies: seq<ProxyMode>, upTo: nat)
    requires upTo <= |redis| && upTo <= |proxies|
    requires forall r :: 0 <= r < upTo ==> redis[r] && proxies[r].Normal?
    ensures Reachable(redis, proxies, upTo) == upTo
  {
    if upTo > 0 {
      AllReachable(redis, proxies, upTo - 1);
    }
  }

  lemma InitiallySafe(nodes: nat, redis: nat)
    ensures HasQuorum(InitialCluster(nodes, redis)) <==> nodes > 0 && redis > 0
  {
    var c := InitialCluster(nodes, redis);
    if nodes > 0 {
      AllReachable(c.redis, c.proxies[0], redis);
    }
    if nodes > 0 && redis > 0 {
      assert NodeHasQuorum(c, 0);
    } else if nodes > 0 {
      assert forall n :: 0 <= n < nodes ==> Reachable(c.redis, c.proxies[n], 0) == 0;
    }
  }

  // Every state of the run is safe.
  ghost predicate SafeRun(s: Scheduler, events: seq<Event>)
    decreases |events|
  {
    Safe(s) && (events != [] && EventInRange(s.cluster, events[0]) ==> SafeRun(Stepped(s, events[0]), events[1..]))
  }

  // Whatever faults are injected and whenever recoveries happen, some live node can reach a
  // majority of the Redis servers at every step.
  lemma {:induction false} QuorumAlways(s: Scheduler, events: seq<Event>)
    requires Safe(s)
    ensures SafeRun(s, events)
    decreases |events|
  {
    if events != [] && EventInRange(s.cluster, events[0]) {
      match events[0] {
        case Inject(a, at) => InjectionIsSafe(s, a, at);
        case Recover(now) => RecoveryIsSafe(s, now);
      }
      QuorumAlways(Stepped(s, events[0]), events[1..]);
    }
  }

  /* ---------- the scheduler as it runs ---------- */

  function Count(alive: seq<bool>): (r: nat)
    ensures r <= |alive|
  {
    if alive == [] then 0 else Count(alive[..|alive| - 1]) + if alive[|alive| - 1] then 1 else 0
  }

  // Switching one off takes one away.
  lemma {:induction false} CountOff(alive: seq<bool>, i: nat)
    requires i < |alive| && alive[i]
    ensures Count(alive[i := false]) == Count(alive) - 1
    decreases |alive|
  {
    var init := alive[..|alive| - 1];
    if i == |alive| - 1 {
      assert alive[i := false][..|alive| - 1] == init;
    } else {
      assert alive[i := false][..|alive| - 1] == init[i := false];
      CountOff(init, i);
    }
  }

  class FaultScheduler {
    var redis: seq<bool>
    var nodes: seq<bool>
    var proxies: seq<seq<ProxyMode>>
    var pendingRecoveries: seq<PendingRecovery>

    ghost function View(): Scheduler
      reads this
    {
      Scheduler(Cluster(redis, nodes, proxies), pendingRecoveries)
    }

    // All nodes and servers are up and connected.
    constructor (nodeCount: nat, redisCount: nat)
      ensures View() == Scheduler(InitialCluster(nodeCount, redisCount), [])
      ensures nodeCount > 0 && redisCount > 0 ==> Safe(View())
    {
      var c := InitialCluster(nodeCount, redisCount);
      redis, nodes, proxies, pendingRecoveries := c.redis, c.nodes, c.proxies, [];
      InitiallySafe(nodeCount, redisCount);
    }

    method ReachableRedisCount(node: nat) returns (count: nat)
      requires WellFormed(View().cluster) && node < |nodes|
      ensures count == Reachable(redis, proxies[node], |redis|)
    {
      count := 0;
      for r := 0 to |redis|
        invariant count == Reachable(redis, proxies[node], r)
      {
        if redis[r] && Healthy(proxies[node][r]) {
          count := count + 1;
        }
      }
    }

    method AnyNodeHasRedisQuorum() returns (any: bool)
      requires WellFormed(View().cluster)
      ensures any <==> HasQuorum(View().cluster)
    {
      var quorum := |redis| / 2 + 1;
      for n := 0 to |nodes|
        invariant forall m :: 0 <= m < n ==> !NodeHasQuorum(View().cluster, m)
      {
        if nodes[n] {
          var count := ReachableRedisCount(n);
          if count >= quorum {
            assert NodeHasQuorum(View().cluster, n);
            return true;
          }
        }
      }
      any := false;
    }

    // Sets the proxies of all nodes to one Redis server.
    method SetColumn(r: nat, mode: ProxyMode)
      requires WellFormed(View().cluster) && r < |redis|
      modifies this`proxies
      ensures View() == old(View()).(cluster := WithColumn(old(View()).cluster, r, mode))
    {
      for n := 0 to |nodes|
        invariant |proxies| == |old(proxies)|
        invariant forall m :: 0 <= m < |proxies| ==>
          proxies[m] == if m < n then old(proxies)[m][r := mode] else old(proxies)[m]
      {
        proxies := proxies[n := proxies[n][r := mode]];
      }
    }

    method RestoreAll()
      requires WellFormed(View().cluster)
      modifies this`proxies
      ensures View() == old(View()).(cluster := WithAllProxies(old(View()).cluster, Normal))
    {
      for n := 0 to |nodes|
        invariant |proxies| == |nodes|
        invariant forall m :: 0 <= m < n ==> proxies[m] == seq(|redis|, r => Normal)
      {
        proxies := proxies[n := seq(|redis|, r => Normal)];
      }
    }

    method ApplyAction(a: FaultAction)
      requires WellFormed(View().cluster) && InRange(View().cluster, a)
      modifies this`redis, this`nodes, this`proxies
      ensures View() == old(View()).(cluster := Applied(old(View()).cluster, a))
    {
      match a
      case KillRedis(r) => redis := redis[r := false];
      case RestartRedis(r) => redis := redis[r := true];
      case PartitionNodeFromRedis(n, r) => proxies := proxies[n := proxies[n][r := DropAll]];
      case PartitionAllFromRedis(r) => SetColumn(r, DropAll);
      case AddLatency(n, r, ms) => proxies := proxies[n := proxies[n][r := Latency(ms)]];
      case DropMidOperation(n, r, bytes) => proxies := proxies[n := proxies[n][r := CloseAfterBytes(bytes)]];
      case RestoreProxy(n, r) => proxies := proxies[n := proxies[n][r := Normal]];
      case RestoreAllProxies => RestoreAll();
      case KillNode(n) => nodes := nodes[n := false];
      case RestartNode(n) => nodes := nodes[n := true];
    }

    method UndoAction(a: FaultAction)
      requires WellFormed(View().cluster) && InRange(View().cluster, a)
      modifies this`redis, this`nodes, this`proxies
      ensures View() == old(View()).(cluster := Undone(old(View()).cluster, a))
    {
      match a
      case KillRedis(r) => redis := redis[r := true];
      case PartitionNodeFromRedis(n, r) => proxies := proxies[n := proxies[n][r := Normal]];
      case PartitionAllFromRedis(r) => SetColumn(r, Normal);
      case AddLatency(n, r, _) => proxies := proxies[n := proxies[n][r := Normal]];
      case DropMidOperation(n, r, _) => proxies := proxies[n := proxies[n][r := Normal]];
      case KillNode(n) => nodes := nodes[n := true];
      case _ =>
    }

    method ApplyFault(a: FaultAction, recoveryAt: nat)
      requires Safe(View()) && InRange(View().cluster, a)
      modifies this
      ensures View() == Injected(old(View()), a, recoveryAt)
      ensures Safe(View())
    {
      InjectionIsSafe(View(), a, recoveryAt);
      var recovery := RecoveryOf(a);
      if recovery.Some? {
        pendingRecoveries := pendingRecoveries + [PendingRecovery(recovery.value, recoveryAt)];
      }
      ApplyAction(a);
      var quorum := AnyNodeHasRedisQuorum();
      if !quorum {
        UndoAction(a);
        if pendingRecoveries != [] {
          pendingRecoveries := pendingRecoveries[..|pendingRecoveries| - 1];
        }
      }
    }

    method ProcessRecoveries(now: nat)
      requires Safe(View())
      modifies this
      ensures View() == Recovered(old(View()), now)
      ensures Safe(View())
    {
      RecoveryIsSafe(View(), now);
      while pendingRecoveries != [] && pendingRecoveries[0].at <= now
        invariant WellFormed(View().cluster) && Harmless(View().cluster, View().pending)
        invariant Recovered(View(), now) == Recovered(old(View()), now)
        decreases |pendingRecoveries|
      {
        var recovery := pendingRecoveries[0];
        HarmlessStays(View().cluster, Applied(View().cluster, recovery.action), View().pending);
        pendingRecoveries := pendingRecoveries[1..];
        ApplyAction(recovery.action);
      }
    }

    // A random fault. A Redis server is only killed if a quorum stays alive, a node only if
    // another one stays alive.
    method PickFault() returns (a: Option<FaultAction>)
      requires WellFormed(View().cluster) && |nodes| > 0 && |redis| > 0
      ensures a.Some? ==> InRange(View().cluster, a.value)
      ensures a.Some? && a.value.KillRedis? ==> Count(Applied(View().cluster, a.value).redis) >= Quorum(View().cluster)
      ensures a.Some? && a.value.KillNode? ==> Count(Applied(View().cluster, a.value).nodes) >= 1
    {
      var roll, n, r: nat :| 0 <= roll < 100 && 0 <= n < |nodes| && 0 <= r < |redis|;
      if roll < 25 {
        a := PickPartition(n, r);
      } else if roll < 45 {
        var ms: nat :| 50 <= ms < 500;
        a := if nodes[n] then Some(AddLatency(n, r, ms)) else None;
      } else if roll < 60 {
        var bytes: nat :| 10 <= bytes < 500;
        a := if nodes[n] then Some(DropMidOperation(n, r, bytes)) else None;
      } else if roll < 75 {
        if redis[r] {
          CountOff(redis, r);
          a := if Count(redis) <= |redis| / 2 + 1 then None else Some(KillRedis(r));
        } else {
          a := Some(RestartRedis(r));
        }
      } else if roll < 90 {
        if nodes[n] {
          CountOff(nodes, n);
          a := if Count(nodes) <= 1 then None else Some(KillNode(n));
        } else {
          a := Some(RestartNode(n));
        }
      } else if roll < 95 {
        a := Some(RestoreProxy(n, r));
      } else {
        a := Some(RestoreAllProxies);
      }
    }

    method PickPartition(n: nat, r: nat) returns (a: Option<FaultAction>)
      requires n < |nodes| && r < |redis|
      ensures a == Some(PartitionAllFromRedis(r)) || a == if nodes[n] then Some(PartitionNodeFromRedis(n, r)) else None
    {
      if * {
        a := Some(PartitionAllFromRedis(r));
      } else {
        a := if nodes[n] then Some(PartitionNodeFromRedis(n, r)) else None;
      }
    }
  }
}
