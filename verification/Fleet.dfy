/**
  The fleet coordinator: awards become leases, leases expire, and an expired task goes to the
  runner-up or back to auction.
*/
module Fleet {
  import opened Wrappers
  import opened Auction
  import Leases

  datatype FleetNode = FleetNode(id: string, modality: string, lastHeartbeat: real, activeTasks: int, healthy: bool)

  datatype LogEntry =
    | Promotion(task: string, failed: string, reassigned: string, at: real)
    | Reauction(task: string, failed: string, at: real)

  type Nodes = map<string, FleetNode>

  // ---------------------------------------------------------------------
  // Counting active tasks
  // ---------------------------------------------------------------------

  ghost predicate Counts(nodes: Nodes, leases: Leases.Table, node: string) {
    node in nodes ==> nodes[node].activeTasks == Leases.Held(leases, node)
  }

  /** Every registered node counts as many active tasks as it holds leases. */
  ghost predicate Balanced(nodes: Nodes, leases: Leases.Table) {
    forall node: string :: Counts(nodes, leases, node)
  }

  function OneMore(nodes: Nodes, node: string): Nodes {
    if node in nodes then nodes[node := nodes[node].(activeTasks := nodes[node].activeTasks + 1)] else nodes
  }

  function Alive(nodes: Nodes, node: string, now: real): Nodes {
    if node in nodes then nodes[node := nodes[node].(lastHeartbeat := now)] else nodes
  }

  /** One task less, not below zero, and no longer healthy. */
  function Failed(nodes: Nodes, node: string): Nodes {
    if node in nodes
    then nodes[node := nodes[node].(healthy := false,
           activeTasks := if nodes[node].activeTasks > 0 then nodes[node].activeTasks - 1 else 0)]
    else nodes
  }

  /** Granting a lease for a task without one keeps the balance. */
  lemma GrantKeepsBalance(nodes: Nodes, leases: Leases.Table, task: string, lease: Leases.Lease)
    requires Balanced(nodes, leases) && task !in leases
    ensures Balanced(OneMore(nodes, lease.nodeId), leases[task := lease])
  {
    var nodes', leases' := OneMore(nodes, lease.nodeId), leases[task := lease];
    forall node: string
      ensures Counts(nodes', leases', node)
    {
      assert Counts(nodes, leases, node);
      Leases.HeldAfterAddition(leases, task, lease, node);
    }
  }

  /** Reclaiming a lease from a failed node keeps it too. */
  lemma ReclaimKeepsBalance(nodes: Nodes, leases: Leases.Table, task: string)
    requires Balanced(nodes, leases) && task in leases
    ensures Balanced(Failed(nodes, leases[task].nodeId), leases - {task})
  {
    var nodes', leases' := Failed(nodes, leases[task].nodeId), leases - {task};
    forall node: string
      ensures Counts(nodes', leases', node)
    {
      assert Counts(nodes, leases, node);
      Leases.HeldAfterRemoval(leases, task, node);
    }
  }

  /** Awarding a task keeps the balance exactly when no registered node holds a lease for it already. */
  lemma AwardBalanceExactly(nodes: Nodes, leases: Leases.Table, task: string, lease: Leases.Lease)
    requires Balanced(nodes, leases)
    ensures Balanced(OneMore(nodes, lease.nodeId), leases[task := lease])
       <==> task !in leases || leases[task].nodeId !in nodes
  {
    var nodes', leases' := OneMore(nodes, lease.nodeId), leases[task := lease];
    if task !in leases {
      GrantKeepsBalance(nodes, leases, task, lease);
    } else if leases[task].nodeId in nodes {
      var holder := leases[task].nodeId;
      assert Counts(nodes, leases, holder);
      Leases.HeldAfterReplacement(leases, task, lease, holder);
      assert !Counts(nodes', leases', holder);
    } else {
      forall node: string
        ensures Counts(nodes', leases', node)
      {
        assert Counts(nodes, leases, node);
        Leases.HeldAfterReplacement(leases, task, lease, node);
      }
    }
  }

  /** One node, one task, awarded twice: two active tasks are counted for one lease. */
  lemma SecondAwardCountsTwice(lease: Leases.Lease)
    ensures var nodes: Nodes := map[lease.nodeId := FleetNode(lease.nodeId, "", 0.0, 0, true)];
      var once := OneMore(nodes, lease.nodeId);
      var leases := map[lease.taskId := lease];
      Balanced(once, leases) && !Balanced(OneMore(once, lease.nodeId), leases)
  {
    var nodes: Nodes := map[lease.nodeId := FleetNode(lease.nodeId, "", 0.0, 0, true)];
    var once := OneMore(nodes, lease.nodeId);
    var leases := map[lease.taskId := lease];
    assert Balanced(nodes, map[]);
    GrantKeepsBalance(nodes, map[], lease.taskId, lease);
    assert map[][lease.taskId := lease] == leases;
    AwardBalanceExactly(once, leases, lease.taskId, lease);
    assert leases[lease.taskId := lease] == leases;
  }

  /** Registering a node again keeps the balance exactly when it holds no lease. */
  lemma RegistrationBalanceExactly(nodes: Nodes, leases: Leases.Table, n: FleetNode)
    requires Balanced(nodes, leases) && n.activeTasks == 0
    ensures Balanced(nodes[n.id := n], leases) <==> Leases.Held(leases, n.id) == 0
  {
    var nodes' := nodes[n.id := n];
    if Leases.Held(leases, n.id) == 0 {
      forall node: string
        ensures Counts(nodes', leases, node)
      {
        assert Counts(nodes, leases, node);
      }
    } else {
      assert !Counts(nodes', leases, n.id);
    }
  }

  /** A heartbeat does not touch the count of active tasks, whether it renews the lease or not. */
  lemma HeartbeatKeepsBalance(
    nodes: Nodes, leases: Leases.Table, task: string, node: string, extension: Option<real>, now: real)
    requires Balanced(nodes, leases)
    ensures Balanced(Alive(nodes, node, now), leases)
    ensures task in leases ==>
      Balanced(Alive(nodes, node, now),
        leases[task := leases[task].(lastHeartbeat := now, duration := Leases.Ttl(extension, leases[task].duration))])
  {
    var nodes' := Alive(nodes, node, now);
    forall n: string
      ensures Counts(nodes', leases, n)
    {
      assert Counts(nodes, leases, n);
    }
    if task in leases {
      var renewed := leases[task].(lastHeartbeat := now, duration := Leases.Ttl(extension, leases[task].duration));
      var leases' := leases[task := renewed];
      forall n: string
        ensures Counts(nodes', leases', n)
      {
        assert Counts(nodes', leases, n);
        Leases.HeldAfterReplacement(leases, task, renewed, n);
      }
    }
  }

  // ---------------------------------------------------------------------
  // The failover log
  // ---------------------------------------------------------------------

  /** No entry promotes a node that failed in it or before it. */
  ghost predicate LogSafe(log: seq<LogEntry>, unhealthy: set<string>) {
    && (forall i :: 0 <= i < |log| ==> log[i].failed in unhealthy)
    && (forall i, j :: 0 <= j <= i < |log| && log[i].Promotion? ==> log[i].reassigned != log[j].failed)
  }

  lemma LogGrows(log: seq<LogEntry>, unhealthy: set<string>, e: LogEntry)
    requires LogSafe(log, unhealthy)
    requires e.Promotion? ==> e.reassigned !in unhealthy + {e.failed}
    ensures LogSafe(log + [e], unhealthy + {e.failed})
  {
  }

  // ---------------------------------------------------------------------
  // The sweep as a state machine
  // ---------------------------------------------------------------------

  datatype State = State(
    nodes: Nodes, unhealthy: set<string>, leases: Leases.Table, auctions: map<string, Record>, log: seq<LogEntry>)

  /** The announcement of a task that goes back to auction. */
  function Again(auctions: map<string, Record>, task: string, now: real): Announcement {
    if task in auctions then
      var a := auctions[task].announcement;
      a.(taskId := task, createdAt := now, round := a.round + 1)
    else Announcement(task, "Re-auction for expired task " + task, [], 5.0, true, now, 1)
  }

  /** The bid that may take a task over: it has the best rank, and its node is known to be healthy. */
  function Successor(auctions: map<string, Record>, nodes: Nodes, excluded: set<string>, task: string)
    : (r: Option<Ranked>)
    ensures r.Some? ==> task in auctions
  {
    var r := if task in auctions then NextBest(auctions[task].ranked, excluded) else None;
    if r.Some? && r.value.bid.nodeId in nodes && nodes[r.value.bid.nodeId].healthy then r else None
  }

  /** The lease of the node that takes over. */
  function Renewed(lease: Leases.Lease, node: string, now: real, leaseId: string, default: real): Leases.Lease {
    Leases.Lease(leaseId, lease.taskId, node, now, Leases.Ttl(Some(lease.duration), default), now)
  }

  function Reclaimed(s: State, lease: Leases.Lease): State {
    s.(nodes := Failed(s.nodes, lease.nodeId), unhealthy := s.unhealthy + {lease.nodeId},
       leases := s.leases - {lease.taskId})
  }

  function Promoted(s: State, lease: Leases.Lease, r: Ranked, now: real, leaseId: string, default: real): State
    requires lease.taskId in s.auctions
  {
    var node := r.bid.nodeId;
    var fresh_ := Renewed(lease, node, now, leaseId, default);
    var award := Award(lease.taskId, node, leaseId, fresh_.duration, now, r.bid.bidId, r.score);
    s.(nodes := OneMore(s.nodes, node), leases := s.leases[lease.taskId := fresh_],
       auctions := s.auctions[lease.taskId := s.auctions[lease.taskId].(award := Some(award))],
       log := s.log + [Promotion(lease.taskId, lease.nodeId, node, now)])
  }

  function Reauctioned(s: State, lease: Leases.Lease, now: real): State {
    s.(auctions := s.auctions[lease.taskId := Fresh(Again(s.auctions, lease.taskId, now))],
       log := s.log + [Reauction(lease.taskId, lease.nodeId, now)])
  }

  /** One expired lease is dealt with. */
  function Step(s: State, lease: Leases.Lease, now: real, leaseId: string, default: real): State {
    var t := Reclaimed(s, lease);
    var heir := Successor(t.auctions, t.nodes, t.unhealthy, lease.taskId);
    if heir.Some? then Promoted(t, lease, heir.value, now, leaseId, default) else Reauctioned(t, lease, now)
  }

  function Sweep(s: State, expired: seq<Leases.Lease>, now: real, ids: nat -> string, default: real): State {
    if expired == [] then s
    else
      var n := |expired| - 1;
      Step(Sweep(s, expired[..n], now, ids, default), expired[n], now, ids(n), default)
  }

  lemma SweepExtends(s: State, expired: seq<Leases.Lease>, k: nat, now: real, ids: nat -> string, default: real)
    requires k < |expired|
    ensures Sweep(s, expired[..k + 1], now, ids, default)
         == Step(Sweep(s, expired[..k], now, ids, default), expired[k], now, ids(k), default)
  {
    assert expired[..k + 1][..k] == expired[..k];
  }

  function TasksUpTo(leases: seq<Leases.Lease>, n: nat): (tasks: seq<string>)
    requires n <= |leases|
    ensures |tasks| == n && forall i :: 0 <= i < n ==> tasks[i] == leases[i].taskId
  {
    seq(n, i requires 0 <= i < n => leases[i].taskId)
  }

  function NodesOf(leases: seq<Leases.Lease>): set<string> {
    set l <- leases :: l.nodeId
  }

  // ---------------------------------------------------------------------
  // What every step keeps
  // ---------------------------------------------------------------------

  ghost predicate Sound(s: State) {
    && Leases.Keyed(s.leases) && LogSafe(s.log, s.unhealthy)
    && (forall task :: task in s.auctions ==> Distinct(Ids(s.auctions[task].bids)))
  }

  lemma StepKeepsSound(s: State, lease: Leases.Lease, now: real, leaseId: string, default: real)
    requires Sound(s)
    ensures Sound(Step(s, lease, now, leaseId, default))
  {
    var t := Reclaimed(s, lease);
    var heir := Successor(t.auctions, t.nodes, t.unhealthy, lease.taskId);
    if heir.Some? {
      NextBestNotExcluded(t.auctions[lease.taskId].ranked, t.unhealthy);
      LogGrows(s.log, s.unhealthy, Promotion(lease.taskId, lease.nodeId, heir.value.bid.nodeId, now));
    } else {
      LogGrows(s.log, s.unhealthy, Reauction(lease.taskId, lease.nodeId, now));
    }
  }

  lemma {:induction false} NextBestNotExcluded(ranked: seq<Ranked>, excluded: set<string>)
    ensures NextBest(ranked, excluded).Some? ==> NextBest(ranked, excluded).value.bid.nodeId !in excluded
    decreases |ranked|
  {
    if ranked != [] {
      NextBestNotExcluded(ranked[1..], excluded);
    }
  }

  /** After any sweep, no node has been promoted that failed at that moment or before it. */
  lemma {:induction false} SweepKeepsSound(s: State, expired: seq<Leases.Lease>, now: real, ids: nat -> string,
                                           default: real)
    requires Sound(s)
    ensures Sound(Sweep(s, expired, now, ids, default))
    decreases |expired|
  {
    if expired != [] {
      var n := |expired| - 1;
      SweepKeepsSound(s, expired[..n], now, ids, default);
      StepKeepsSound(Sweep(s, expired[..n], now, ids, default), expired[n], now, ids(n), default);
    }
  }

  lemma StepKeepsBalance(s: State, lease: Leases.Lease, now: real, leaseId: string, default: real)
    requires lease.taskId in s.leases && s.leases[lease.taskId] == lease && Balanced(s.nodes, s.leases)
    ensures var t := Step(s, lease, now, leaseId, default); Balanced(t.nodes, t.leases)
  {
    ReclaimKeepsBalance(s.nodes, s.leases, lease.taskId);
    var t := Reclaimed(s, lease);
    var heir := Successor(t.auctions, t.nodes, t.unhealthy, lease.taskId);
    if heir.Some? {
      GrantKeepsBalance(t.nodes, t.leases, lease.taskId,
        Renewed(lease, heir.value.bid.nodeId, now, leaseId, default));
    }
  }

  // ---------------------------------------------------------------------
  // What a sweep amounts to
  // ---------------------------------------------------------------------

  /** Distinct leases of the table. */
  ghost predicate Listed(expired: seq<Leases.Lease>, leases: Leases.Table) {
    && (forall i :: 0 <= i < |expired| ==> expired[i].taskId in leases && leases[expired[i].taskId] == expired[i])
    && (forall i, j :: 0 <= i < j < |expired| ==> expired[i].taskId != expired[j].taskId)
  }

  /** Who takes over the i-th task, told from the state before the sweep alone. */
  function Heir(s: State, expired: seq<Leases.Lease>, i: nat): (r: Option<Ranked>)
    requires i < |expired|
  {
    Successor(s.auctions, s.nodes, s.unhealthy + NodesOf(expired[..i + 1]), expired[i].taskId)
  }

  /** A lease from now on, for as long as the one that expired, or for the default time if that was not positive. */
  ghost predicate HandedOver(l: Leases.Lease, lease: Leases.Lease, node: string, now: real, leaseId: string,
                             default: real)
  {
    && l.leaseId == leaseId && l.taskId == lease.taskId && l.nodeId == node && l.grantedAt == l.lastHeartbeat == now
    && l.duration == if lease.duration > 0.0 then lease.duration else default
  }

  /** An open auction without bids or award, announced now for one more round, or for the first one. */
  ghost predicate OpenAgain(r: Record, before: map<string, Record>, task: string, now: real) {
    && r.bids == [] && !r.closed && r.award == None && r.rejections == [] && r.ranked == []
    && r.announcement.taskId == task && r.announcement.createdAt == now
    && (task in before ==>
          var a := before[task].announcement;
          && r.announcement.round == a.round + 1 && r.announcement.instruction == a.instruction
          && r.announcement.requiredSkills == a.requiredSkills && r.announcement.window == a.window
          && (r.announcement.sealed <==> a.sealed))
    && (task !in before ==>
          r.announcement.round == 1 && r.announcement.requiredSkills == [] && r.announcement.window == 5.0
          && r.announcement.sealed)
  }

  /** A fresh lease for the heir, or a new auction without bids. */
  ghost predicate Settled(s: State, t: State, lease: Leases.Lease, heir: Option<Ranked>, now: real, leaseId: string,
                          default: real)
  {
    var task := lease.taskId;
    && task in t.auctions
    && (heir.Some? ==>
          && task in t.leases && HandedOver(t.leases[task], lease, heir.value.bid.nodeId, now, leaseId, default)
          && task in s.auctions
          && t.auctions[task] == s.auctions[task].(award := Some(Award(task, heir.value.bid.nodeId, leaseId,
               t.leases[task].duration, now, heir.value.bid.bidId, heir.value.score))))
    && (heir.None? ==> task !in t.leases && OpenAgain(t.auctions[task], s.auctions, task, now))
  }

  /** What a sweep leaves alone. */
  ghost predicate Elsewhere(s: State, t: State, expired: seq<Leases.Lease>) {
    forall task :: (forall l <- expired :: l.taskId != task) ==> SameTask(s, t, task)
  }

  ghost predicate SameTask(s: State, t: State, task: string) {
    && (task in t.leases <==> task in s.leases) && (task in s.leases ==> t.leases[task] == s.leases[task])
    && (task in t.auctions <==> task in s.auctions) && (task in s.auctions ==> t.auctions[task] == s.auctions[task])
  }

  /** Which nodes are up after a sweep. */
  ghost predicate Health(s: State, t: State, failed: set<string>) {
    && t.unhealthy == s.unhealthy + failed && t.nodes.Keys == s.nodes.Keys
    && forall n :: n in s.nodes ==> (t.nodes[n].healthy <==> s.nodes[n].healthy && n !in failed)
  }

  lemma NodesOfExtends(leases: seq<Leases.Lease>, k: nat)
    requires k < |leases|
    ensures NodesOf(leases[..k + 1]) == NodesOf(leases[..k]) + {leases[k].nodeId}
  {
    var some := leases[..k + 1];
    assert some == leases[..k] + [leases[k]];
    assert some[k] == leases[k];
  }

  lemma SuccessorAgrees(s: State, t: State, excluded: set<string>, failed: set<string>, task: string)
    requires SameTask(s, t, task) && failed <= excluded && t.nodes.Keys == s.nodes.Keys
    requires forall n :: n in s.nodes ==> (t.nodes[n].healthy <==> s.nodes[n].healthy && n !in failed)
    ensures Successor(t.auctions, t.nodes, excluded, task) == Successor(s.auctions, s.nodes, excluded, task)
  {
    if task in s.auctions {
      NextBestNotExcluded(s.auctions[task].ranked, excluded);
    }
  }

  lemma ReclaimedHealth(s: State, t: State, failed: set<string>, lease: Leases.Lease)
    requires Health(s, t, failed)
    ensures Health(s, Reclaimed(t, lease), failed + {lease.nodeId})
  {
  }

  /** One step, told from the state before the sweep. */
  lemma StepEffect(s: State, t: State, failed: set<string>, lease: Leases.Lease, now: real, leaseId: string,
                   default: real)
    requires Health(s, t, failed) && SameTask(s, t, lease.taskId)
    ensures Health(s, Step(t, lease, now, leaseId, default), failed + {lease.nodeId})
    ensures Settled(s, Step(t, lease, now, leaseId, default), lease,
                    Successor(s.auctions, s.nodes, s.unhealthy + failed + {lease.nodeId}, lease.taskId),
                    now, leaseId, default)
  {
    ReclaimedHealth(s, t, failed, lease);
    var u := Reclaimed(t, lease);
    assert u.unhealthy == s.unhealthy + failed + {lease.nodeId};
    SuccessorAgrees(s, u.(leases := t.leases), u.unhealthy, failed + {lease.nodeId}, lease.taskId);
  }

  lemma StepLeavesOthers(t: State, lease: Leases.Lease, now: real, leaseId: string, default: real, task: string)
    requires task != lease.taskId
    ensures SameTask(t, Step(t, lease, now, leaseId, default), task)
  {
  }

  /** A sweep in one look: every expired task goes to its heir or back to auction, and nothing else moves. */
  lemma {:induction false} SweepEffect(
    s: State, expired: seq<Leases.Lease>, now: real, ids: nat -> string, default: real)
    requires Listed(expired, s.leases)
    ensures var t := Sweep(s, expired, now, ids, default);
      && Health(s, t, NodesOf(expired)) && Elsewhere(s, t, expired)
      && forall i :: 0 <= i < |expired| ==> Settled(s, t, expired[i], Heir(s, expired, i), now, ids(i), default)
    decreases |expired|
  {
    if expired != [] {
      var n := |expired| - 1;
      var some := expired[..n];
      SweepEffect(s, some, now, ids, default);
      LastStepEffect(s, Sweep(s, some, now, ids, default), expired, n, now, ids, default);
    }
  }

  lemma SettledStays(s: State, t: State, u: State, lease: Leases.Lease, heir: Option<Ranked>, now: real,
                     leaseId: string, default: real)
    requires Settled(s, t, lease, heir, now, leaseId, default) && SameTask(t, u, lease.taskId)
    ensures Settled(s, u, lease, heir, now, leaseId, default)
  {
  }

  lemma ElsewhereGrows(s: State, t: State, u: State, expired: seq<Leases.Lease>, n: nat)
    requires |expired| == n + 1 && Elsewhere(s, t, expired[..n])
    requires forall task :: task != expired[n].taskId ==> SameTask(t, u, task)
    ensures Elsewhere(s, u, expired)
  {
    forall task | forall l <- expired :: l.taskId != task
      ensures SameTask(s, u, task)
    {
      assert SameTask(s, t, task);
      assert SameTask(t, u, task);
    }
  }

  lemma LastStepEffect(
    s: State, t: State, expired: seq<Leases.Lease>, n: nat, now: real, ids: nat -> string, default: real)
    requires |expired| == n + 1 && Listed(expired, s.leases)
    requires Health(s, t, NodesOf(expired[..n])) && Elsewhere(s, t, expired[..n])
    requires forall i :: 0 <= i < n ==>
      Settled(s, t, expired[..n][i], Heir(s, expired[..n], i), now, ids(i), default)
    ensures var u := Step(t, expired[n], now, ids(n), default);
      && Health(s, u, NodesOf(expired)) && Elsewhere(s, u, expired)
      && forall i :: 0 <= i < |expired| ==> Settled(s, u, expired[i], Heir(s, expired, i), now, ids(i), default)
  {
    var lease := expired[n];
    var u := Step(t, lease, now, ids(n), default);
    assert expired[..n + 1] == expired;
    NodesOfExtends(expired, n);
    assert SameTask(s, t, lease.taskId);
    StepEffect(s, t, NodesOf(expired[..n]), lease, now, ids(n), default);
    assert s.unhealthy + NodesOf(expired[..n]) + {lease.nodeId} == s.unhealthy + NodesOf(expired);
    forall task | task != lease.taskId
      ensures SameTask(t, u, task)
    {
      StepLeavesOthers(t, lease, now, ids(n), default, task);
    }
    ElsewhereGrows(s, t, u, expired, n);
    EarlierStaySettled(s, t, u, expired, n, now, ids, default);
  }

  lemma EarlierStaySettled(
    s: State, t: State, u: State, expired: seq<Leases.Lease>, n: nat, now: real, ids: nat -> string, default: real)
    requires |expired| == n + 1 && Listed(expired, s.leases)
    requires forall i :: 0 <= i < n ==>
      Settled(s, t, expired[..n][i], Heir(s, expired[..n], i), now, ids(i), default)
    requires forall task :: task != expired[n].taskId ==> SameTask(t, u, task)
    ensures forall i :: 0 <= i < n ==> Settled(s, u, expired[i], Heir(s, expired, i), now, ids(i), default)
  {
    forall i | 0 <= i < n
      ensures Settled(s, u, expired[i], Heir(s, expired, i), now, ids(i), default)
    {
      assert expired[..n][..i + 1] == expired[..i + 1];
      assert SameTask(t, u, expired[i].taskId);
      SettledStays(s, t, u, expired[..n][i], Heir(s, expired[..n], i), now, ids(i), default);
    }
  }

  /** After a sweep nothing is expired, exactly when no lease was given out with a negative duration. */
  lemma SweptExactly(s: State, expired: seq<Leases.Lease>, now: real, ids: nat -> string, default: real)
    requires Leases.Keyed(s.leases) && Leases.Lists(expired, s.leases, now)
    ensures var t := Sweep(s, expired, now, ids, default);
      (forall task :: task in t.leases ==> !Leases.Expired(t.leases[task], now))
      <==> (forall i :: 0 <= i < |expired| && Heir(s, expired, i).Some? ==>
              Leases.Ttl(Some(expired[i].duration), default) >= 0.0)
  {
    var t := Sweep(s, expired, now, ids, default);
    SweepEffect(s, expired, now, ids, default);
    forall task | task in t.leases && (forall l <- expired :: l.taskId != task)
      ensures !Leases.Expired(t.leases[task], now)
    {
      assert SameTask(s, t, task);
    }
    forall i | 0 <= i < |expired| && Heir(s, expired, i).Some?
      ensures expired[i].taskId in t.leases
      ensures Leases.Expired(t.leases[expired[i].taskId], now)
         <==> Leases.Ttl(Some(expired[i].duration), default) < 0.0
    {
      assert Settled(s, t, expired[i], Heir(s, expired, i), now, ids(i), default);
    }
    forall i | 0 <= i < |expired| && Heir(s, expired, i).None?
      ensures expired[i].taskId !in t.leases
    {
      assert Settled(s, t, expired[i], Heir(s, expired, i), now, ids(i), default);
    }
  }

  lemma HeirNotExcluded(s: State, expired: seq<Leases.Lease>, i: nat)
    requires i < |expired| && Heir(s, expired, i).Some?
    ensures var node := Heir(s, expired, i).value.bid.nodeId;
      node !in s.unhealthy && node !in NodesOf(expired[..i + 1])
  {
    NextBestNotExcluded(s.auctions[expired[i].taskId].ranked, s.unhealthy + NodesOf(expired[..i + 1]));
  }

  /** No ranked bid of a node that has not failed scores higher, and its own score is positive. */
  ghost predicate Leads(r: Ranked, ranked: seq<Ranked>, failed: set<string>) {
    && r in ranked && r.bid.nodeId !in failed && r.score > 0.0
    && forall q <- ranked :: q.bid.nodeId in failed || q.score <= r.score
  }

  ghost predicate Up(s: State, node: string) {
    node in s.nodes && s.nodes[node].healthy
  }

  /** The heir leads the ranking and its node is up; there is none when nobody leads, or the node is not up. */
  lemma HeirLeads(s: State, expired: seq<Leases.Lease>, i: nat)
    requires i < |expired| && expired[i].taskId in s.auctions && Descending(s.auctions[expired[i].taskId].ranked)
    ensures var ranked, failed := s.auctions[expired[i].taskId].ranked, s.unhealthy + NodesOf(expired[..i + 1]);
      var heir := Heir(s, expired, i);
      && (heir.Some? ==> Leads(heir.value, ranked, failed) && Up(s, heir.value.bid.nodeId))
      && (heir.None? ==> (forall q <- ranked :: q.bid.nodeId in failed || q.score <= 0.0)
                         || exists r :: Leads(r, ranked, failed) && !Up(s, r.bid.nodeId))
  {
    var ranked, failed := s.auctions[expired[i].taskId].ranked, s.unhealthy + NodesOf(expired[..i + 1]);
    NextBestIsHighest(ranked, failed);
    var best := NextBest(ranked, failed);
    assert best.Some? ==> Leads(best.value, ranked, failed);
  }

  lemma NodesOfSplit(leases: seq<Leases.Lease>, k: nat)
    requires k <= |leases|
    ensures NodesOf(leases) == NodesOf(leases[..k]) + NodesOf(leases[k..])
  {
    var front, back := leases[..k], leases[k..];
    assert leases == front + back;
  }

  lemma HeirHoldsTask(s: State, t: State, lease: Leases.Lease, heir: Option<Ranked>, now: real, leaseId: string,
                      default: real)
    requires Settled(s, t, lease, heir, now, leaseId, default) && heir.Some?
    ensures lease.taskId in t.leases && t.leases[lease.taskId].nodeId == heir.value.bid.nodeId
  {
  }

  /** The node that got a task is down after the sweep exactly when a lease of its own came later in it. */
  lemma HeirFailsExactly(
    s: State, expired: seq<Leases.Lease>, now: real, ids: nat -> string, default: real, i: nat)
    requires Listed(expired, s.leases) && i < |expired| && Heir(s, expired, i).Some?
    ensures var t := Sweep(s, expired, now, ids, default);
      && expired[i].taskId in t.leases
      && t.leases[expired[i].taskId].nodeId == Heir(s, expired, i).value.bid.nodeId
      && (t.leases[expired[i].taskId].nodeId in t.unhealthy
          <==> t.leases[expired[i].taskId].nodeId in NodesOf(expired[i + 1..]))
  {
    SweepEffect(s, expired, now, ids, default);
    HeirHoldsTask(s, Sweep(s, expired, now, ids, default), expired[i], Heir(s, expired, i), now, ids(i), default);
    HeirNotExcluded(s, expired, i);
    NodesOfSplit(expired, i + 1);
  }

  function CascadeLeases(): seq<Leases.Lease> {
    [Leases.Lease("l1", "t", "a", 0.0, 1.0, 0.0), Leases.Lease("l2", "u", "b", 0.0, 1.0, 0.0)]
  }

  function CascadeBid(): Ranked {
    Ranked(Bid("b1", "t", "b", 1.0, 1.0, 1.0, false, "", ""), 1.0)
  }

  /** Task t is with node a and has a bid by b; task u is with b. Both leases are overdue at time 10. */
  function Cascade(): State {
    var a, b := FleetNode("a", "", 0.0, 1, true), FleetNode("b", "", 0.0, 1, true);
    var auction := Record(Announcement("t", "", [], 5.0, true, 0.0, 0), [], true, None, [], [CascadeBid()]);
    State(map["a" := a, "b" := b], {}, map["t" := CascadeLeases()[0], "u" := CascadeLeases()[1]],
          map["t" := auction], [])
  }

  lemma CascadeLists()
    ensures Leases.Lists(CascadeLeases(), Cascade().leases, 10.0)
  {
    assert CascadeLeases()[0] in CascadeLeases() && CascadeLeases()[1] in CascadeLeases();
  }

  lemma CascadeHeir()
    ensures Heir(Cascade(), CascadeLeases(), 0) == Some(CascadeBid())
  {
    var some := CascadeLeases()[..0 + 1];
    assert some == [CascadeLeases()[0]];
    assert NodesOf(some) == {"a"};
    assert Cascade().unhealthy + NodesOf(some) == {"a"};
    FirstFits(CascadeBid(), {"a"});
  }

  lemma FirstFits(r: Ranked, excluded: set<string>)
    requires r.bid.nodeId !in excluded && r.score > 0.0
    ensures NextBest([r], excluded) == Some(r)
  {
  }

  /** So t moves to b, and b is down when the sweep ends. */
  lemma PromotedNodeGoesDown(ids: nat -> string)
    ensures var t := Sweep(Cascade(), CascadeLeases(), 10.0, ids, 1.0);
      "t" in t.leases && t.leases["t"].nodeId == "b" && "b" in t.unhealthy
  {
    CascadeLists();
    CascadeHeir();
    CascadeEnd(Cascade(), CascadeLeases(), ids);
  }

  lemma CascadeEnd(s: State, expired: seq<Leases.Lease>, ids: nat -> string)
    requires Leases.Lists(expired, s.leases, 10.0) && expired == CascadeLeases()
    requires Heir(s, expired, 0) == Some(CascadeBid())
    ensures var t := Sweep(s, expired, 10.0, ids, 1.0);
      "t" in t.leases && t.leases["t"].nodeId == "b" && "b" in t.unhealthy
  {
    HeirFailsExactly(s, expired, 10.0, ids, 1.0, 0);
    assert expired[0 + 1..][0].nodeId == "b";
  }

  /** A lease of node a that was handed out for the default time of minus one. */
  function NegativeLease(): Leases.Lease {
    Leases.Lease("l1", "t", "a", 0.0, -1.0, 0.0)
  }

  /** Task t is with node a, is overdue at time 10, and has a bid by b. */
  function Overdue(): State {
    Cascade().(leases := map["t" := NegativeLease()])
  }

  lemma OverdueHeir()
    ensures Heir(Overdue(), [NegativeLease()], 0) == Some(CascadeBid())
  {
    var some := [NegativeLease()][..0 + 1];
    assert some == [NegativeLease()];
    assert NodesOf(some) == {"a"};
    assert Overdue().unhealthy + NodesOf(some) == {"a"};
    FirstFits(CascadeBid(), {"a"});
  }

  lemma OverdueLists()
    ensures Leases.Keyed(Overdue().leases) && Leases.Lists([NegativeLease()], Overdue().leases, 10.0)
  {
    assert [NegativeLease()][0] == NegativeLease();
  }

  /** With a negative default time the lease of the heir is expired when the sweep ends. */
  lemma NegativeDefaultStaysExpired(ids: nat -> string)
    ensures var t := Sweep(Overdue(), [NegativeLease()], 10.0, ids, -1.0);
      exists task :: task in t.leases && Leases.Expired(t.leases[task], 10.0)
  {
    OverdueLists();
    OverdueHeir();
    OverdueEnd(Overdue(), [NegativeLease()], ids);
  }

  lemma OverdueEnd(s: State, expired: seq<Leases.Lease>, ids: nat -> string)
    requires Leases.Keyed(s.leases) && Leases.Lists(expired, s.leases, 10.0)
    requires |expired| == 1 && expired[0].duration == -1.0 && Heir(s, expired, 0).Some?
    ensures var t := Sweep(s, expired, 10.0, ids, -1.0);
      exists task :: task in t.leases && Leases.Expired(t.leases[task], 10.0)
  {
    SweptExactly(s, expired, 10.0, ids, -1.0);
    assert Leases.Ttl(Some(expired[0].duration), -1.0) == -1.0;
  }

  /** A whole sweep keeps the count of active tasks. */
  lemma {:induction false} SweepKeepsBalance(
    s: State, expired: seq<Leases.Lease>, now: real, ids: nat -> string, default: real)
    requires Listed(expired, s.leases) && Balanced(s.nodes, s.leases)
    ensures var t := Sweep(s, expired, now, ids, default); Balanced(t.nodes, t.leases)
    decreases |expired|
  {
    if expired != [] {
      var n := |expired| - 1;
      var some := expired[..n];
      SweepKeepsBalance(s, some, now, ids, default);
      SweepEffect(s, some, now, ids, default);
      var t := Sweep(s, some, now, ids, default);
      assert SameTask(s, t, expired[n].taskId);
      StepKeepsBalance(t, expired[n], now, ids(n), default);
    }
  }

  class FleetCoordinator {
    const auctions: SealedBidAuction
    const leases: Leases.LeaseManager
    var nodes: Nodes
    var unhealthy: set<string>
    var log: seq<LogEntry>

    ghost predicate Valid()
      reads this, auctions, leases
    {
      auctions.Valid() && leases.Valid() && Sound(State(nodes, unhealthy, leases.leases, auctions.auctions, log))
    }

    constructor (digest: Digest, defaultLeaseDuration: real)
      ensures Valid() && fresh(auctions) && fresh(leases) && Balanced(nodes, leases.leases)
      ensures leases.defaultDuration == defaultLeaseDuration
    {
      auctions := new SealedBidAuction(digest, defaultLeaseDuration);
      leases := new Leases.LeaseManager(defaultLeaseDuration);
      nodes, unhealthy, log := map[], {}, [];
    }

    method RegisterNode(name: string, modality: string, now: real)
      requires Valid()
      modifies this`nodes
      ensures Valid() && nodes == old(nodes)[name := FleetNode(name, modality, now, 0, true)]
      ensures Balanced(old(nodes), leases.leases) ==>
        (Balanced(nodes, leases.leases) <==> Leases.Held(leases.leases, name) == 0)
    {
      var n := FleetNode(name, modality, now, 0, true);
      if Balanced(nodes, leases.leases) {
        RegistrationBalanceExactly(nodes, leases.leases, n);
      }
      nodes := nodes[name := n];
    }

    /** Closes the auction of a task and turns its award into a lease. */
    method EvaluateAndAward(task: string, score: Bid -> real, leaseDuration: Option<real>, now: real, leaseId: string)
      returns (award: Option<Award>)
      requires Valid()
      modifies this`nodes, auctions, leases
      ensures Valid()
      ensures
        var ttl := LeaseTime(Some(LeaseTime(leaseDuration, leases.defaultDuration)), auctions.defaultLeaseDuration);
        ClosesWith(old(auctions.auctions), auctions.digest, task, score, leaseId, ttl, now, award)
      ensures ClosesAuction(old(auctions.auctions), auctions.digest, task, score, award, auctions.auctions)
      ensures award.None? ==> nodes == old(nodes) && leases.leases == old(leases.leases)
      ensures award.Some? ==>
        var a := award.value;
        && nodes == OneMore(old(nodes), a.nodeId)
        && leases.leases == old(leases.leases)[a.taskId := Leases.Lease(a.leaseId, a.taskId, a.nodeId, a.awardedAt,
             Leases.Ttl(Some(a.leaseDuration), leases.defaultDuration), a.awardedAt)]
      ensures award.Some? && old(Balanced(nodes, leases.leases)) ==>
        (Balanced(nodes, leases.leases) <==>
           award.value.taskId !in old(leases.leases) || old(leases.leases)[award.value.taskId].nodeId !in old(nodes))
    {
      var ttl := LeaseTime(leaseDuration, leases.defaultDuration);
      var rejections;
      award, rejections := auctions.CloseAuction(task, score, Some(ttl), now, leaseId);
      if award.Some? {
        var a := award.value;
        ghost var before := leases.leases;
        var lease := leases.CreateLease(a.taskId, a.nodeId, Some(a.leaseDuration), a.awardedAt, a.leaseId);
        if Balanced(nodes, before) {
          AwardBalanceExactly(nodes, before, a.taskId, lease);
        }
        nodes := OneMore(nodes, a.nodeId);
      }
    }

    /** A heartbeat counts for the node even when the lease cannot be renewed. */
    method RenewLease(task: string, node: string, extension: Option<real>, now: real) returns (ok: bool)
      requires Valid()
      modifies this`nodes, leases
      ensures Valid()
      ensures nodes == Alive(old(nodes), node, now)
      ensures ok <==> task in old(leases.leases) && old(leases.leases)[task].nodeId == node
                      && !Leases.Expired(old(leases.leases)[task], now)
      ensures !ok ==> leases.leases == old(leases.leases)
      ensures ok ==> leases.leases == old(leases.leases)[task := old(leases.leases)[task].(
        lastHeartbeat := now, duration := Leases.Ttl(extension, old(leases.leases)[task].duration))]
      ensures old(Balanced(nodes, leases.leases)) ==> Balanced(nodes, leases.leases)
    {
      if Balanced(nodes, leases.leases) {
        HeartbeatKeepsBalance(nodes, leases.leases, task, node, extension, now);
      }
      if node in nodes {
        nodes := nodes[node := nodes[node].(lastHeartbeat := now)];
      }
      ok := leases.RenewLease(task, node, extension, now);
    }

    ghost function Now(): State
      reads this, auctions, leases
    {
      State(nodes, unhealthy, leases.leases, auctions.auctions, log)
    }

    /** Moves one expired task on. */
    method Failover(lease: Leases.Lease, now: real, leaseId: string)
      requires Valid()
      modifies this, auctions, leases
      ensures Valid() && Now() == Step(old(Now()), lease, now, leaseId, leases.defaultDuration)
    {
      ghost var before := Now();
      StepKeepsSound(before, lease, now, leaseId, leases.defaultDuration);
      var task := lease.taskId;
      unhealthy := unhealthy + {lease.nodeId};
      nodes := Failed(nodes, lease.nodeId);
      leases.RevokeLease(task);
      assert Now() == Reclaimed(before, lease);
      var runnerUp := auctions.GetRunnerUp(task, unhealthy);
      if runnerUp.Some? {
        var bid := runnerUp.value.bid;
        if bid.nodeId in nodes && nodes[bid.nodeId].healthy {
          var granted := leases.CreateLease(task, bid.nodeId, Some(lease.duration), now, leaseId);
          nodes := OneMore(nodes, bid.nodeId);
          auctions.RecordAward(task,
            Award(task, bid.nodeId, granted.leaseId, granted.duration, now, bid.bidId, runnerUp.value.score));
          log := log + [Promotion(task, lease.nodeId, bid.nodeId, now)];
          return;
        }
      }
      auctions.CreateAuction(Again(auctions.auctions, task, now));
      log := log + [Reauction(task, lease.nodeId, now)];
    }

    /** Moves on every task whose lease has expired. */
    method CheckLeasesAndFailover(now: real, ids: nat -> string)
      returns (reassigned: seq<string>, ghost expired: seq<Leases.Lease>)
      requires Valid()
      modifies this, auctions, leases
      ensures Valid() && Leases.Lists(expired, old(leases.leases), now)
      ensures Now() == Sweep(old(Now()), expired, now, ids, leases.defaultDuration)
      ensures reassigned == TasksUpTo(expired, |expired|)
    {
      var list := leases.CheckExpiredLeases(now);
      expired := list;
      reassigned := [];
      ghost var before, state := Now(), Now();
      for k := 0 to |list|
        invariant Valid() && reassigned == TasksUpTo(list, k)
        invariant state == Now() && state == Sweep(before, list[..k], now, ids, leases.defaultDuration)
      {
        SweepExtends(before, list, k, now, ids, leases.defaultDuration);
        Failover(list[k], now, ids(k));
        state := Now();
        reassigned := reassigned + [list[k].taskId];
      }
      assert list[..|list|] == list;
    }
  }
}
