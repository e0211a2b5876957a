/**
  Task leases: who may work on a task, and until when without a heartbeat.
*/
module Leases {
  import opened Wrappers

  datatype Lease = Lease(
    leaseId: string, taskId: string, nodeId: string, grantedAt: real, duration: real, lastHeartbeat: real)

  predicate Expired(l: Lease, now: real) {
    now > l.lastHeartbeat + l.duration
  }

  /** The lease expires when more than its duration has passed since that time. */
  ghost predicate RunsFrom(l: Lease, start: real) {
    forall now: real :: Expired(l, now) <==> now - start > l.duration
  }

  /** A duration that is not positive counts as none. */
  function Ttl(d: Option<real>, default: real): real {
    if d.Some? && d.value > 0.0 then d.value else default
  }

  type Table = map<string, Lease>

  ghost predicate Keyed(leases: Table) {
    forall task :: task in leases ==> leases[task].taskId == task
  }

  /** The expired leases of a table, each once. */
  ghost predicate Lists(expired: seq<Lease>, leases: Table, now: real) {
    && (forall i :: 0 <= i < |expired| ==>
          expired[i].taskId in leases && leases[expired[i].taskId] == expired[i] && Expired(expired[i], now))
    && (forall i, j :: 0 <= i < j < |expired| ==> expired[i].taskId != expired[j].taskId)
    && (forall task :: task in leases && Expired(leases[task], now) ==> leases[task] in expired)
  }

  class LeaseManager {
    const defaultDuration: real
    var leases: Table

    ghost predicate Valid()
      reads this
    {
      Keyed(leases)
    }

    constructor (defaultDuration: real)
      ensures Valid() && leases == map[] && this.defaultDuration == defaultDuration
    {
      this.defaultDuration, leases := defaultDuration, map[];
    }

    method CreateLease(task: string, node: string, duration: Option<real>, grantedAt: real, leaseId: string)
      returns (lease: Lease)
      requires Valid()
      modifies this
      ensures Valid() && leases == old(leases)[task := lease]
      ensures lease == Lease(leaseId, task, node, grantedAt, Ttl(duration, defaultDuration), grantedAt)
      ensures RunsFrom(lease, grantedAt)
    {
      lease := Lease(leaseId, task, node, grantedAt, Ttl(duration, defaultDuration), grantedAt);
      leases := leases[task := lease];
    }

    /** Only the holder of a lease that has not expired can renew it. */
    method RenewLease(task: string, node: string, extension: Option<real>, now: real) returns (ok: bool)
      requires Valid()
      modifies this
      ensures Valid()
      ensures ok <==> task in old(leases) && old(leases)[task].nodeId == node && !Expired(old(leases)[task], now)
      ensures !ok ==> leases == old(leases)
      ensures ok ==> leases == old(leases)[task := old(leases)[task].(
        lastHeartbeat := now, duration := Ttl(extension, old(leases)[task].duration))]
      ensures ok ==> RunsFrom(leases[task], now)
    {
      if task !in leases {
        return false;
      }
      var lease := leases[task];
      if lease.nodeId != node {
        return false;
      }
      if Expired(lease, now) {
        return false;
      }
      lease := lease.(lastHeartbeat := now);
      if extension.Some? && extension.value > 0.0 {
        lease := lease.(duration := extension.value);
      }
      leases := leases[task := lease];
      ok := true;
    }

    method RevokeLease(task: string)
      requires Valid()
      modifies this
      ensures Valid() && leases == old(leases) - {task}
    {
      leases := leases - {task};
    }

    /** The expired leases, in the order in which the table is walked. */
    method CheckExpiredLeases(now: real) returns (expired: seq<Lease>)
      requires Valid()
      ensures Lists(expired, leases, now)
    {
      expired := [];
      var rest := leases.Keys;
      while rest != {}
        invariant rest <= leases.Keys
        invariant Lists(expired, leases - rest, now)
        decreases |rest|
      {
        var task :| task in rest;
        ghost var seen := leases - rest;
        rest := rest - {task};
        if Expired(leases[task], now) {
          ListsOneMore(expired, seen, task, leases[task], now);
          assert leases - rest == seen[task := leases[task]];
          expired := expired + [leases[task]];
        } else {
          assert leases - rest == seen[task := leases[task]];
        }
      }
      assert leases - {} == leases;
    }
  }

  lemma ListsOneMore(expired: seq<Lease>, seen: Table, task: string, lease: Lease, now: real)
    requires Lists(expired, seen, now) && task !in seen && lease.taskId == task && Expired(lease, now)
    ensures Lists(expired + [lease], seen[task := lease], now)
  {
    var all := expired + [lease];
    var table := seen[task := lease];
    forall t | t in table && Expired(table[t], now)
      ensures table[t] in all
    {
      if t == task {
        assert all[|expired|] == lease;
      } else {
        assert seen[t] in expired;
      }
    }
  }

  // ---------------------------------------------------------------------
  // How many leases a node holds
  // ---------------------------------------------------------------------

  function TasksOf(leases: Table, node: string): set<string> {
    set task | task in leases && leases[task].nodeId == node
  }

  function Held(leases: Table, node: string): nat {
    |TasksOf(leases, node)|
  }

  lemma HeldAfterRemoval(leases: Table, task: string, node: string)
    requires task in leases
    ensures Held(leases - {task}, node) == Held(leases, node) - if leases[task].nodeId == node then 1 else 0
    ensures leases[task].nodeId == node ==> Held(leases, node) >= 1
  {
    if leases[task].nodeId == node {
      assert TasksOf(leases, node) == TasksOf(leases - {task}, node) + {task};
    } else {
      assert TasksOf(leases, node) == TasksOf(leases - {task}, node);
    }
  }

  lemma HeldAfterAddition(leases: Table, task: string, lease: Lease, node: string)
    requires task !in leases
    ensures Held(leases[task := lease], node) == Held(leases, node) + if lease.nodeId == node then 1 else 0
  {
    if lease.nodeId == node {
      assert TasksOf(leases[task := lease], node) == TasksOf(leases, node) + {task};
    } else {
      assert TasksOf(leases[task := lease], node) == TasksOf(leases, node);
    }
  }

  lemma HeldAfterReplacement(leases: Table, task: string, lease: Lease, node: string)
    requires task in leases
    ensures Held(leases[task := lease], node)
         == Held(leases, node) - (if leases[task].nodeId == node then 1 else 0)
             + (if lease.nodeId == node then 1 else 0)
  {
    HeldAfterRemoval(leases, task, node);
    HeldAfterAddition(leases - {task}, task, lease, node);
    assert (leases - {task})[task := lease] == leases[task := lease];
  }
}
