/**
 * The pure rules of the per-run scheduler in dag_workflow/engine.py: which
 * nodes are ready, whether a ready node runs or is skipped, which finished
 * executions one wait hands back, which in-flight executions a cascade
 * cancels, and the invariant a run keeps between its steps.
 *
 * The thread pool is replaced by an environment: what each node's task
 * yields, whether its execution can still be cancelled, and which in-flight
 * executions a wait reports as finished.
 */
module Scheduling {
  import opened Wrappers
  import opened CoreModels

  type StatusMap = map<NodeId, NodeStatus>

  /** What a finished execution of a node's task yields: its value, or the text of what it raised. */
  datatype Outcome = Returned(value: Value) | Raised(message: string)

  /**
   * The nondeterminism of the thread pool. `outcome` is what a node's task
   * yields (a node runs at most once per run); `cancelable` says whether its
   * future has not started yet, so that `cancel()` succeeds; `done` is the
   * batch `concurrent.futures.wait` reports in a given round, before it is
   * cut down to what the pool can actually report (see Completed).
   */
  datatype Env = Env(
    outcome: NodeId -> Outcome,
    cancelable: NodeId -> bool,
    done: (nat, seq<NodeId>) -> seq<NodeId>)

  predicate Distinct(s: seq<NodeId>)
  {
    forall i, j :: 0 <= i < j < |s| ==> s[i] != s[j]
  }

  /** Node ids are unique in the graph (a caller obligation, never checked). */
  predicate UniqueIds(nodes: seq<DAGNode>)
  {
    forall i, j :: 0 <= i < |nodes| && 0 <= j < |nodes| && nodes[i].id == nodes[j].id ==> i == j
  }

  function IdSet(nodes: seq<DAGNode>): set<NodeId>
  {
    set i | 0 <= i < |nodes| :: nodes[i].id
  }

  ghost predicate DepsSucceeded(n: DAGNode, status: StatusMap)
  {
    forall d :: d in n.dependencies ==> d in status && status[d] == Success
  }

  /** The ready rule: PENDING, and every dependency SUCCESS. */
  ghost predicate IsReady(n: DAGNode, status: StatusMap)
  {
    n.id in status && status[n.id] == Pending && DepsSucceeded(n, status)
  }

  /** `id` is one the ready rule looks up for `n`: its own id or one of its dependencies. */
  predicate LooksUp(n: DAGNode, id: NodeId)
  {
    id == n.id || id in n.dependencies
  }

  /** Every id the ready rule may look up for `n` is a key of the status map. */
  ghost predicate Known(n: DAGNode, status: StatusMap)
  {
    n.id in status && forall d :: d in n.dependencies ==> d in status
  }

  /**
   * `all(status[dep] == SUCCESS for dep in deps)`: stops at the first
   * dependency that is not SUCCESS, and raises KeyError (here `Err(dep)`) at
   * an id that is not a key before it gets there.
   */
  function AllDepsSucceeded(deps: seq<NodeId>, status: StatusMap): (r: Result<bool, NodeId>)
    ensures r.Ok? && r.value ==> forall d :: d in deps ==> d in status && status[d] == Success
    ensures r.Ok? && !r.value ==> exists d :: d in deps && d in status && status[d] != Success
    ensures r.Err? ==> r.error in deps && r.error !in status
    ensures (forall d :: d in deps ==> d in status) ==> r.Ok?
  {
    if deps == [] then Ok(true)
    else if deps[0] !in status then Err(deps[0])
    else if status[deps[0]] != Success then Ok(false)
    else AllDepsSucceeded(deps[1..], status)
  }

  /** The test of the ready-set comprehension for one node, with Python's short-circuit order. */
  function Readiness(n: DAGNode, status: StatusMap): (r: Result<bool, NodeId>)
    ensures r.Ok? ==> n.id in status && (r.value <==> IsReady(n, status))
    ensures r.Err? ==> r.error !in status && (r.error == n.id || r.error in n.dependencies)
    ensures Known(n, status) ==> r.Ok?
  {
    if n.id !in status then Err(n.id)
    else if status[n.id] != Pending then Ok(false)
    else AllDepsSucceeded(n.dependencies, status)
  }

  /** Reference definition of the ready set: the ready nodes, in graph order. */
  ghost function ReadyFilter(nodes: seq<DAGNode>, status: StatusMap): seq<DAGNode>
  {
    if nodes == [] then []
    else (if IsReady(nodes[0], status) then [nodes[0]] else []) + ReadyFilter(nodes[1..], status)
  }

  /**
   * `pending_nodes` of `_run_single_workflow`: the comprehension over the
   * node list, or the id whose lookup raised KeyError.
   */
  function ReadyNodes(nodes: seq<DAGNode>, status: StatusMap): (r: Result<seq<DAGNode>, NodeId>)
    ensures r.Ok? ==> r.value == ReadyFilter(nodes, status)
    ensures r.Ok? ==> forall k :: 0 <= k < |nodes| ==> nodes[k].id in status
    ensures r.Err? ==> r.error !in status
    ensures r.Err? ==> exists k :: 0 <= k < |nodes| && !Known(nodes[k], status) && LooksUp(nodes[k], r.error)
    ensures (forall k :: 0 <= k < |nodes| ==> Known(nodes[k], status)) ==> r.Ok?
  {
    if nodes == [] then Ok([])
    else
      match Readiness(nodes[0], status)
      case Err(k) =>
        assert !Known(nodes[0], status) && LooksUp(nodes[0], k);
        Err(k)
      case Ok(ready) =>
        match ReadyNodes(nodes[1..], status)
        case Err(k) =>
          assert exists j :: 0 <= j < |nodes| && !Known(nodes[j], status) && LooksUp(nodes[j], k) by {
            var j :| 0 <= j < |nodes[1..]| && !Known(nodes[1..][j], status) && LooksUp(nodes[1..][j], k);
            assert nodes[1..][j] == nodes[j + 1];
          }
          Err(k)
        case Ok(rest) => Ok(if ready then [nodes[0]] + rest else rest)
  }

  /** The ready set holds exactly the ready nodes of the graph. */
  lemma {:induction false} ReadyFilterMembers(nodes: seq<DAGNode>, status: StatusMap)
    ensures forall x :: x in ReadyFilter(nodes, status) <==> x in nodes && IsReady(x, status)
  {
    if nodes != [] {
      ReadyFilterMembers(nodes[1..], status);
      assert nodes == [nodes[0]] + nodes[1..];
    }
  }

  /** Taking the ready nodes keeps the graph's order and the uniqueness of ids. */
  lemma {:induction false} ReadyFilterUnique(nodes: seq<DAGNode>, status: StatusMap)
    requires UniqueIds(nodes)
    ensures UniqueIds(ReadyFilter(nodes, status))
  {
    if nodes != [] {
      var rest := nodes[1..];
      assert UniqueIds(rest) by {
        forall i, j | 0 <= i < |rest| && 0 <= j < |rest| && rest[i].id == rest[j].id ensures i == j {
          assert nodes[i + 1].id == nodes[j + 1].id;
        }
      }
      ReadyFilterUnique(rest, status);
      ReadyFilterMembers(rest, status);
      var r := ReadyFilter(nodes, status);
      if IsReady(nodes[0], status) {
        forall x | x in ReadyFilter(rest, status) ensures x.id != nodes[0].id {
          var k :| 0 <= k < |rest| && rest[k] == x;
          assert nodes[k + 1] == x;
        }
      }
    }
  }

  /** `_should_execute`: a node runs when it has no condition or its condition holds of the results so far. */
  function ShouldExecute(n: DAGNode, results: Results): (r: bool)
    ensures r <==> n.condition.None? || n.condition.value(results)
  {
    if n.condition.Some? && n.condition.value(results) then true
    else if n.condition.None? then true
    else false
  }

  /** What the launch step makes of a ready node: SKIPPED when its condition fails, RUNNING otherwise. */
  function LaunchStatus(n: DAGNode, results: Results): (s: NodeStatus)
    ensures s == Skipped <==> n.condition.Some? && !n.condition.value(results)
    ensures s == Running || s == Skipped
  {
    if ShouldExecute(n, results) then Running else Skipped
  }

  /** The first occurrence of each element of `cs` that is in flight. */
  function SelectInFlight(cs: seq<NodeId>, inFlight: seq<NodeId>): (b: seq<NodeId>)
    ensures Distinct(b)
    ensures forall x :: x in b <==> x in cs && x in inFlight
  {
    if cs == [] then []
    else
      var rest := SelectInFlight(cs[1..], inFlight);
      if cs[0] in inFlight && cs[0] !in rest then [cs[0]] + rest else rest
  }

  /**
   * The `done` set of `concurrent.futures.wait(futures, FIRST_COMPLETED)`:
   * distinct in-flight executions, at least one when anything is in flight
   * and none when nothing is.
   */
  function Completed(env: Env, round: nat, inFlight: seq<NodeId>): (b: seq<NodeId>)
    ensures Distinct(b)
    ensures forall x :: x in b ==> x in inFlight
    ensures |b| > 0 <==> |inFlight| > 0
  {
    var chosen := SelectInFlight(env.done(round, inFlight), inFlight);
    assert chosen != [] ==> chosen[0] in inFlight;
    if chosen == [] && inFlight != [] then [inFlight[0]] else chosen
  }

  /** A cancel succeeds only for a future that has not started, and never for one the current wait reported finished. */
  predicate CancelSucceeds(env: Env, batch: seq<NodeId>, id: NodeId)
  {
    env.cancelable(id) && id !in batch
  }

  /** The in-flight ids a cascade cancels, in the order of the in-flight collection. */
  function Cancelled(env: Env, batch: seq<NodeId>, inFlight: seq<NodeId>): (c: seq<NodeId>)
    ensures |c| <= |inFlight|
  {
    if inFlight == [] then []
    else
      var last := inFlight[|inFlight| - 1];
      assert inFlight == inFlight[..|inFlight| - 1] + [last];
      Cancelled(env, batch, inFlight[..|inFlight| - 1]) + (if CancelSucceeds(env, batch, last) then [last] else [])
  }

  /** The in-flight ids a cascade leaves in flight, in order. */
  function Survivors(env: Env, batch: seq<NodeId>, inFlight: seq<NodeId>): (s: seq<NodeId>)
    ensures |s| <= |inFlight|
  {
    if inFlight == [] then []
    else
      var last := inFlight[|inFlight| - 1];
      assert inFlight == inFlight[..|inFlight| - 1] + [last];
      Survivors(env, batch, inFlight[..|inFlight| - 1]) + (if CancelSucceeds(env, batch, last) then [] else [last])
  }

  lemma CancellationSnoc(env: Env, batch: seq<NodeId>, s: seq<NodeId>, x: NodeId)
    ensures Cancelled(env, batch, s + [x]) == Cancelled(env, batch, s) + (if CancelSucceeds(env, batch, x) then [x] else [])
    ensures Survivors(env, batch, s + [x]) == Survivors(env, batch, s) + (if CancelSucceeds(env, batch, x) then [] else [x])
  {
    assert (s + [x])[..|s|] == s;
  }

  /** A cascade cancels exactly the in-flight executions whose cancel succeeds; the others survive. */
  lemma {:induction false} CancellationMembers(env: Env, batch: seq<NodeId>, inFlight: seq<NodeId>)
    ensures forall x :: x in Cancelled(env, batch, inFlight) <==> x in inFlight && CancelSucceeds(env, batch, x)
    ensures forall x :: x in Survivors(env, batch, inFlight) <==> x in inFlight && !CancelSucceeds(env, batch, x)
  {
    if inFlight != [] {
      var init := inFlight[..|inFlight| - 1];
      assert inFlight == init + [inFlight[|inFlight| - 1]];
      CancellationMembers(env, batch, init);
    }
  }

  /** Every in-flight execution is either cancelled or survives, never both, and no id is duplicated. */
  lemma {:induction false} CancellationPartitions(env: Env, batch: seq<NodeId>, inFlight: seq<NodeId>)
    requires Distinct(inFlight)
    ensures Distinct(Cancelled(env, batch, inFlight)) && Distinct(Survivors(env, batch, inFlight))
    ensures |Cancelled(env, batch, inFlight)| + |Survivors(env, batch, inFlight)| == |inFlight|
  {
    if inFlight != [] {
      var init := inFlight[..|inFlight| - 1];
      assert Distinct(init);
      assert inFlight[|inFlight| - 1] !in init;
      CancellationPartitions(env, batch, init);
      CancellationMembers(env, batch, init);
    }
  }

  /**
   * How the loop of `_cancel_pending_tasks` ends AS WRITTEN: it pops from
   * the dictionary it iterates over, so after the first successful cancel
   * the next step of the iteration raises RuntimeError (dictionary changed
   * size during iteration) and the loop stops there.
   */
  datatype CancelScan = ScanFinished | SizeChanged(cancelled: NodeId)

  /** `inFlight[i]` is the first execution, in iteration order, whose cancel succeeds. */
  predicate FirstCancellable(env: Env, batch: seq<NodeId>, inFlight: seq<NodeId>, i: int)
  {
    && 0 <= i < |inFlight|
    && CancelSucceeds(env, batch, inFlight[i])
    && forall j :: 0 <= j < i ==> !CancelSucceeds(env, batch, inFlight[j])
  }

  function AsWrittenCancelScan(env: Env, batch: seq<NodeId>, inFlight: seq<NodeId>): (r: CancelScan)
    ensures r.SizeChanged? ==> exists i :: FirstCancellable(env, batch, inFlight, i) && inFlight[i] == r.cancelled
    ensures r.ScanFinished? ==> forall j :: 0 <= j < |inFlight| ==> !CancelSucceeds(env, batch, inFlight[j])
  {
    if inFlight == [] then ScanFinished
    else if CancelSucceeds(env, batch, inFlight[0]) then
      assert FirstCancellable(env, batch, inFlight, 0);
      SizeChanged(inFlight[0])
    else
      var r := AsWrittenCancelScan(env, batch, inFlight[1..]);
      assert r.SizeChanged? ==> exists i :: FirstCancellable(env, batch, inFlight, i) && inFlight[i] == r.cancelled by {
        if r.SizeChanged? {
          var i :| FirstCancellable(env, batch, inFlight[1..], i) && inFlight[1..][i] == r.cancelled;
          forall j | 0 <= j < i + 1 ensures !CancelSucceeds(env, batch, inFlight[j]) {
            if j > 0 { assert inFlight[j] == inFlight[1..][j - 1]; }
          }
          assert FirstCancellable(env, batch, inFlight, i + 1);
        }
      }
      assert r.ScanFinished? ==> forall j :: 0 <= j < |inFlight| ==> !CancelSucceeds(env, batch, inFlight[j]) by {
        if r.ScanFinished? {
          forall j | 0 <= j < |inFlight| ensures !CancelSucceeds(env, batch, inFlight[j]) {
            if j > 0 { assert inFlight[j] == inFlight[1..][j - 1]; }
          }
        }
      }
      r
  }

  /**
   * The as-written loop finishes exactly when the snapshot cascade would
   * cancel nothing: whenever there is something to cancel, it raises
   * instead of completing the cascade.
   */
  lemma {:induction false} AsWrittenScanAborts(env: Env, batch: seq<NodeId>, inFlight: seq<NodeId>)
    ensures AsWrittenCancelScan(env, batch, inFlight) == ScanFinished <==> Cancelled(env, batch, inFlight) == []
  {
    CancellationMembers(env, batch, inFlight);
    if inFlight != [] {
      AsWrittenScanAborts(env, batch, inFlight[1..]);
      CancellationMembers(env, batch, inFlight[1..]);
      if Cancelled(env, batch, inFlight) != [] && !CancelSucceeds(env, batch, inFlight[0]) {
        var x := Cancelled(env, batch, inFlight)[0];
        assert x in inFlight[1..] by { assert x in inFlight && x != inFlight[0]; }
      }
    }
  }

  /**
   * Two queued executions and a failure: the snapshot cascade cancels both,
   * the as-written loop cancels the first and raises before the second.
   */
  lemma AsWrittenCancelCounterexample()
    ensures var env := Env(x => Returned(""), x => true, (r, s) => s);
      && AsWrittenCancelScan(env, ["a"], ["a", "b", "c"]) == SizeChanged("b")
      && Cancelled(env, ["a"], ["a", "b", "c"]) == ["b", "c"]
  {
    var env := Env(x => Returned(""), x => true, (r, s) => s);
    assert ["a", "b", "c"][1..] == ["b", "c"];
    assert ["a", "b", "c"][..2] == ["a", "b"] && ["a", "b"][..1] == ["a"] && ["a"][..0] == [];
  }

  /** `s` without `x`. */
  function Remove(s: seq<NodeId>, x: NodeId): (r: seq<NodeId>)
    ensures |r| <= |s|
  {
    if s == [] then []
    else (if s[0] == x then [] else [s[0]]) + Remove(s[1..], x)
  }

  lemma {:induction false} RemoveMembers(s: seq<NodeId>, x: NodeId)
    ensures forall y :: y in Remove(s, x) <==> y in s && y != x
  {
    if s != [] {
      RemoveMembers(s[1..], x);
      assert s == [s[0]] + s[1..];
    }
  }

  /** Removing an element present once shortens the collection by one and keeps it duplicate-free. */
  lemma {:induction false} RemoveDistinct(s: seq<NodeId>, x: NodeId)
    requires Distinct(s)
    ensures Distinct(Remove(s, x))
    ensures |Remove(s, x)| == if x in s then |s| - 1 else |s|
  {
    if s != [] {
      assert Distinct(s[1..]) by {
        forall i, j | 0 <= i < j < |s[1..]| ensures s[1..][i] != s[1..][j] {
          assert s[1..][i] == s[i + 1] && s[1..][j] == s[j + 1];
        }
      }
      RemoveDistinct(s[1..], x);
      RemoveMembers(s[1..], x);
      assert s[0] !in s[1..];
    }
  }

  /** Statuses from which a node was found ready at some point of the run. */
  predicate WasReady(s: NodeStatus)
  {
    s == Running || s == Success || s == Failed || s == Skipped
  }

  ghost function PendingIds(status: StatusMap): set<NodeId>
  {
    set n | n in status && status[n] == Pending
  }

  /**
   * What a run's records keep between any two steps of the scheduler: the
   * results are exactly those of the SUCCESS nodes and are what their tasks
   * returned; a FAILED node's task raised; every node that was ever found
   * ready had all its dependencies SUCCESS, and a SKIPPED node has a
   * condition.
   */
  ghost predicate RecordConsistent(nodes: seq<DAGNode>, env: Env, status: StatusMap, results: Results)
  {
    && UniqueIds(nodes)
    && (forall n :: n in results <==> n in status && status[n] == Success)
    && (forall n :: n in results ==> env.outcome(n) == Returned(results[n]))
    && (forall n :: n in status && status[n] == Failed ==> env.outcome(n).Raised?)
    && (forall k :: 0 <= k < |nodes| && nodes[k].id in status && WasReady(status[nodes[k].id]) ==> DepsSucceeded(nodes[k], status))
    && (forall k :: 0 <= k < |nodes| && nodes[k].id in status && status[nodes[k].id] == Skipped ==> nodes[k].condition.Some?)
  }

  /** The records are consistent and the in-flight executions are exactly the RUNNING nodes, each once. */
  ghost predicate RunConsistent(nodes: seq<DAGNode>, env: Env, status: StatusMap, results: Results, inFlight: seq<NodeId>)
  {
    && RecordConsistent(nodes, env, status, results)
    && Distinct(inFlight)
    && (forall n :: n in inFlight <==> n in status && status[n] == Running)
  }

  /** The ids of `nodes`, in order. */
  function IdsOf(nodes: seq<DAGNode>): (ids: seq<NodeId>)
    ensures |ids| == |nodes|
    ensures forall i :: 0 <= i < |nodes| ==> ids[i] == nodes[i].id
  {
    seq(|nodes|, i requires 0 <= i < |nodes| => nodes[i].id)
  }

  lemma IdsOfMembers(nodes: seq<DAGNode>)
    ensures forall x :: x in IdsOf(nodes) <==> x in IdSet(nodes)
    ensures UniqueIds(nodes) ==> Distinct(IdsOf(nodes))
  {
    var ids := IdsOf(nodes);
    forall x | x in IdSet(nodes) ensures x in ids {
      var i :| 0 <= i < |nodes| && nodes[i].id == x;
      assert ids[i] == x;
    }
  }

  lemma {:induction false} UniqueInit(nodes: seq<DAGNode>)
    requires UniqueIds(nodes) && nodes != []
    ensures UniqueIds(nodes[..|nodes| - 1])
    ensures nodes[|nodes| - 1].id !in IdSet(nodes[..|nodes| - 1])
    ensures IdSet(nodes) == IdSet(nodes[..|nodes| - 1]) + {nodes[|nodes| - 1].id}
  {
    var init := nodes[..|nodes| - 1];
    forall x | x in IdSet(nodes) ensures x in IdSet(init) + {nodes[|nodes| - 1].id} {
      var i :| 0 <= i < |nodes| && nodes[i].id == x;
      if i < |init| {
        assert init[i].id == x;
      }
    }
  }

  /** Ids of the ready nodes the launch step submits, in order. */
  function Launched(ready: seq<DAGNode>, results: Results): (ids: seq<NodeId>)
    ensures |ids| <= |ready|
  {
    if ready == [] then []
    else
      var last := ready[|ready| - 1];
      Launched(ready[..|ready| - 1], results) + (if ShouldExecute(last, results) then [last.id] else [])
  }

  /** The status map after the launch step: each ready node RUNNING or SKIPPED, as its condition decides. */
  function Launch(m: StatusMap, ready: seq<DAGNode>, results: Results): StatusMap
  {
    if ready == [] then m
    else
      var last := ready[|ready| - 1];
      Launch(m, ready[..|ready| - 1], results)[last.id := LaunchStatus(last, results)]
  }

  lemma LaunchSnoc(m: StatusMap, ready: seq<DAGNode>, n: DAGNode, results: Results)
    ensures Launch(m, ready + [n], results) == Launch(m, ready, results)[n.id := LaunchStatus(n, results)]
    ensures Launched(ready + [n], results) == Launched(ready, results) + (if ShouldExecute(n, results) then [n.id] else [])
  {
    assert (ready + [n])[..|ready|] == ready;
  }

  /** The launch step sets each ready node's status from its own condition and leaves every other status alone. */
  lemma {:induction false} LaunchAt(m: StatusMap, ready: seq<DAGNode>, results: Results)
    requires UniqueIds(ready)
    ensures Launch(m, ready, results).Keys == m.Keys + IdSet(ready)
    ensures forall n :: n in m && n !in IdSet(ready) ==> Launch(m, ready, results)[n] == m[n]
    ensures forall j :: 0 <= j < |ready| ==> Launch(m, ready, results)[ready[j].id] == LaunchStatus(ready[j], results)
  {
    if ready != [] {
      var init := ready[..|ready| - 1];
      var last := ready[|ready| - 1];
      UniqueInit(ready);
      LaunchAt(m, init, results);
      forall j | 0 <= j < |ready| - 1
        ensures Launch(m, ready, results)[ready[j].id] == LaunchStatus(ready[j], results)
      {
        assert ready[j] == init[j];
      }
    }
  }

  /** The launch step submits each ready node whose condition allows it, once. */
  lemma {:induction false} LaunchedMembers(ready: seq<DAGNode>, results: Results)
    requires UniqueIds(ready)
    ensures Distinct(Launched(ready, results))
    ensures forall x :: x in Launched(ready, results) ==> x in IdSet(ready)
    ensures forall j :: 0 <= j < |ready| ==> (ready[j].id in Launched(ready, results) <==> ShouldExecute(ready[j], results))
  {
    if ready != [] {
      var init := ready[..|ready| - 1];
      var last := ready[|ready| - 1];
      UniqueInit(ready);
      LaunchedMembers(init, results);
      assert ready == init + [last];
      LaunchSnoc(map[], init, last, results);
      forall j | 0 <= j < |ready| - 1
        ensures ready[j].id in Launched(ready, results) <==> ShouldExecute(ready[j], results)
      {
        assert ready[j] == init[j];
        assert ready[j].id in IdSet(init);
      }
    }
  }

  lemma DistinctConcat(a: seq<NodeId>, b: seq<NodeId>)
    requires Distinct(a) && Distinct(b)
    requires forall x :: x in a ==> x !in b
    ensures Distinct(a + b)
  {
    forall i, j | 0 <= i < j < |a + b| ensures (a + b)[i] != (a + b)[j] {
      if j < |a| {
        assert (a + b)[i] == a[i] && (a + b)[j] == a[j];
      } else if i < |a| {
        assert (a + b)[i] == a[i] && (a + b)[j] == b[j - |a|];
        assert a[i] in a && b[j - |a|] in b;
      } else {
        assert (a + b)[i] == b[i - |a|] && (a + b)[j] == b[j - |a|];
      }
    }
  }

  /** Statuses that were SUCCESS in `m` are still SUCCESS in `m2`. */
  ghost predicate SuccessKept(m: StatusMap, m2: StatusMap)
  {
    forall n :: n in m && m[n] == Success ==> n in m2 && m2[n] == Success
  }

  lemma DepsKept(n: DAGNode, m: StatusMap, m2: StatusMap)
    requires DepsSucceeded(n, m) && SuccessKept(m, m2)
    ensures DepsSucceeded(n, m2)
  {
  }

  /** A ready node of the graph is the graph's only node with its id. */
  lemma ReadyIsNode(nodes: seq<DAGNode>, m: StatusMap, x: DAGNode, k: nat)
    requires UniqueIds(nodes)
    requires x in ReadyFilter(nodes, m)
    requires k < |nodes| && nodes[k].id == x.id
    ensures nodes[k] == x && IsReady(x, m)
  {
    ReadyFilterMembers(nodes, m);
    var i :| 0 <= i < |nodes| && nodes[i] == x;
  }

  /** What the launch step changes: the ready nodes, all PENDING before, each to its launch status; nothing else. */
  lemma LaunchChanges(nodes: seq<DAGNode>, m: StatusMap, results: Results)
    requires UniqueIds(nodes)
    ensures Launch(m, ReadyFilter(nodes, m), results).Keys == m.Keys
    ensures SuccessKept(m, Launch(m, ReadyFilter(nodes, m), results))
    ensures forall x :: x in IdSet(ReadyFilter(nodes, m)) ==> x in m && m[x] == Pending
    ensures forall n :: n in m && n !in IdSet(ReadyFilter(nodes, m)) ==> Launch(m, ReadyFilter(nodes, m), results)[n] == m[n]
    ensures forall j :: 0 <= j < |ReadyFilter(nodes, m)| ==>
      Launch(m, ReadyFilter(nodes, m), results)[ReadyFilter(nodes, m)[j].id] == LaunchStatus(ReadyFilter(nodes, m)[j], results)
  {
    var ready := ReadyFilter(nodes, m);
    ReadyFilterMembers(nodes, m);
    ReadyFilterUnique(nodes, m);
    LaunchAt(m, ready, results);
    forall x | x in IdSet(ready) ensures x in m && m[x] == Pending {
      var j :| 0 <= j < |ready| && ready[j].id == x;
      assert ready[j] in ready;
    }
  }

  lemma LaunchRecords(nodes: seq<DAGNode>, env: Env, m: StatusMap, results: Results)
    requires RecordConsistent(nodes, env, m, results)
    ensures RecordConsistent(nodes, env, Launch(m, ReadyFilter(nodes, m), results), results)
  {
    var ready := ReadyFilter(nodes, m);
    var m2 := Launch(m, ready, results);
    LaunchChanges(nodes, m, results);
    forall k | 0 <= k < |nodes| && nodes[k].id in m2 && WasReady(m2[nodes[k].id])
      ensures DepsSucceeded(nodes[k], m2)
    {
      if nodes[k].id in IdSet(ready) {
        var j :| 0 <= j < |ready| && ready[j].id == nodes[k].id;
        ReadyIsNode(nodes, m, ready[j], k);
      }
      DepsKept(nodes[k], m, m2);
    }
    forall k | 0 <= k < |nodes| && nodes[k].id in m2 && m2[nodes[k].id] == Skipped
      ensures nodes[k].condition.Some?
    {
      if nodes[k].id in IdSet(ready) {
        var j :| 0 <= j < |ready| && ready[j].id == nodes[k].id;
        ReadyIsNode(nodes, m, ready[j], k);
      }
    }
    forall n | n in m2 ensures m2[n] == Failed ==> m[n] == Failed {
      if n in IdSet(ready) {
        var j :| 0 <= j < |ready| && ready[j].id == n;
      }
    }
    forall n | n in m2 ensures m2[n] == Success <==> m[n] == Success {
      if n in IdSet(ready) {
        var j :| 0 <= j < |ready| && ready[j].id == n;
      }
    }
  }

  /**
   * The launch step keeps a run consistent: the submitted ready nodes join
   * the in-flight executions as RUNNING, the others become SKIPPED, and the
   * ready nodes leave the PENDING ones.
   */
  lemma LaunchConsistent(nodes: seq<DAGNode>, env: Env, m: StatusMap, results: Results, inFlight: seq<NodeId>)
    requires RunConsistent(nodes, env, m, results, inFlight)
    ensures RunConsistent(nodes, env, Launch(m, ReadyFilter(nodes, m), results), results,
      inFlight + Launched(ReadyFilter(nodes, m), results))
    ensures PendingIds(Launch(m, ReadyFilter(nodes, m), results)) == PendingIds(m) - IdSet(ReadyFilter(nodes, m))
  {
    var ready := ReadyFilter(nodes, m);
    var m2 := Launch(m, ready, results);
    var launched := Launched(ready, results);
    LaunchRecords(nodes, env, m, results);
    LaunchChanges(nodes, m, results);
    ReadyFilterUnique(nodes, m);
    LaunchedMembers(ready, results);
    DistinctConcat(inFlight, launched);
    forall n ensures n in inFlight + launched <==> n in m2 && m2[n] == Running {
      if n in IdSet(ready) {
        var j :| 0 <= j < |ready| && ready[j].id == n;
      }
    }
    forall n ensures n in PendingIds(m2) <==> n in PendingIds(m) && n !in IdSet(ready) {
      if n in IdSet(ready) {
        var j :| 0 <= j < |ready| && ready[j].id == n;
      }
    }
  }

  /** Recording a returned value keeps a run consistent: the node becomes SUCCESS and leaves the in-flight executions. */
  lemma SuccessConsistent(nodes: seq<DAGNode>, env: Env, m: StatusMap, results: Results, inFlight: seq<NodeId>, id: NodeId, v: Value)
    requires RunConsistent(nodes, env, m, results, inFlight)
    requires id in inFlight && env.outcome(id) == Returned(v)
    ensures RunConsistent(nodes, env, m[id := Success], results[id := v], Remove(inFlight, id))
  {
    var m2 := m[id := Success];
    RemoveMembers(inFlight, id);
    RemoveDistinct(inFlight, id);
    assert SuccessKept(m, m2);
    forall k | 0 <= k < |nodes| && nodes[k].id in m2 && WasReady(m2[nodes[k].id])
      ensures DepsSucceeded(nodes[k], m2)
    {
      DepsKept(nodes[k], m, m2);
    }
  }

  /**
   * The statuses `_handle_node_exception` leaves for a failure of `failedId`
   * reported in `batch`: the failed node FAILED, every in-flight execution
   * whose cancel succeeds CANCELED, every other PENDING node of the graph
   * CANCELED, and nothing else changed.
   */
  ghost predicate AfterFailure(nodes: seq<DAGNode>, env: Env, batch: seq<NodeId>, inFlight: seq<NodeId>, failedId: NodeId, m: StatusMap, m2: StatusMap)
  {
    && m2.Keys == m.Keys
    && forall n :: n in m ==>
         m2[n] == (if n == failedId then Failed
                   else if n in inFlight && CancelSucceeds(env, batch, n) then Canceled
                   else if n in IdSet(nodes) && m[n] == Pending then Canceled
                   else m[n])
  }

  /** Handling a failure keeps the records consistent: only RUNNING and PENDING nodes change, and only the failed one becomes FAILED. */
  lemma FailureRecordsConsistent(nodes: seq<DAGNode>, env: Env, batch: seq<NodeId>, inFlight: seq<NodeId>, failedId: NodeId,
                                 m: StatusMap, m2: StatusMap, results: Results)
    requires RecordConsistent(nodes, env, m, results)
    requires forall x :: x in inFlight ==> x in m && m[x] == Running
    requires failedId in inFlight && env.outcome(failedId).Raised?
    requires AfterFailure(nodes, env, batch, inFlight, failedId, m, m2)
    ensures RecordConsistent(nodes, env, m2, results)
  {
    assert SuccessKept(m, m2);
    forall k | 0 <= k < |nodes| && nodes[k].id in m2 && WasReady(m2[nodes[k].id])
      ensures DepsSucceeded(nodes[k], m2)
    {
      DepsKept(nodes[k], m, m2);
    }
  }

  /** After a failure the in-flight executions are the survivors of the cancel scan but the failed one: exactly the RUNNING nodes, each once. */
  lemma FailureInFlight(env: Env, batch: seq<NodeId>, inFlight: seq<NodeId>, failedId: NodeId, m: StatusMap, m2: StatusMap,
                        nodes: seq<DAGNode>)
    requires Distinct(inFlight)
    requires forall n :: n in inFlight <==> n in m && m[n] == Running
    requires failedId in inFlight
    requires AfterFailure(nodes, env, batch, inFlight, failedId, m, m2)
    ensures Distinct(Remove(Survivors(env, batch, inFlight), failedId))
    ensures forall n :: n in Remove(Survivors(env, batch, inFlight), failedId) <==> n in m2 && m2[n] == Running
  {
    var survivors := Survivors(env, batch, inFlight);
    CancellationMembers(env, batch, inFlight);
    CancellationPartitions(env, batch, inFlight);
    RemoveMembers(survivors, failedId);
    RemoveDistinct(survivors, failedId);
  }

  /**
   * Handling a node failure keeps a run consistent, with the failed node and
   * the cancelled executions gone from the in-flight ones, and leaves no
   * node of the graph PENDING.
   */
  lemma FailureConsistent(nodes: seq<DAGNode>, env: Env, batch: seq<NodeId>, inFlight: seq<NodeId>, failedId: NodeId,
                          m: StatusMap, m2: StatusMap, results: Results)
    requires RunConsistent(nodes, env, m, results, inFlight)
    requires failedId in inFlight && failedId in batch && env.outcome(failedId).Raised?
    requires AfterFailure(nodes, env, batch, inFlight, failedId, m, m2)
    ensures RunConsistent(nodes, env, m2, results, Remove(Survivors(env, batch, inFlight), failedId))
    ensures forall k :: 0 <= k < |nodes| && nodes[k].id in m2 ==> m2[nodes[k].id] != Pending
  {
    FailureRecordsConsistent(nodes, env, batch, inFlight, failedId, m, m2, results);
    FailureInFlight(env, batch, inFlight, failedId, m, m2, nodes);
    forall k | 0 <= k < |nodes| && nodes[k].id in m2 ensures m2[nodes[k].id] != Pending {
      assert nodes[k].id in IdSet(nodes);
    }
  }

  /** Handling a failure leaves every terminal status as it was; the failed node becomes FAILED. */
  lemma AfterFailureKeepsTerminal(nodes: seq<DAGNode>, env: Env, batch: seq<NodeId>, inFlight: seq<NodeId>, failedId: NodeId,
                                  m: StatusMap, m2: StatusMap)
    requires AfterFailure(nodes, env, batch, inFlight, failedId, m, m2)
    requires forall x :: x in inFlight ==> x in m && m[x] == Running
    requires failedId in inFlight
    ensures failedId in m2 && m2[failedId] == Failed
    ensures forall n :: n in m && m[n].IsTerminal() ==> n in m2 && m2[n] == m[n]
  {
  }

  /** A fresh run, with every node PENDING and nothing in flight, is consistent. */
  lemma FreshRunConsistent(nodes: seq<DAGNode>, env: Env, status: StatusMap)
    requires UniqueIds(nodes)
    requires forall n :: n in status ==> status[n] == Pending
    ensures RunConsistent(nodes, env, status, map[], [])
  {
  }

  /** A node with a SKIPPED dependency is never ready, whatever else holds. */
  lemma SkippedDependencyBlocks(n: DAGNode, status: StatusMap, d: NodeId)
    requires d in n.dependencies && d in status && status[d] == Skipped
    ensures !IsReady(n, status)
  {
  }

  /**
   * The two-node graph of examples/test.py (`test_node2` depends on
   * `test_node1`): the first node is ready alone, the second once the first
   * is SUCCESS, and never if the first was SKIPPED.
   */
  lemma TwoNodeReadiness()
    ensures var nodes := [DAGNode("test_node1"), DAGNode("test_node2", ["test_node1"])];
      && ReadyNodes(nodes, map["test_node1" := Pending, "test_node2" := Pending]) == Ok([nodes[0]])
      && ReadyNodes(nodes, map["test_node1" := Running, "test_node2" := Pending]) == Ok([])
      && ReadyNodes(nodes, map["test_node1" := Success, "test_node2" := Pending]) == Ok([nodes[1]])
      && ReadyNodes(nodes, map["test_node1" := Skipped, "test_node2" := Pending]) == Ok([])
  {
    var nodes := [DAGNode("test_node1"), DAGNode("test_node2", ["test_node1"])];
    assert nodes[1..] == [nodes[1]] && nodes[1..][1..] == [];
    assert ["test_node1"][1..] == [];
    var start := map["test_node1" := Pending, "test_node2" := Pending];
    assert Readiness(nodes[0], start) == Ok(true);
    assert Readiness(nodes[1], start) == Ok(false);
    assert ReadyNodes(nodes[1..], start) == Ok([]);
    assert ReadyNodes(nodes, start) == Ok([nodes[0]] + []);
    assert [nodes[0]] + [] == [nodes[0]] && [nodes[1]] + [] == [nodes[1]];
    var first := map["test_node1" := Success, "test_node2" := Pending];
    assert Readiness(nodes[0], first) == Ok(false);
    assert AllDepsSucceeded(["test_node1"], first) == Ok(true);
    assert Readiness(nodes[1], first) == Ok(true);
    assert ReadyNodes(nodes[1..], first) == Ok([nodes[1]] + []);
    assert ReadyNodes(nodes, first) == Ok([nodes[1]]);
  }
}
