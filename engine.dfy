/**
 * `DAGEngine` of dag_workflow/engine.py, run sequentially: node and observer
 * registration, submission, status changes with their events, observer
 * notification, and the per-run scheduling loop with its failure handlers.
 *
 * Observers are modelled by what they receive: `delivered` lists every
 * (observer, event) hand-over in call order. The ghost `trace` records every
 * event the engine emits, in order; `NotifyObservers` hands each one to every
 * registered observer.
 */
module Engine {
  import opened Wrappers
  import opened CoreModels
  import opened Events
  import opened Scheduling

  type ObserverId = string

  /** The console observer the engine registers when built with `print=True`. */
  const PrintObserver: ObserverId := "PrintObserver"

  /** Where `_handle_workflow_exception` records a failure of the scheduling loop itself. */
  const LoopLocation: string := "_run_single_workflow"

  /** The text recorded for a KeyError raised while computing the ready set (the traceback is not modelled). */
  function KeyErrorText(key: NodeId): string
  {
    "KeyError: " + key
  }

  datatype Delivery = Delivery(observer: ObserverId, event: Event)

  /** One event handed to each observer, in registration order. */
  function FanOut(audience: seq<ObserverId>, e: Event): (ds: seq<Delivery>)
    ensures |ds| == |audience|
    ensures forall i :: 0 <= i < |audience| ==> ds[i] == Delivery(audience[i], e)
  {
    seq(|audience|, i requires 0 <= i < |audience| => Delivery(audience[i], e))
  }

  /** `{node.node_id: PENDING for node in node_list}`. */
  function AllPending(nodes: seq<DAGNode>): (m: StatusMap)
    ensures m.Keys == IdSet(nodes)
    ensures forall n :: n in m ==> m[n] == Pending
  {
    map id | id in IdSet(nodes) :: Pending
  }

  /** The failures a batch records, one per raised outcome, in batch order. */
  function FailureRecords(env: Env, batch: seq<NodeId>): seq<ContextException>
  {
    if batch == [] then [] else FailureRecords(env, batch[..|batch| - 1]) + FailureRecord(env, batch[|batch| - 1])
  }

  /** Recording a batch in two parts records the same failures as recording it whole. */
  lemma {:induction false} FailureRecordsSplit(env: Env, batch: seq<NodeId>, i: nat)
    requires i <= |batch|
    ensures FailureRecords(env, batch) == FailureRecords(env, batch[..i]) + FailureRecords(env, batch[i..])
    decreases |batch|
  {
    if i == |batch| {
      assert batch[..i] == batch && batch[i..] == [];
    } else {
      var init, last := batch[..|batch| - 1], batch[|batch| - 1];
      FailureRecordsSplit(env, init, i);
      LastSplit(batch, i);
      var front, middle, back := FailureRecords(env, batch[..i]), FailureRecords(env, init[i..]), FailureRecord(env, last);
      assert FailureRecords(env, batch[i..]) == middle + back;
      ConcatAssoc(front, middle, back);
    }
  }

  /** Dropping the last element of `s` commutes with splitting it at `i`. */
  lemma LastSplit<T>(s: seq<T>, i: nat)
    requires i < |s|
    ensures s[..|s| - 1][..i] == s[..i]
    ensures s[i..] != [] && s[i..][|s[i..]| - 1] == s[|s| - 1]
    ensures s[i..][..|s[i..]| - 1] == s[..|s| - 1][i..]
  {
  }

  lemma ConcatAssoc<T>(a: seq<T>, b: seq<T>, c: seq<T>)
    ensures a + b + c == a + (b + c)
  {
  }

  /** FailureRecordsSplit, after records already present. */
  lemma FailureRecordsAppend(env: Env, batch: seq<NodeId>, i: nat, before: seq<ContextException>)
    requires i <= |batch|
    ensures before + FailureRecords(env, batch[..i]) + FailureRecords(env, batch[i..]) == before + FailureRecords(env, batch)
  {
    FailureRecordsSplit(env, batch, i);
  }

  /** A batch raised exactly when its part up to the first raised outcome did; with none, that part is the whole batch. */
  lemma RaisedPrefix(env: Env, batch: seq<NodeId>, i: nat, failed: bool)
    requires i <= |batch| && (!failed ==> i == |batch|)
    requires failed == AnyRaised(env, batch[..i])
    ensures failed <==> AnyRaised(env, batch)
    ensures !failed ==> batch[..i] == batch
  {
    if !failed {
      assert batch[..i] == batch;
    }
  }

  /** `m` with every id of `ids` set to `s`, one after the other. */
  function SetAll(m: StatusMap, ids: seq<NodeId>, s: NodeStatus): StatusMap
  {
    if ids == [] then m else SetAll(m, ids[..|ids| - 1], s)[ids[|ids| - 1] := s]
  }

  lemma SetAllSnoc(m: StatusMap, ids: seq<NodeId>, id: NodeId, s: NodeStatus)
    ensures SetAll(m, ids + [id], s) == SetAll(m, ids, s)[id := s]
  {
    assert (ids + [id])[..|ids|] == ids;
  }

  lemma {:induction false} SetAllAt(m: StatusMap, ids: seq<NodeId>, s: NodeStatus, n: NodeId)
    ensures n in SetAll(m, ids, s) <==> n in m || n in ids
    ensures n in SetAll(m, ids, s) ==> SetAll(m, ids, s)[n] == if n in ids then s else m[n]
  {
    if ids != [] {
      var init := ids[..|ids| - 1];
      assert ids == init + [ids[|ids| - 1]];
      SetAllAt(m, init, s, n);
    }
  }

  /** The change events of setting each of `ids` to `to`, each reporting its status in `m` as the previous one. */
  function StatusEvents(runId: string, m: StatusMap, ids: seq<NodeId>, to: NodeStatus): (es: seq<Event>)
    requires forall x :: x in ids ==> x in m
    ensures |es| == |ids|
  {
    if ids == [] then []
    else
      var last := ids[|ids| - 1];
      StatusEvents(runId, m, ids[..|ids| - 1], to) + [NodeStatusChange(runId, last, m[last], to, Info)]
  }

  lemma StatusEventsSnoc(runId: string, m: StatusMap, ids: seq<NodeId>, id: NodeId, to: NodeStatus, before: seq<Event>)
    requires forall x :: x in ids ==> x in m
    requires id in m
    ensures StatusEvents(runId, m, ids + [id], to) == StatusEvents(runId, m, ids, to) + [NodeStatusChange(runId, id, m[id], to, Info)]
    ensures before + StatusEvents(runId, m, ids + [id], to) == before + StatusEvents(runId, m, ids, to) + [NodeStatusChange(runId, id, m[id], to, Info)]
  {
    assert (ids + [id])[..|ids|] == ids;
  }

  /** The ids of `ids` that are PENDING in `m`, in order. */
  function PendingOf(ids: seq<NodeId>, m: StatusMap): (p: seq<NodeId>)
    requires forall x :: x in ids ==> x in m
    ensures |p| <= |ids|
  {
    if ids == [] then []
    else
      var last := ids[|ids| - 1];
      PendingOf(ids[..|ids| - 1], m) + (if m[last] == Pending then [last] else [])
  }

  lemma PendingOfSnoc(ids: seq<NodeId>, m: StatusMap, x: NodeId)
    requires forall y :: y in ids ==> y in m
    requires x in m
    ensures PendingOf(ids + [x], m) == PendingOf(ids, m) + (if m[x] == Pending then [x] else [])
  {
    assert (ids + [x])[..|ids|] == ids;
  }

  lemma {:induction false} PendingOfMembers(ids: seq<NodeId>, m: StatusMap)
    requires forall x :: x in ids ==> x in m
    ensures forall x :: x in PendingOf(ids, m) <==> x in ids && m[x] == Pending
  {
    if ids != [] {
      var init := ids[..|ids| - 1];
      assert ids == init + [ids[|ids| - 1]];
      PendingOfMembers(init, m);
    }
  }

  lemma {:induction false} PendingOfAgree(ids: seq<NodeId>, m: StatusMap, m2: StatusMap)
    requires forall x :: x in ids ==> x in m && x in m2 && (m[x] == Pending <==> m2[x] == Pending)
    ensures PendingOf(ids, m) == PendingOf(ids, m2)
  {
    if ids != [] {
      var init := ids[..|ids| - 1];
      assert forall x :: x in init ==> x in ids;
      PendingOfAgree(init, m, m2);
    }
  }

  /** Change events moving each of `ids` from `from` to `to`, in order. */
  function Transitions(runId: string, ids: seq<NodeId>, from: NodeStatus, to: NodeStatus): (es: seq<Event>)
    ensures |es| == |ids|
    ensures forall i :: 0 <= i < |ids| ==> es[i] == NodeStatusChange(runId, ids[i], from, to, Info)
  {
    seq(|ids|, i requires 0 <= i < |ids| => NodeStatusChange(runId, ids[i], from, to, Info))
  }

  /** The transitions of a prefix grow by one event per further id. */
  lemma TransitionsStep(runId: string, ids: seq<NodeId>, i: nat, before: seq<Event>, from: NodeStatus, to: NodeStatus)
    requires i < |ids|
    ensures before + Transitions(runId, ids[..i + 1], from, to)
      == before + Transitions(runId, ids[..i], from, to) + [NodeStatusChange(runId, ids[i], from, to, Info)]
  {
    assert Transitions(runId, ids[..i + 1], from, to)
      == Transitions(runId, ids[..i], from, to) + [NodeStatusChange(runId, ids[i], from, to, Info)];
  }

  /** When every id of `ids` has the same status in `m`, its change events are uniform transitions. */
  lemma {:induction false} StatusEventsUniform(runId: string, m: StatusMap, ids: seq<NodeId>, from: NodeStatus, to: NodeStatus)
    requires forall x :: x in ids ==> x in m && m[x] == from
    ensures StatusEvents(runId, m, ids, to) == Transitions(runId, ids, from, to)
  {
    if ids != [] {
      var init := ids[..|ids| - 1];
      assert ids == init + [ids[|ids| - 1]];
      StatusEventsUniform(runId, m, init, from, to);
      assert Transitions(runId, ids, from, to) == Transitions(runId, init, from, to) + [Transitions(runId, ids, from, to)[|ids| - 1]];
    }
  }

  /** The statuses after the cancel scan, node by node. */
  lemma CancelledStatuses(env: Env, batch: seq<NodeId>, inFlight: seq<NodeId>, m0: StatusMap)
    requires forall x :: x in inFlight ==> x in m0
    ensures SetAll(m0, Cancelled(env, batch, inFlight), Canceled).Keys == m0.Keys
    ensures forall n :: n in m0 ==>
      SetAll(m0, Cancelled(env, batch, inFlight), Canceled)[n] == (if n in inFlight && CancelSucceeds(env, batch, n) then Canceled else m0[n])
  {
    var cancelled := Cancelled(env, batch, inFlight);
    CancellationMembers(env, batch, inFlight);
    forall n ensures n in SetAll(m0, cancelled, Canceled) <==> n in m0
      ensures n in m0 ==> SetAll(m0, cancelled, Canceled)[n] == if n in inFlight && CancelSucceeds(env, batch, n) then Canceled else m0[n]
    {
      SetAllAt(m0, cancelled, Canceled, n);
    }
  }

  /** The statuses after the sweep of PENDING graph nodes, node by node. */
  lemma SweptStatuses(nodes: seq<DAGNode>, m1: StatusMap)
    requires forall k :: 0 <= k < |nodes| ==> nodes[k].id in m1
    ensures forall x :: x in IdsOf(nodes) ==> x in m1
    ensures SetAll(m1, PendingOf(IdsOf(nodes), m1), Canceled).Keys == m1.Keys
    ensures forall n :: n in m1 ==>
      SetAll(m1, PendingOf(IdsOf(nodes), m1), Canceled)[n] == (if n in IdSet(nodes) && m1[n] == Pending then Canceled else m1[n])
  {
    var ids := IdsOf(nodes);
    IdsOfMembers(nodes);
    var swept := PendingOf(ids, m1);
    PendingOfMembers(ids, m1);
    forall n ensures n in SetAll(m1, swept, Canceled) <==> n in m1
      ensures n in m1 ==> SetAll(m1, swept, Canceled)[n] == if n in IdSet(nodes) && m1[n] == Pending then Canceled else m1[n]
    {
      SetAllAt(m1, swept, Canceled, n);
    }
  }

  /**
   * The three status updates of `_handle_node_exception` (cancel what can
   * be cancelled, cancel the PENDING nodes of the graph, fail the node)
   * together leave the statuses AfterFailure describes.
   */
  lemma FailureSteps(runId: string, nodes: seq<DAGNode>, env: Env, batch: seq<NodeId>, inFlight: seq<NodeId>, failedId: NodeId, m0: StatusMap)
    requires forall x :: x in inFlight ==> x in m0 && m0[x] == Running
    requires forall k :: 0 <= k < |nodes| ==> nodes[k].id in m0
    requires failedId in batch && failedId in inFlight
    ensures var m1 := SetAll(m0, Cancelled(env, batch, inFlight), Canceled);
      && (forall k :: 0 <= k < |nodes| ==> nodes[k].id in m1)
      && PendingOf(IdsOf(nodes), m1) == PendingOf(IdsOf(nodes), m0)
      && SetAll(m1, PendingOf(IdsOf(nodes), m0), Canceled).Keys == m0.Keys
      && SetAll(m1, PendingOf(IdsOf(nodes), m0), Canceled)[failedId] == Running
      && AfterFailure(nodes, env, batch, inFlight, failedId, m0,
           SetAll(m1, PendingOf(IdsOf(nodes), m0), Canceled)[failedId := Failed])
  {
    var m1 := SetAll(m0, Cancelled(env, batch, inFlight), Canceled);
    CancelledStatuses(env, batch, inFlight, m0);
    assert forall k :: 0 <= k < |nodes| ==> nodes[k].id in m1;
    SweptStatuses(nodes, m1);
    PendingOfAgree(IdsOf(nodes), m0, m1);
    var m2 := SetAll(m1, PendingOf(IdsOf(nodes), m0), Canceled);
    forall n | n in m0
      ensures m2[failedId := Failed][n] == (if n == failedId then Failed
                                           else if n in inFlight && CancelSucceeds(env, batch, n) then Canceled
                                           else if n in IdSet(nodes) && m0[n] == Pending then Canceled
                                           else m0[n])
    {
    }
  }

  /** The cancel scan of a failure reports each cancelled execution as RUNNING→CANCELED. */
  lemma CancelEvents(runId: string, env: Env, batch: seq<NodeId>, inFlight: seq<NodeId>, m0: StatusMap)
    requires forall x :: x in inFlight ==> x in m0 && m0[x] == Running
    ensures forall x :: x in Cancelled(env, batch, inFlight) ==> x in inFlight
    ensures StatusEvents(runId, m0, Cancelled(env, batch, inFlight), Canceled) ==
      Transitions(runId, Cancelled(env, batch, inFlight), Running, Canceled)
  {
    CancellationMembers(env, batch, inFlight);
    StatusEventsUniform(runId, m0, Cancelled(env, batch, inFlight), Running, Canceled);
  }

  /** One step of the cancel scan: the next in-flight id extends the cancelled or the surviving ones, and its status is still untouched. */
  lemma CancelStep(env: Env, batch: seq<NodeId>, inFlight: seq<NodeId>, i: nat, m: StatusMap)
    requires Distinct(inFlight) && i < |inFlight|
    requires inFlight[i] in m
    ensures inFlight[..i + 1] == inFlight[..i] + [inFlight[i]]
    ensures Cancelled(env, batch, inFlight[..i + 1]) ==
      Cancelled(env, batch, inFlight[..i]) + (if CancelSucceeds(env, batch, inFlight[i]) then [inFlight[i]] else [])
    ensures Survivors(env, batch, inFlight[..i + 1]) ==
      Survivors(env, batch, inFlight[..i]) + (if CancelSucceeds(env, batch, inFlight[i]) then [] else [inFlight[i]])
    ensures inFlight[i] in SetAll(m, Cancelled(env, batch, inFlight[..i]), Canceled)
    ensures SetAll(m, Cancelled(env, batch, inFlight[..i]), Canceled)[inFlight[i]] == m[inFlight[i]]
  {
    var prefix := inFlight[..i];
    var id := inFlight[i];
    assert inFlight[..i + 1] == prefix + [id];
    CancellationSnoc(env, batch, prefix, id);
    assert id !in prefix;
    CancellationMembers(env, batch, prefix);
    SetAllAt(m, Cancelled(env, batch, prefix), Canceled, id);
  }

  /** The change events of the launch step: each ready node from its status in `m` to RUNNING or SKIPPED. */
  function LaunchEvents(runId: string, m: StatusMap, ready: seq<DAGNode>, results: Results): (es: seq<Event>)
    requires forall j :: 0 <= j < |ready| ==> ready[j].id in m
    ensures |es| == |ready|
    ensures forall j :: 0 <= j < |ready| ==>
      es[j] == NodeStatusChange(runId, ready[j].id, m[ready[j].id], LaunchStatus(ready[j], results), Info)
  {
    seq(|ready|, j requires 0 <= j < |ready| =>
      NodeStatusChange(runId, ready[j].id, m[ready[j].id], LaunchStatus(ready[j], results), Info))
  }

  /** One step of the launch loop: the next ready node extends each record, and its status is still untouched. */
  lemma LaunchStep(runId: string, m: StatusMap, ready: seq<DAGNode>, k: nat, results: Results)
    requires UniqueIds(ready) && k < |ready|
    requires forall j :: 0 <= j < |ready| ==> ready[j].id in m
    ensures ready[..k + 1] == ready[..k] + [ready[k]]
    ensures Launch(m, ready[..k + 1], results) == Launch(m, ready[..k], results)[ready[k].id := LaunchStatus(ready[k], results)]
    ensures Launched(ready[..k + 1], results) ==
      Launched(ready[..k], results) + (if ShouldExecute(ready[k], results) then [ready[k].id] else [])
    ensures ready[k].id in Launch(m, ready[..k], results)
    ensures Launch(m, ready[..k], results)[ready[k].id] == m[ready[k].id]
    ensures LaunchEvents(runId, m, ready[..k + 1], results) == LaunchEvents(runId, m, ready[..k], results)
      + [NodeStatusChange(runId, ready[k].id, m[ready[k].id], LaunchStatus(ready[k], results), Info)]
  {
    var init := ready[..k];
    var front := ready[..k + 1];
    assert front == init + [ready[k]];
    LaunchSnoc(m, init, ready[k], results);
    UniqueInit(front);
    assert front[..k] == init;
    LaunchAt(m, init, results);
    LaunchEventsSnoc(runId, m, ready, k, results);
  }

  lemma LaunchEventsSnoc(runId: string, m: StatusMap, ready: seq<DAGNode>, k: nat, results: Results)
    requires k < |ready|
    requires forall j :: 0 <= j < |ready| ==> ready[j].id in m
    ensures LaunchEvents(runId, m, ready[..k + 1], results) == LaunchEvents(runId, m, ready[..k], results)
      + [NodeStatusChange(runId, ready[k].id, m[ready[k].id], LaunchStatus(ready[k], results), Info)]
  {
    var a := LaunchEvents(runId, m, ready[..k + 1], results);
    var b := LaunchEvents(runId, m, ready[..k], results)
      + [NodeStatusChange(runId, ready[k].id, m[ready[k].id], LaunchStatus(ready[k], results), Info)];
    assert |a| == |b|;
    forall j | 0 <= j < |a| ensures a[j] == b[j] {
      assert ready[..k + 1][j] == ready[j];
      if j < k {
        assert ready[..k][j] == ready[j];
      }
    }
  }

  /** LaunchStep with the events and executions that came before the launch step. */
  lemma LaunchStepAfter(runId: string, m: StatusMap, ready: seq<DAGNode>, k: nat, results: Results,
                        before: seq<Event>, inFlight: seq<NodeId>, next: nat)
    requires UniqueIds(ready) && k < |ready| && next == k + 1
    requires forall j :: 0 <= j < |ready| ==> ready[j].id in m
    ensures Launch(m, ready[..next], results) == Launch(m, ready[..k], results)[ready[k].id := LaunchStatus(ready[k], results)]
    ensures ready[k].id in Launch(m, ready[..k], results)
    ensures Launch(m, ready[..k], results)[ready[k].id] == m[ready[k].id]
    ensures before + LaunchEvents(runId, m, ready[..next], results) == before + LaunchEvents(runId, m, ready[..k], results)
      + [NodeStatusChange(runId, ready[k].id, m[ready[k].id], LaunchStatus(ready[k], results), Info)]
    ensures inFlight + Launched(ready[..next], results) ==
      inFlight + Launched(ready[..k], results) + (if ShouldExecute(ready[k], results) then [ready[k].id] else [])
  {
    LaunchStep(runId, m, ready, k, results);
  }

  /** The failure record a finished execution adds: one for a raised outcome, none for a returned one. */
  function FailureRecord(env: Env, id: NodeId): seq<ContextException>
  {
    match env.outcome(id)
    case Raised(msg) => [ContextException(id, msg)]
    case Returned(_) => []
  }

  lemma BatchStep(env: Env, batch: seq<NodeId>, i: nat, before: seq<ContextException>)
    requires i < |batch|
    ensures batch[..i + 1] == batch[..i] + [batch[i]]
    ensures FailureRecords(env, batch[..i + 1]) == FailureRecords(env, batch[..i]) + FailureRecord(env, batch[i])
    ensures before + FailureRecords(env, batch[..i + 1]) == before + FailureRecords(env, batch[..i]) + FailureRecord(env, batch[i])
  {
    assert batch[..i + 1] == batch[..i] + [batch[i]];
    assert batch[..i + 1][..i] == batch[..i];
  }

  /** BatchStep for the part of a batch that starts at `i0`. */
  lemma TailStep(env: Env, batch: seq<NodeId>, i0: nat, i: nat, next: nat, before: seq<ContextException>)
    requires i0 <= i < |batch| && next == i + 1
    ensures before + FailureRecords(env, batch[i0..next]) == before + FailureRecords(env, batch[i0..i]) + FailureRecord(env, batch[i])
  {
    BatchStep(env, batch[i0..], i - i0, before);
    assert batch[i0..][..i - i0] == batch[i0..i] && batch[i0..][..next - i0] == batch[i0..next];
  }

  /** Marking RUNNING nodes SUCCESS changes no PENDING node and introduces no other status. */
  lemma SucceedAllAt(m: StatusMap, ids: seq<NodeId>)
    requires forall x :: x in ids ==> x in m && m[x] == Running
    ensures SetAll(m, ids, Success).Keys == m.Keys
    ensures PendingIds(SetAll(m, ids, Success)) == PendingIds(m)
    ensures forall n :: n in m ==> SetAll(m, ids, Success)[n] == (if n in ids then Success else m[n])
  {
    forall n ensures n in SetAll(m, ids, Success) <==> n in m
      ensures n in m ==> SetAll(m, ids, Success)[n] == (if n in ids then Success else m[n])
    {
      SetAllAt(m, ids, Success, n);
    }
  }

  /** After a failure handled mid-batch, the rest of the batch is still in flight. */
  lemma BatchSurvivors(env: Env, batch: seq<NodeId>, inFlight: seq<NodeId>, i: nat)
    requires Distinct(batch) && i < |batch|
    requires forall j :: i <= j < |batch| ==> batch[j] in inFlight
    ensures forall j :: i < j < |batch| ==> batch[j] in Remove(Survivors(env, batch, inFlight), batch[i])
  {
    CancellationMembers(env, batch, inFlight);
    RemoveMembers(Survivors(env, batch, inFlight), batch[i]);
    forall j | i < j < |batch| ensures batch[j] in Remove(Survivors(env, batch, inFlight), batch[i]) {
      assert batch[j] in batch;
    }
  }

  /** What handling a raised outcome mid-batch leaves behind, over the status map alone. */
  lemma FailureStep(nodes: seq<DAGNode>, env: Env, m: StatusMap, m2: StatusMap, results: Results,
                    inFlight: seq<NodeId>, batch: seq<NodeId>, i: nat)
    requires RunConsistent(nodes, env, m, results, inFlight)
    requires Distinct(batch) && i < |batch|
    requires forall j :: i <= j < |batch| ==> batch[j] in inFlight
    requires env.outcome(batch[i]).Raised?
    requires AfterFailure(nodes, env, batch, inFlight, batch[i], m, m2)
    ensures RunConsistent(nodes, env, m2, results, Remove(Survivors(env, batch, inFlight), batch[i]))
    ensures forall k :: 0 <= k < |nodes| && nodes[k].id in m2 ==> m2[nodes[k].id] != Pending
    ensures batch[i] in m2 && m2[batch[i]] == Failed
    ensures forall n :: n in m && m[n].IsTerminal() ==> n in m2 && m2[n] == m[n]
    ensures forall j :: i < j < |batch| ==> batch[j] in Remove(Survivors(env, batch, inFlight), batch[i])
  {
    FailureConsistent(nodes, env, batch, inFlight, batch[i], m, m2, results);
    AfterFailureKeepsTerminal(nodes, env, batch, inFlight, batch[i], m, m2);
    BatchSurvivors(env, batch, inFlight, i);
  }

  /** A returned outcome mid-batch: the run stays consistent, the rest of the batch stays in flight, and the in-flight count drops by one. */
  lemma SuccessStep(nodes: seq<DAGNode>, env: Env, m: StatusMap, results: Results, inFlight: seq<NodeId>, batch: seq<NodeId>, i: nat, v: Value)
    requires RunConsistent(nodes, env, m, results, inFlight)
    requires Distinct(batch) && i < |batch|
    requires forall j :: i <= j < |batch| ==> batch[j] in inFlight
    requires env.outcome(batch[i]) == Returned(v)
    ensures batch[i] in m && m[batch[i]] == Running
    ensures RunConsistent(nodes, env, m[batch[i] := Success], results[batch[i] := v], Remove(inFlight, batch[i]))
    ensures forall j :: i < j < |batch| ==> batch[j] in Remove(inFlight, batch[i])
    ensures |Remove(inFlight, batch[i])| == |inFlight| - 1
  {
    SuccessConsistent(nodes, env, m, results, inFlight, batch[i], v);
    RemoveMembers(inFlight, batch[i]);
    RemoveDistinct(inFlight, batch[i]);
  }

  /** Some execution of `ids` raised. */
  predicate AnyRaised(env: Env, ids: seq<NodeId>)
  {
    exists x :: x in ids && env.outcome(x).Raised?
  }

  /** No node of the run is FAILED or CANCELED: the run has not met a failure. */
  ghost predicate Unfailed(status: StatusMap)
  {
    forall n :: n in status ==> status[n] != Failed && status[n] != Canceled
  }

  /** The launch step only marks nodes RUNNING or SKIPPED, so it cannot fail a run. */
  lemma LaunchUnfailed(nodes: seq<DAGNode>, m: StatusMap, results: Results)
    requires UniqueIds(nodes) && Unfailed(m)
    ensures Unfailed(Launch(m, ReadyFilter(nodes, m), results))
  {
    var ready := ReadyFilter(nodes, m);
    LaunchChanges(nodes, m, results);
    forall n | n in Launch(m, ready, results)
      ensures Launch(m, ready, results)[n] != Failed && Launch(m, ready, results)[n] != Canceled
    {
      if n in IdSet(ready) {
        var j :| 0 <= j < |ready| && ready[j].id == n;
      }
    }
  }

  /**
   * When the ready set is empty, every PENDING node of the graph has a
   * dependency that is not SUCCESS: a run that ends this way leaves such
   * nodes PENDING for good.
   */
  lemma QuiescentBlocked(nodes: seq<DAGNode>, status: StatusMap)
    requires ReadyNodes(nodes, status) == Ok([])
    ensures forall k :: 0 <= k < |nodes| && status[nodes[k].id] == Pending ==> !DepsSucceeded(nodes[k], status)
  {
    ReadyFilterMembers(nodes, status);
    forall k | 0 <= k < |nodes| && status[nodes[k].id] == Pending ensures !DepsSucceeded(nodes[k], status) {
      assert nodes[k] in nodes;
    }
  }

  /**
   * A round that does not end the run makes progress: it takes a node out
   * of PENDING, or it keeps the PENDING nodes and has fewer executions in
   * flight.
   */
  ghost predicate Progress(before: StatusMap, inFlightBefore: nat, after: StatusMap, inFlightAfter: nat)
  {
    || PendingIds(after) < PendingIds(before)
    || (PendingIds(after) == PendingIds(before) && inFlightAfter < inFlightBefore)
  }

  /**
   * A round whose batch all returned makes progress: when something was
   * ready, a node left PENDING for good; otherwise nothing changed PENDING
   * and the non-empty batch left the in-flight executions. Nor does it fail
   * any node.
   */
  lemma RoundProgress(m0: StatusMap, ready: seq<DAGNode>, m1: StatusMap, inFlight: seq<NodeId>,
                      launched: seq<NodeId>, batch: seq<NodeId>, remaining: nat)
    requires Unfailed(m1)
    requires ready != [] || inFlight != []
    requires ready == [] ==> launched == inFlight
    requires forall x :: x in IdSet(ready) ==> x in m0 && m0[x] == Pending
    requires PendingIds(m1) == PendingIds(m0) - IdSet(ready)
    requires forall x :: x in batch ==> x in m1 && m1[x] == Running
    requires |batch| > 0 <==> |launched| > 0
    requires remaining == |launched| - |batch|
    ensures Unfailed(SetAll(m1, batch, Success))
    ensures Progress(m0, |inFlight|, SetAll(m1, batch, Success), remaining)
  {
    SucceedAllAt(m1, batch);
    if ready != [] {
      assert ready[0].id in IdSet(ready);
      assert ready[0].id in PendingIds(m0) - PendingIds(m1);
    }
  }

  lemma PrefixTrans(a: seq<Event>, b: seq<Event>, c: seq<Event>)
    requires a <= b && b <= c
    ensures a <= c
  {
    assert c[..|b|][..|a|] == c[..|a|];
  }

  /** A batch with no raised outcome records no failure. */
  lemma {:induction false} NoRaiseNoRecords(env: Env, batch: seq<NodeId>)
    requires !AnyRaised(env, batch)
    ensures FailureRecords(env, batch) == []
  {
    if batch != [] {
      var init := batch[..|batch| - 1];
      assert forall x :: x in init ==> x in batch;
      assert batch[|batch| - 1] in batch;
      NoRaiseNoRecords(env, init);
    }
  }

  /**
   * How a run that ended SUCCESS leaves its statuses: nothing is ready,
   * nothing in flight and nothing FAILED or CANCELED.
   */
  ghost predicate SucceededRun(nodes: seq<DAGNode>, status: StatusMap)
  {
    && ReadyNodes(nodes, status) == Ok([])
    && forall n :: n in status ==> status[n] in {Pending, Success, Skipped}
  }

  /**
   * The ready step raised KeyError: the comprehension looked up an id (of a
   * graph node or of one of its dependencies) that the status map lacks, and
   * the scheduling loop recorded the error under its own name.
   */
  ghost predicate ReadyKeyError(nodes: seq<DAGNode>, status: StatusMap, before: seq<ContextException>, after: seq<ContextException>)
  {
    && ReadyNodes(nodes, status).Err?
    && after == before + [ContextException(LoopLocation, KeyErrorText(ReadyNodes(nodes, status).error))]
  }

  /**
   * A batch held a raised outcome: its failures were recorded in batch
   * order, every node of the batch ended as its outcome says (FAILED or
   * SUCCESS) and no node of the graph is left PENDING.
   */
  ghost predicate BatchFailure(nodes: seq<DAGNode>, env: Env, status: StatusMap, before: seq<ContextException>, after: seq<ContextException>)
  {
    exists batch :: && AnyRaised(env, batch)
                     && after == before + FailureRecords(env, batch)
                     && (forall j :: 0 <= j < |batch| ==> batch[j] in status && status[batch[j]] == Finished(env, batch[j]))
                     && forall k :: 0 <= k < |nodes| ==> nodes[k].id in status && status[nodes[k].id] != Pending
  }

  /** How a run that ended FAILED got there: a KeyError of the ready step, or a batch with a raised outcome. */
  ghost predicate FailedRun(nodes: seq<DAGNode>, env: Env, status: StatusMap, before: seq<ContextException>, after: seq<ContextException>)
  {
    ReadyKeyError(nodes, status, before, after) || BatchFailure(nodes, env, status, before, after)
  }

  /** The status a finished execution leaves its node in: FAILED when it raised, SUCCESS when it returned. */
  function Finished(env: Env, id: NodeId): NodeStatus
  {
    if env.outcome(id).Raised? then Failed else Success
  }

  /** The trace of a failure extends the one before it, and holds the FAILED change after it. */
  lemma FailureTraceSuffix(t0: seq<Event>, t: seq<Event>, err: Event, xs: seq<Event>, ys: seq<Event>, e: Event, w: Event)
    requires t == t0 + [err] + xs + ys + [e, w]
    ensures t0 <= t
    ensures e in t[|t0|..]
  {
    assert t[|t0|..] == [err] + xs + ys + [e, w];
    assert t[|t0|..][|t[|t0|..]| - 2] == e;
  }

  /**
   * Executions `batch[..n]` have finished: each node holds the status its
   * outcome gives it, and its change event was emitted after `t0`.
   */
  ghost predicate BatchFinished(runId: string, env: Env, batch: seq<NodeId>, n: int, m: StatusMap, t0: seq<Event>, t: seq<Event>)
  {
    && t0 <= t
    && (forall j :: 0 <= j < n && j < |batch| ==> batch[j] in m && m[batch[j]] == Finished(env, batch[j]))
    && (forall j :: 0 <= j < n && j < |batch| ==> NodeStatusChange(runId, batch[j], Running, Finished(env, batch[j]), Info) in t[|t0|..])
  }

  /**
   * One more execution of the batch finished: those before it keep their
   * final status (it is terminal) and their change events, and it adds its own.
   */
  lemma FinishedStep(runId: string, env: Env, batch: seq<NodeId>, i: nat, next: nat, m: StatusMap, m2: StatusMap,
                     t0: seq<Event>, t1: seq<Event>, t2: seq<Event>)
    requires i < |batch| && next == i + 1 && t1 <= t2 && m2.Keys == m.Keys
    requires BatchFinished(runId, env, batch, i, m, t0, t1)
    requires forall n :: n in m && m[n].IsTerminal() ==> m2[n] == m[n]
    requires batch[i] in m2 && m2[batch[i]] == Finished(env, batch[i])
    requires NodeStatusChange(runId, batch[i], Running, Finished(env, batch[i]), Info) in t2[|t1|..]
    ensures BatchFinished(runId, env, batch, next, m2, t0, t2)
  {
    LaterEvents(t0, t1, t2);
    var e := NodeStatusChange(runId, batch[i], Running, Finished(env, batch[i]), Info);
    var k :| 0 <= k < |t2[|t1|..]| && t2[|t1|..][k] == e;
    assert t2[|t0|..][|t1| - |t0| + k] == e;
  }

  /** A batch that raised, recorded and finished, leaving no graph node PENDING, is how a run fails. */
  lemma BatchFailedRun(nodes: seq<DAGNode>, env: Env, status: StatusMap, before: seq<ContextException>, after: seq<ContextException>,
                       batch: seq<NodeId>, runId: string, t0: seq<Event>, t: seq<Event>)
    requires forall k :: 0 <= k < |nodes| ==> nodes[k].id in status && status[nodes[k].id] != Pending
    requires AnyRaised(env, batch) && after == before + FailureRecords(env, batch)
    requires BatchFinished(runId, env, batch, |batch|, status, t0, t)
    ensures BatchFailure(nodes, env, status, before, after)
  {
  }

  /**
   * A run fails only for a cause: when every id the ready step looks up is
   * a key and no task raises, no way of ending FAILED applies.
   */
  lemma NoFailureWithoutCause(nodes: seq<DAGNode>, env: Env, m0: StatusMap, m: StatusMap,
                              before: seq<ContextException>, after: seq<ContextException>)
    requires forall k :: 0 <= k < |nodes| ==> Known(nodes[k], m0)
    requires m.Keys == m0.Keys
    requires forall id :: !env.outcome(id).Raised?
    ensures !FailedRun(nodes, env, m, before, after)
  {
    forall k | 0 <= k < |nodes|
      ensures Known(nodes[k], m)
    {
      assert Known(nodes[k], m0);
    }
    assert ReadyNodes(nodes, m).Ok?;
    assert forall batch :: !AnyRaised(env, batch);
  }

  /** Whatever was emitted after `t0` is still there, after `t0`, once the trace has grown further. */
  lemma LaterEvents(t0: seq<Event>, t1: seq<Event>, t2: seq<Event>)
    requires t0 <= t1 && t1 <= t2
    ensures t0 <= t2
    ensures forall e :: e in t1[|t0|..] ==> e in t2[|t0|..]
  {
    assert t2[..|t1|][..|t0|] == t2[..|t0|];
    assert t2[|t0|..][..|t1| - |t0|] == t1[|t0|..];
    forall e | e in t1[|t0|..] ensures e in t2[|t0|..] {
      var k :| 0 <= k < |t1[|t0|..]| && t1[|t0|..][k] == e;
      assert t2[|t0|..][k] == e;
    }
  }

  /**
   * The statuses `_handle_node_exception` leaves AS WRITTEN (see
   * AsWrittenCancelScan). When the cancel scan raises, only the execution it
   * cancelled has changed: the RuntimeError leaves the handler before the
   * sweep of PENDING nodes and before the failed node is marked FAILED.
   */
  function AsWrittenFailureStatuses(nodes: seq<DAGNode>, env: Env, batch: seq<NodeId>, inFlight: seq<NodeId>,
                                    failedId: NodeId, m: StatusMap): StatusMap
  {
    match AsWrittenCancelScan(env, batch, inFlight)
    case SizeChanged(c) => m[c := Canceled]
    case ScanFinished =>
      map n | n in m :: if n == failedId then Failed else if n in IdSet(nodes) && m[n] == Pending then Canceled else m[n]
  }

  /**
   * The failure record AS WRITTEN: at the node when the scan finishes; at
   * the scheduling loop, with the RuntimeError's text, when the scan raises
   * and the loop's `except` hands the error to `_handle_workflow_exception`.
   */
  function AsWrittenFailureRecord(env: Env, batch: seq<NodeId>, inFlight: seq<NodeId>, failedId: NodeId,
                                  message: string, runtimeError: string): ContextException
  {
    match AsWrittenCancelScan(env, batch, inFlight)
    case SizeChanged(_) => ContextException(LoopLocation, runtimeError)
    case ScanFinished => ContextException(failedId, message)
  }

  /**
   * The as-written handler agrees with the snapshot cascade exactly when
   * nothing can be cancelled. Otherwise the failed node stays RUNNING, every
   * PENDING node stays PENDING, and the failure is recorded at the
   * scheduling loop instead of at the node.
   */
  lemma AsWrittenFailureDiverges(nodes: seq<DAGNode>, env: Env, batch: seq<NodeId>, inFlight: seq<NodeId>,
                                 failedId: NodeId, m: StatusMap, message: string, runtimeError: string)
    requires failedId in inFlight && failedId in batch
    requires forall x :: x in inFlight ==> x in m && m[x] == Running
    ensures Cancelled(env, batch, inFlight) == [] ==>
      && AfterFailure(nodes, env, batch, inFlight, failedId, m, AsWrittenFailureStatuses(nodes, env, batch, inFlight, failedId, m))
      && AsWrittenFailureRecord(env, batch, inFlight, failedId, message, runtimeError) == ContextException(failedId, message)
    ensures Cancelled(env, batch, inFlight) != [] ==>
      && AsWrittenFailureStatuses(nodes, env, batch, inFlight, failedId, m)[failedId] == Running
      && (forall n :: n in m && m[n] == Pending ==> AsWrittenFailureStatuses(nodes, env, batch, inFlight, failedId, m)[n] == Pending)
      && AsWrittenFailureRecord(env, batch, inFlight, failedId, message, runtimeError).location == LoopLocation
      && !AfterFailure(nodes, env, batch, inFlight, failedId, m, AsWrittenFailureStatuses(nodes, env, batch, inFlight, failedId, m))
  {
    AsWrittenScanAborts(env, batch, inFlight);
    CancellationMembers(env, batch, inFlight);
    match AsWrittenCancelScan(env, batch, inFlight)
    case ScanFinished =>
    case SizeChanged(c) =>
      assert c in inFlight && c !in batch;
  }

  class DAGEngine {
    var nodeList: seq<DAGNode>
    var observers: seq<ObserverId>
    /** `workflow_queue`: submitted runs waiting for the dispatcher. */
    var queue: seq<SingleRunContext>
    var delivered: seq<Delivery>
    /** Every event emitted so far, in order. */
    ghost var trace: seq<Event>

    /** The thread pools, dispatcher and monitor the source starts here are not modelled. */
    constructor (printEvents: bool := true)
      ensures nodeList == [] && queue == [] && trace == [] && delivered == []
      ensures observers == if printEvents then [PrintObserver] else []
    {
      nodeList := [];
      queue := [];
      trace := [];
      delivered := [];
      observers := if printEvents then [PrintObserver] else [];
    }

    method AddObserver(o: ObserverId)
      modifies this`observers
      ensures observers == old(observers) + [o]
    {
      observers := observers + [o];
    }

    method AddNode(n: DAGNode)
      modifies this`nodeList
      ensures nodeList == old(nodeList) + [n]
    {
      nodeList := nodeList + [n];
    }

    /**
     * `submit_work`: a new context in which every registered node is PENDING,
     * put on the queue; its run id is returned. `runId` stands for the fresh
     * uuid the context draws.
     */
    method SubmitWork(inputData: string, runId: string) returns (id: string)
      modifies this`queue
      ensures |queue| == |old(queue)| + 1 && queue[..|old(queue)|] == old(queue)
      ensures fresh(queue[|old(queue)|])
      ensures id == runId == queue[|old(queue)|].runId
      ensures queue[|old(queue)|].inputData == inputData
      ensures queue[|old(queue)|].nodeStatus == AllPending(nodeList)
      ensures queue[|old(queue)|].results == map[]
      ensures queue[|old(queue)|].workflowStatus == WfPending
      ensures queue[|old(queue)|].exceptions == []
    {
      var context := new SingleRunContext(inputData, runId);
      context.nodeStatus := AllPending(nodeList);
      queue := queue + [context];
      id := context.runId;
    }

    /** `_notify_observers`: every registered observer receives the event, in registration order. */
    method NotifyObservers(e: Event)
      modifies this`trace, this`delivered
      ensures trace == old(trace) + [e]
      ensures delivered == old(delivered) + FanOut(observers, e)
    {
      var i := 0;
      while i < |observers|
        invariant 0 <= i <= |observers|
        invariant delivered == old(delivered) + FanOut(observers[..i], e)
        invariant trace == old(trace)
      {
        delivered := delivered + [Delivery(observers[i], e)];
        i := i + 1;
      }
      assert observers[..i] == observers;
      trace := trace + [e];
    }

    /** `_change_node_status`: update the status and emit one change event with the previous and new status. */
    method ChangeNodeStatus(ctx: SingleRunContext, id: NodeId, status: NodeStatus)
      requires id in ctx.nodeStatus
      modifies ctx`nodeStatus, this`trace, this`delivered
      ensures ctx.nodeStatus == old(ctx.nodeStatus)[id := status]
      ensures trace == old(trace) + [NodeStatusChange(ctx.runId, id, old(ctx.nodeStatus)[id], status, Info)]
      ensures delivered == old(delivered) + FanOut(observers, NodeStatusChange(ctx.runId, id, old(ctx.nodeStatus)[id], status, Info))
    {
      var formal := ctx.nodeStatus[id];
      ctx.nodeStatus := ctx.nodeStatus[id := status];
      NotifyObservers(NewNodeStatusChange(ctx.runId, id, formal, status));
    }

    /** `_change_workflow_status`: update the status and emit one change event with the previous and new status. */
    method ChangeWorkflowStatus(ctx: SingleRunContext, status: WorkflowStatus)
      modifies ctx`workflowStatus, this`trace, this`delivered
      ensures ctx.workflowStatus == status
      ensures trace == old(trace) + [WorkflowStatusChange(ctx.runId, old(ctx.workflowStatus), status)]
      ensures delivered == old(delivered) + FanOut(observers, WorkflowStatusChange(ctx.runId, old(ctx.workflowStatus), status))
    {
      var formal := ctx.workflowStatus;
      ctx.workflowStatus := status;
      NotifyObservers(NewWorkflowStatusChange(ctx.runId, formal, status));
    }

    /**
     * `_handle_workflow_exception`: report the error, fail the run, then
     * record the failure at the scheduling loop.
     */
    method HandleWorkflowException(ctx: SingleRunContext, message: string)
      modifies ctx`workflowStatus, ctx`exceptions, this`trace, this`delivered
      ensures ctx.workflowStatus == WfFailed
      ensures ctx.exceptions == old(ctx.exceptions) + [ContextException(LoopLocation, message)]
      ensures trace == old(trace) + [
        WorkflowError(ctx.runId, LoopLocation, message),
        WorkflowStatusChange(ctx.runId, old(ctx.workflowStatus), WfFailed)]
      ensures delivered == old(delivered) + FanOut(observers, WorkflowError(ctx.runId, LoopLocation, message))
                           + FanOut(observers, WorkflowStatusChange(ctx.runId, old(ctx.workflowStatus), WfFailed))
    {
      NotifyObservers(WorkflowError(ctx.runId, LoopLocation, message));
      ChangeWorkflowStatus(ctx, WfFailed);
      ctx.exceptions := ctx.exceptions + [ContextException(LoopLocation, message)];
    }

    /**
     * One cancellation of a sweep: `id`, not yet swept and still as it was
     * in `m0`, becomes CANCELED and its change follows the earlier ones.
     */
    method CancelOne(ctx: SingleRunContext, id: NodeId, ghost m0: StatusMap, ghost done: seq<NodeId>, ghost t0: seq<Event>)
      requires forall x :: x in done ==> x in m0
      requires id in m0
      requires ctx.nodeStatus == SetAll(m0, done, Canceled)
      requires id in ctx.nodeStatus && ctx.nodeStatus[id] == m0[id]
      requires trace == t0 + StatusEvents(ctx.runId, m0, done, Canceled)
      modifies ctx`nodeStatus, this`trace, this`delivered
      ensures ctx.nodeStatus == SetAll(m0, done + [id], Canceled)
      ensures trace == t0 + StatusEvents(ctx.runId, m0, done + [id], Canceled)
    {
      ChangeNodeStatus(ctx, id, Canceled);
      StatusEventsSnoc(ctx.runId, m0, done, id, Canceled, t0);
      SetAllSnoc(m0, done, id, Canceled);
    }

    /**
     * `_cancel_pending_tasks`, iterating over a snapshot of the in-flight
     * collection: every execution whose `cancel()` succeeds becomes CANCELED
     * and leaves the collection; executions already running stay as they are.
     * The source iterates over the live dict while popping from it; see
     * AsWrittenCancelScan for what that does instead.
     */
    method CancelPendingTasks(ctx: SingleRunContext, env: Env, batch: seq<NodeId>, inFlight: seq<NodeId>) returns (remaining: seq<NodeId>)
      requires Distinct(inFlight)
      requires forall x :: x in inFlight ==> x in ctx.nodeStatus
      modifies ctx`nodeStatus, this`trace, this`delivered
      ensures remaining == Survivors(env, batch, inFlight)
      ensures forall x :: x in Cancelled(env, batch, inFlight) ==> x in old(ctx.nodeStatus)
      ensures ctx.nodeStatus == SetAll(old(ctx.nodeStatus), Cancelled(env, batch, inFlight), Canceled)
      ensures trace == old(trace) + StatusEvents(ctx.runId, old(ctx.nodeStatus), Cancelled(env, batch, inFlight), Canceled)
    {
      // The executions that stay in flight are collected rather than popped
      // from a live collection.
      remaining := [];
      var i := 0;
      ghost var done: seq<NodeId> := [];
      assert inFlight[..0] == [];
      while i < |inFlight|
        invariant 0 <= i <= |inFlight|
        invariant done == Cancelled(env, batch, inFlight[..i])
        invariant remaining == Survivors(env, batch, inFlight[..i])
        invariant forall x :: x in done ==> x in inFlight
        invariant ctx.nodeStatus == SetAll(old(ctx.nodeStatus), done, Canceled)
        invariant trace == old(trace) + StatusEvents(ctx.runId, old(ctx.nodeStatus), done, Canceled)
      {
        var id := inFlight[i];
        CancelStep(env, batch, inFlight, i, old(ctx.nodeStatus));
        if CancelSucceeds(env, batch, id) {
          CancelOne(ctx, id, old(ctx.nodeStatus), done, old(trace));
          done := done + [id];
        } else {
          remaining := remaining + [id];
        }
        i := i + 1;
      }
      assert inFlight[..i] == inFlight;
    }

    /**
     * The sweep of `_handle_node_exception`: every node of the graph that is
     * still PENDING becomes CANCELED, in graph order.
     */
    method CancelPendingNodes(ctx: SingleRunContext)
      requires UniqueIds(nodeList)
      requires forall k :: 0 <= k < |nodeList| ==> nodeList[k].id in ctx.nodeStatus
      modifies ctx`nodeStatus, this`trace, this`delivered
      ensures ctx.nodeStatus == SetAll(old(ctx.nodeStatus), PendingOf(IdsOf(nodeList), old(ctx.nodeStatus)), Canceled)
      ensures trace == old(trace) + Transitions(ctx.runId, PendingOf(IdsOf(nodeList), old(ctx.nodeStatus)), Pending, Canceled)
    {
      ghost var ids := IdsOf(nodeList);
      IdsOfMembers(nodeList);
      var k := 0;
      ghost var swept: seq<NodeId> := [];
      assert ids[..0] == [];
      while k < |nodeList|
        invariant 0 <= k <= |nodeList|
        invariant swept == PendingOf(ids[..k], old(ctx.nodeStatus))
        invariant forall x :: x in swept ==> x in ids[..k]
        invariant ctx.nodeStatus == SetAll(old(ctx.nodeStatus), swept, Canceled)
        invariant trace == old(trace) + StatusEvents(ctx.runId, old(ctx.nodeStatus), swept, Canceled)
      {
        var id := nodeList[k].id;
        assert ids[..k + 1] == ids[..k] + [id];
        PendingOfSnoc(ids[..k], old(ctx.nodeStatus), id);
        assert id !in ids[..k];
        SetAllAt(old(ctx.nodeStatus), swept, Canceled, id);
        if ctx.nodeStatus[id] == Pending {
          CancelOne(ctx, id, old(ctx.nodeStatus), swept, old(trace));
          swept := swept + [id];
        }
        k := k + 1;
      }
      assert ids[..k] == ids;
      PendingOfMembers(ids, old(ctx.nodeStatus));
      StatusEventsUniform(ctx.runId, old(ctx.nodeStatus), swept, Pending, Canceled);
    }

    /**
     * The two cancellations of `_handle_node_exception`: first the in-flight
     * executions that have not started, then every node of the graph still
     * PENDING.
     */
    method CancelForFailure(ctx: SingleRunContext, env: Env, batch: seq<NodeId>, inFlight: seq<NodeId>, failedId: NodeId)
      returns (remaining: seq<NodeId>)
      requires UniqueIds(nodeList)
      requires forall k :: 0 <= k < |nodeList| ==> nodeList[k].id in ctx.nodeStatus
      requires Distinct(inFlight)
      requires forall x :: x in inFlight ==> x in ctx.nodeStatus && ctx.nodeStatus[x] == Running
      requires failedId in batch && failedId in inFlight
      modifies ctx`nodeStatus, this`trace, this`delivered
      ensures remaining == Survivors(env, batch, inFlight)
      ensures ctx.nodeStatus.Keys == old(ctx.nodeStatus).Keys && ctx.nodeStatus[failedId] == Running
      ensures AfterFailure(nodeList, env, batch, inFlight, failedId, old(ctx.nodeStatus), ctx.nodeStatus[failedId := Failed])
      ensures trace == old(trace)
        + Transitions(ctx.runId, Cancelled(env, batch, inFlight), Running, Canceled)
        + Transitions(ctx.runId, PendingOf(IdsOf(nodeList), old(ctx.nodeStatus)), Pending, Canceled)
    {
      ghost var m0 := ctx.nodeStatus;
      FailureSteps(ctx.runId, nodeList, env, batch, inFlight, failedId, m0);
      CancelEvents(ctx.runId, env, batch, inFlight, m0);
      remaining := CancelPendingTasks(ctx, env, batch, inFlight);
      CancelPendingNodes(ctx);
    }

    /**
     * `_handle_node_exception` for the execution of `failedId`, reported
     * failed with `message` in `batch`: report the node error, cancel what
     * can be cancelled, cancel every PENDING node, mark the node FAILED,
     * record the failure, drop the execution and fail the run.
     */
    method HandleNodeException(ctx: SingleRunContext, env: Env, batch: seq<NodeId>, inFlight: seq<NodeId>, failedId: NodeId, message: string)
      returns (remaining: seq<NodeId>)
      requires UniqueIds(nodeList)
      requires forall k :: 0 <= k < |nodeList| ==> nodeList[k].id in ctx.nodeStatus
      requires Distinct(inFlight)
      requires forall x :: x in inFlight ==> x in ctx.nodeStatus && ctx.nodeStatus[x] == Running
      requires failedId in batch && failedId in inFlight
      modifies ctx`nodeStatus, ctx`exceptions, ctx`workflowStatus, this`trace, this`delivered
      ensures AfterFailure(nodeList, env, batch, inFlight, failedId, old(ctx.nodeStatus), ctx.nodeStatus)
      ensures remaining == Remove(Survivors(env, batch, inFlight), failedId)
      ensures ctx.exceptions == old(ctx.exceptions) + [ContextException(failedId, message)]
      ensures ctx.workflowStatus == WfFailed
      ensures trace == old(trace) + [NodeError(failedId, message)]
        + Transitions(ctx.runId, Cancelled(env, batch, inFlight), Running, Canceled)
        + Transitions(ctx.runId, PendingOf(IdsOf(nodeList), old(ctx.nodeStatus)), Pending, Canceled)
        + [NodeStatusChange(ctx.runId, failedId, Running, Failed, Info),
           WorkflowStatusChange(ctx.runId, old(ctx.workflowStatus), WfFailed)]
    {
      ghost var wf0 := ctx.workflowStatus;
      NotifyObservers(NodeError(failedId, message));
      remaining := CancelForFailure(ctx, env, batch, inFlight, failedId);
      ghost var t2 := trace;
      ChangeNodeStatus(ctx, failedId, Failed);
      ctx.exceptions := ctx.exceptions + [ContextException(failedId, message)];
      remaining := Remove(remaining, failedId);
      ChangeWorkflowStatus(ctx, WfFailed);
      assert trace == t2 + [NodeStatusChange(ctx.runId, failedId, Running, Failed, Info), WorkflowStatusChange(ctx.runId, wf0, WfFailed)];
    }

    /**
     * The launch step of `_run_single_workflow`: each ready node, in order,
     * becomes SKIPPED when its condition fails, and is otherwise submitted
     * to the pool and becomes RUNNING.
     */
    method LaunchReady(ctx: SingleRunContext, ready: seq<DAGNode>, inFlight: seq<NodeId>) returns (launched: seq<NodeId>)
      requires UniqueIds(ready)
      requires forall j :: 0 <= j < |ready| ==> ready[j].id in ctx.nodeStatus
      modifies ctx`nodeStatus, this`trace, this`delivered
      ensures launched == inFlight + Launched(ready, ctx.results)
      ensures ctx.nodeStatus == Launch(old(ctx.nodeStatus), ready, ctx.results)
      ensures trace == old(trace) + LaunchEvents(ctx.runId, old(ctx.nodeStatus), ready, ctx.results)
    {
      launched := inFlight;
      var k := 0;
      assert ready[..0] == [];
      while k < |ready|
        invariant 0 <= k <= |ready|
        invariant launched == inFlight + Launched(ready[..k], ctx.results)
        invariant ctx.nodeStatus == Launch(old(ctx.nodeStatus), ready[..k], ctx.results)
        invariant trace == old(trace) + LaunchEvents(ctx.runId, old(ctx.nodeStatus), ready[..k], ctx.results)
      {
        var node, next := ready[k], k + 1;
        LaunchStepAfter(ctx.runId, old(ctx.nodeStatus), ready, k, ctx.results, old(trace), inFlight, next);
        if !ShouldExecute(node, ctx.results) {
          ChangeNodeStatus(ctx, node.id, Skipped);
        } else {
          launched := launched + [node.id];
          ChangeNodeStatus(ctx, node.id, Running);
        }
        k := next;
      }
      assert ready[..k] == ready;
    }

    /**
     * One finished execution of the batch step: a raised outcome runs the
     * failure handler; a returned one records the result, makes the node
     * SUCCESS and drops the execution. Either way the node ends as its
     * outcome says, with its change event, and no terminal status changes.
     */
    method ProcessOne(ctx: SingleRunContext, env: Env, batch: seq<NodeId>, i: nat, inFlight: seq<NodeId>)
      returns (remaining: seq<NodeId>, raised: bool)
      requires RunConsistent(nodeList, env, ctx.nodeStatus, ctx.results, inFlight)
      requires forall k :: 0 <= k < |nodeList| ==> nodeList[k].id in ctx.nodeStatus
      requires Distinct(batch) && i < |batch|
      requires forall j :: i <= j < |batch| ==> batch[j] in inFlight
      modifies ctx`nodeStatus, ctx`results, ctx`exceptions, ctx`workflowStatus, this`trace, this`delivered
      ensures old(trace) <= trace
      ensures RunConsistent(nodeList, env, ctx.nodeStatus, ctx.results, remaining)
      ensures ctx.nodeStatus.Keys == old(ctx.nodeStatus).Keys
      ensures forall j :: i < j < |batch| ==> batch[j] in remaining
      ensures raised == env.outcome(batch[i]).Raised?
      ensures ctx.exceptions == old(ctx.exceptions) + FailureRecord(env, batch[i])
      ensures batch[i] in ctx.nodeStatus && ctx.nodeStatus[batch[i]] == Finished(env, batch[i])
      ensures forall n :: n in old(ctx.nodeStatus) && old(ctx.nodeStatus)[n].IsTerminal() ==> ctx.nodeStatus[n] == old(ctx.nodeStatus)[n]
      ensures NodeStatusChange(ctx.runId, batch[i], Running, Finished(env, batch[i]), Info) in trace[|old(trace)|..]
      ensures raised ==> ctx.workflowStatus == WfFailed
      ensures raised ==> forall k :: 0 <= k < |nodeList| ==> nodeList[k].id in ctx.nodeStatus && ctx.nodeStatus[nodeList[k].id] != Pending
      ensures raised ==> AfterFailure(nodeList, env, batch, inFlight, batch[i], old(ctx.nodeStatus), ctx.nodeStatus)
      ensures raised ==> (trace == old(trace) + [NodeError(batch[i], env.outcome(batch[i]).message)]
                            + Transitions(ctx.runId, Cancelled(env, batch, inFlight), Running, Canceled)
                            + Transitions(ctx.runId, PendingOf(IdsOf(nodeList), old(ctx.nodeStatus)), Pending, Canceled)
                            + [NodeStatusChange(ctx.runId, batch[i], Running, Failed, Info),
                               WorkflowStatusChange(ctx.runId, old(ctx.workflowStatus), WfFailed)])
      ensures !raised ==> ctx.workflowStatus == old(ctx.workflowStatus)
      ensures !raised ==> old(ctx.nodeStatus)[batch[i]] == Running
      ensures !raised ==> ctx.nodeStatus == old(ctx.nodeStatus)[batch[i] := Success]
      ensures raised ==> remaining == Remove(Survivors(env, batch, inFlight), batch[i])
      ensures !raised ==> remaining == Remove(inFlight, batch[i]) && |remaining| == |inFlight| - 1
      ensures !raised ==> trace == old(trace) + [NodeStatusChange(ctx.runId, batch[i], Running, Success, Info)]
    {
      match env.outcome(batch[i])
      case Raised(msg) =>
        remaining := FailOne(ctx, env, batch, i, inFlight, msg);
        raised := true;
      case Returned(v) =>
        remaining := SucceedOne(ctx, env, batch, i, inFlight, v);
        raised := false;
    }

    /**
     * A raised outcome of the batch step: the failure handler runs, the node
     * ends FAILED, no terminal status changes and the run stays consistent.
     */
    method FailOne(ctx: SingleRunContext, env: Env, batch: seq<NodeId>, i: nat, inFlight: seq<NodeId>, msg: string)
      returns (remaining: seq<NodeId>)
      requires RunConsistent(nodeList, env, ctx.nodeStatus, ctx.results, inFlight)
      requires forall k :: 0 <= k < |nodeList| ==> nodeList[k].id in ctx.nodeStatus
      requires Distinct(batch) && i < |batch|
      requires forall j :: i <= j < |batch| ==> batch[j] in inFlight
      requires env.outcome(batch[i]) == Raised(msg)
      modifies ctx`nodeStatus, ctx`exceptions, ctx`workflowStatus, this`trace, this`delivered
      ensures RunConsistent(nodeList, env, ctx.nodeStatus, ctx.results, remaining)
      ensures AfterFailure(nodeList, env, batch, inFlight, batch[i], old(ctx.nodeStatus), ctx.nodeStatus)
      ensures remaining == Remove(Survivors(env, batch, inFlight), batch[i])
      ensures batch[i] in ctx.nodeStatus && ctx.nodeStatus[batch[i]] == Failed
      ensures forall n :: n in old(ctx.nodeStatus) && old(ctx.nodeStatus)[n].IsTerminal() ==> ctx.nodeStatus[n] == old(ctx.nodeStatus)[n]
      ensures forall j :: i < j < |batch| ==> batch[j] in remaining
      ensures ctx.exceptions == old(ctx.exceptions) + [ContextException(batch[i], msg)]
      ensures ctx.workflowStatus == WfFailed
      ensures forall k :: 0 <= k < |nodeList| ==> nodeList[k].id in ctx.nodeStatus && ctx.nodeStatus[nodeList[k].id] != Pending
      ensures old(trace) <= trace
      ensures NodeStatusChange(ctx.runId, batch[i], Running, Failed, Info) in trace[|old(trace)|..]
      ensures trace == old(trace) + [NodeError(batch[i], msg)]
        + Transitions(ctx.runId, Cancelled(env, batch, inFlight), Running, Canceled)
        + Transitions(ctx.runId, PendingOf(IdsOf(nodeList), old(ctx.nodeStatus)), Pending, Canceled)
        + [NodeStatusChange(ctx.runId, batch[i], Running, Failed, Info),
           WorkflowStatusChange(ctx.runId, old(ctx.workflowStatus), WfFailed)]
    {
      ghost var m, t0, wf := ctx.nodeStatus, trace, ctx.workflowStatus;
      remaining := HandleNodeException(ctx, env, batch, inFlight, batch[i], msg);
      FailureStep(nodeList, env, m, ctx.nodeStatus, ctx.results, inFlight, batch, i);
      FailureTraceSuffix(t0, trace, NodeError(batch[i], msg),
        Transitions(ctx.runId, Cancelled(env, batch, inFlight), Running, Canceled),
        Transitions(ctx.runId, PendingOf(IdsOf(nodeList), m), Pending, Canceled),
        NodeStatusChange(ctx.runId, batch[i], Running, Failed, Info),
        WorkflowStatusChange(ctx.runId, wf, WfFailed));
    }

    /** A returned outcome of the batch step: the value is recorded and the node becomes SUCCESS. */
    method SucceedOne(ctx: SingleRunContext, env: Env, batch: seq<NodeId>, i: nat, inFlight: seq<NodeId>, v: Value)
      returns (remaining: seq<NodeId>)
      requires RunConsistent(nodeList, env, ctx.nodeStatus, ctx.results, inFlight)
      requires Distinct(batch) && i < |batch|
      requires forall j :: i <= j < |batch| ==> batch[j] in inFlight
      requires env.outcome(batch[i]) == Returned(v)
      modifies ctx`nodeStatus, ctx`results, this`trace, this`delivered
      ensures RunConsistent(nodeList, env, ctx.nodeStatus, ctx.results, remaining)
      ensures forall j :: i < j < |batch| ==> batch[j] in remaining
      ensures old(ctx.nodeStatus)[batch[i]] == Running
      ensures ctx.nodeStatus == old(ctx.nodeStatus)[batch[i] := Success]
      ensures ctx.results == old(ctx.results)[batch[i] := v]
      ensures remaining == Remove(inFlight, batch[i]) && |remaining| == |inFlight| - 1
      ensures batch[i] in ctx.nodeStatus && ctx.nodeStatus[batch[i]] == Success
      ensures forall n :: n in old(ctx.nodeStatus) && old(ctx.nodeStatus)[n].IsTerminal() ==> ctx.nodeStatus[n] == old(ctx.nodeStatus)[n]
      ensures old(trace) <= trace
      ensures NodeStatusChange(ctx.runId, batch[i], Running, Success, Info) in trace[|old(trace)|..]
      ensures trace == old(trace) + [NodeStatusChange(ctx.runId, batch[i], Running, Success, Info)]
    {
      SuccessStep(nodeList, env, ctx.nodeStatus, ctx.results, inFlight, batch, i, v);
      ctx.results := ctx.results[batch[i] := v];
      ChangeNodeStatus(ctx, batch[i], Success);
      remaining := Remove(inFlight, batch[i]);
    }

    /**
     * The batch step of `_run_single_workflow`: every execution the wait
     * reported finished is handled in turn (ProcessOne); a failure does not
     * stop the rest of the batch.
     */
    method ProcessBatch(ctx: SingleRunContext, env: Env, batch: seq<NodeId>, inFlight: seq<NodeId>)
      returns (remaining: seq<NodeId>, failed: bool)
      requires RunConsistent(nodeList, env, ctx.nodeStatus, ctx.results, inFlight)
      requires forall k :: 0 <= k < |nodeList| ==> nodeList[k].id in ctx.nodeStatus
      requires Distinct(batch)
      requires forall x :: x in batch ==> x in inFlight
      modifies ctx`nodeStatus, ctx`results, ctx`exceptions, ctx`workflowStatus, this`trace, this`delivered
      ensures old(trace) <= trace
      ensures RunConsistent(nodeList, env, ctx.nodeStatus, ctx.results, remaining)
      ensures ctx.nodeStatus.Keys == old(ctx.nodeStatus).Keys
      ensures failed <==> AnyRaised(env, batch)
      ensures ctx.exceptions == old(ctx.exceptions) + FailureRecords(env, batch)
      ensures failed ==> ctx.workflowStatus == WfFailed
      ensures failed ==> forall k :: 0 <= k < |nodeList| ==> nodeList[k].id in ctx.nodeStatus && ctx.nodeStatus[nodeList[k].id] != Pending
      ensures !failed ==> ctx.workflowStatus == old(ctx.workflowStatus)
      ensures !failed ==> ctx.nodeStatus == SetAll(old(ctx.nodeStatus), batch, Success)
      ensures !failed ==> |remaining| == |inFlight| - |batch|
      ensures !failed ==> trace == old(trace) + Transitions(ctx.runId, batch, Running, Success)
      ensures BatchFinished(ctx.runId, env, batch, |batch|, ctx.nodeStatus, old(trace), trace)
    {
      var i;
      remaining, i, failed := ProcessUntilFailure(ctx, env, batch, inFlight);
      RaisedPrefix(env, batch, i, failed);
      if failed {
        remaining := FinishBatch(ctx, env, batch, i, remaining, old(trace));
        FailureRecordsAppend(env, batch, i, old(ctx.exceptions));
      } else {
        SucceedAllAt(old(ctx.nodeStatus), batch);
      }
    }

    /**
     * The batch step up to and including its first raised outcome: `i` is
     * how many executions were handled, all of them returned but possibly
     * the last.
     */
    method ProcessUntilFailure(ctx: SingleRunContext, env: Env, batch: seq<NodeId>, inFlight: seq<NodeId>)
      returns (remaining: seq<NodeId>, i: nat, failed: bool)
      requires RunConsistent(nodeList, env, ctx.nodeStatus, ctx.results, inFlight)
      requires forall k :: 0 <= k < |nodeList| ==> nodeList[k].id in ctx.nodeStatus
      requires Distinct(batch)
      requires forall x :: x in batch ==> x in inFlight
      modifies ctx`nodeStatus, ctx`results, ctx`exceptions, ctx`workflowStatus, this`trace, this`delivered
      ensures old(trace) <= trace
      ensures RunConsistent(nodeList, env, ctx.nodeStatus, ctx.results, remaining)
      ensures ctx.nodeStatus.Keys == old(ctx.nodeStatus).Keys
      ensures i <= |batch| && (!failed ==> i == |batch|)
      ensures forall j :: i <= j < |batch| ==> batch[j] in remaining
      ensures failed == AnyRaised(env, batch[..i])
      ensures ctx.exceptions == old(ctx.exceptions) + FailureRecords(env, batch[..i])
      ensures failed ==> ctx.workflowStatus == WfFailed
      ensures failed ==> forall k :: 0 <= k < |nodeList| ==> nodeList[k].id in ctx.nodeStatus && ctx.nodeStatus[nodeList[k].id] != Pending
      ensures !failed ==> ctx.workflowStatus == old(ctx.workflowStatus)
      ensures !failed ==> ctx.nodeStatus == SetAll(old(ctx.nodeStatus), batch, Success)
      ensures !failed ==> |remaining| == |inFlight| - |batch|
      ensures !failed ==> trace == old(trace) + Transitions(ctx.runId, batch, Running, Success)
      ensures BatchFinished(ctx.runId, env, batch, i, ctx.nodeStatus, old(trace), trace)
    {
      remaining := inFlight;
      failed := false;
      i := 0;
      assert batch[..0] == [];
      while i < |batch|
        invariant 0 <= i <= |batch|
        invariant RunConsistent(nodeList, env, ctx.nodeStatus, ctx.results, remaining)
        invariant ctx.nodeStatus.Keys == old(ctx.nodeStatus).Keys
        invariant forall j :: i <= j < |batch| ==> batch[j] in remaining
        invariant !AnyRaised(env, batch[..i])
        invariant ctx.exceptions == old(ctx.exceptions) + FailureRecords(env, batch[..i])
        invariant ctx.workflowStatus == old(ctx.workflowStatus)
        invariant ctx.nodeStatus == SetAll(old(ctx.nodeStatus), batch[..i], Success)
        invariant |remaining| == |inFlight| - i
        invariant trace == old(trace) + Transitions(ctx.runId, batch[..i], Running, Success)
        invariant BatchFinished(ctx.runId, env, batch, i, ctx.nodeStatus, old(trace), trace)
      {
        BatchStep(env, batch, i, old(ctx.exceptions));
        var raised;
        ghost var ex, t1 := ctx.exceptions, trace;
        ghost var m := ctx.nodeStatus;
        remaining, raised := ProcessOne(ctx, env, batch, i, remaining);
        assert ctx.exceptions == ex + FailureRecord(env, batch[i]);
        FinishedStep(ctx.runId, env, batch, i, i + 1, m, ctx.nodeStatus, old(trace), t1, trace);
        if raised {
          failed := true;
          i := i + 1;
          return;
        }
        SetAllSnoc(old(ctx.nodeStatus), batch[..i], batch[i], Success);
        TransitionsStep(ctx.runId, batch, i, old(trace), Running, Success);
        i := i + 1;
      }
      assert batch[..i] == batch;
    }

    /**
     * What the rest of a failed batch step keeps after handling `batch[..i]`:
     * the run is consistent, the executions from `i` on are still in flight,
     * the workflow is FAILED, no graph node is PENDING, and `batch[..i]`
     * have finished.
     */
    ghost predicate FailedBatchSoFar(ctx: SingleRunContext, env: Env, batch: seq<NodeId>, i0: int, i: int,
                                     inFlight: seq<NodeId>, t0: seq<Event>)
      reads this, ctx
    {
      && 0 <= i0 <= i <= |batch|
      && RunConsistent(nodeList, env, ctx.nodeStatus, ctx.results, inFlight)
      && (forall j :: i <= j < |batch| ==> batch[j] in inFlight)
      && ctx.workflowStatus == WfFailed
      && (forall k :: 0 <= k < |nodeList| ==> nodeList[k].id in ctx.nodeStatus && ctx.nodeStatus[nodeList[k].id] != Pending)
      && BatchFinished(ctx.runId, env, batch, i, ctx.nodeStatus, t0, trace)
    }

    /**
     * The rest of the batch step once an execution of `batch[..i0]` raised:
     * the workflow stays FAILED, no graph node is PENDING again, and every
     * node of the batch ends as its outcome says, with its change event.
     */
    method FinishBatch(ctx: SingleRunContext, env: Env, batch: seq<NodeId>, i0: nat, inFlight: seq<NodeId>, ghost t0: seq<Event>)
      returns (remaining: seq<NodeId>)
      requires Distinct(batch)
      requires FailedBatchSoFar(ctx, env, batch, i0, i0, inFlight, t0)
      modifies ctx`nodeStatus, ctx`results, ctx`exceptions, ctx`workflowStatus, this`trace, this`delivered
      ensures ctx.nodeStatus.Keys == old(ctx.nodeStatus).Keys
      ensures ctx.exceptions == old(ctx.exceptions) + FailureRecords(env, batch[i0..])
      ensures FailedBatchSoFar(ctx, env, batch, i0, |batch|, remaining, t0)
    {
      remaining := inFlight;
      var i := i0;
      ghost var e0 := ctx.exceptions;
      assert batch[i0..i0] == [];
      while i < |batch|
        invariant i0 <= i <= |batch|
        invariant ctx.nodeStatus.Keys == old(ctx.nodeStatus).Keys
        invariant FailedBatchSoFar(ctx, env, batch, i0, i, remaining, t0)
        invariant ctx.exceptions == e0 + FailureRecords(env, batch[i0..i])
      {
        remaining, i := FinishOne(ctx, env, batch, i0, i, remaining, t0, e0);
      }
      assert batch[i0..i] == batch[i0..];
    }

    /**
     * One execution of the rest of a failed batch step: whatever its outcome,
     * the workflow stays FAILED, no graph node is PENDING again, and the
     * executions handled before it keep their final statuses.
     */
    method FinishOne(ctx: SingleRunContext, env: Env, batch: seq<NodeId>, i0: nat, i: nat, inFlight: seq<NodeId>,
                     ghost t0: seq<Event>, ghost e0: seq<ContextException>)
      returns (remaining: seq<NodeId>, next: nat)
      requires Distinct(batch) && i < |batch|
      requires FailedBatchSoFar(ctx, env, batch, i0, i, inFlight, t0)
      requires ctx.exceptions == e0 + FailureRecords(env, batch[i0..i])
      modifies ctx`nodeStatus, ctx`results, ctx`exceptions, ctx`workflowStatus, this`trace, this`delivered
      ensures next == i + 1
      ensures old(trace) <= trace
      ensures ctx.nodeStatus.Keys == old(ctx.nodeStatus).Keys
      ensures FailedBatchSoFar(ctx, env, batch, i0, next, remaining, t0)
      ensures ctx.exceptions == e0 + FailureRecords(env, batch[i0..next])
    {
      next := i + 1;
      TailStep(env, batch, i0, i, next, e0);
      var raised;
      remaining, raised := ProcessOne(ctx, env, batch, i, inFlight);
      FinishedStep(ctx.runId, env, batch, i, next, old(ctx.nodeStatus), ctx.nodeStatus, t0, old(trace), trace);
    }

    /**
     * A round of `_run_single_workflow` that has something to do: launch
     * the ready nodes, wait for a batch, handle it. Without a failure the
     * round either removes a node from PENDING or shrinks what is in flight.
     */
    method LaunchAndProcess(ctx: SingleRunContext, env: Env, round: nat, ready: seq<DAGNode>, inFlight: seq<NodeId>)
      returns (remaining: seq<NodeId>, failed: bool)
      requires UniqueIds(nodeList)
      requires RunConsistent(nodeList, env, ctx.nodeStatus, ctx.results, inFlight)
      requires Unfailed(ctx.nodeStatus) && ctx.workflowStatus == WfRunning
      requires ReadyNodes(nodeList, ctx.nodeStatus) == Ok(ready)
      requires ready != [] || inFlight != []
      modifies ctx`nodeStatus, ctx`results, ctx`exceptions, ctx`workflowStatus, this`trace, this`delivered
      ensures old(trace) <= trace
      ensures RunConsistent(nodeList, env, ctx.nodeStatus, ctx.results, remaining)
      ensures ctx.nodeStatus.Keys == old(ctx.nodeStatus).Keys
      ensures failed ==> ctx.workflowStatus == WfFailed
      ensures failed ==> BatchFailure(nodeList, env, ctx.nodeStatus, old(ctx.exceptions), ctx.exceptions)
      ensures !failed ==> Unfailed(ctx.nodeStatus) && ctx.workflowStatus == WfRunning && ctx.exceptions == old(ctx.exceptions)
      ensures !failed ==> Progress(old(ctx.nodeStatus), |inFlight|, ctx.nodeStatus, |remaining|)
    {
      ghost var t1 := trace;
      var launched := LaunchStage(ctx, env, ready, inFlight);
      remaining, failed := ProcessLaunched(ctx, env, round, launched, old(ctx.nodeStatus), ready, inFlight);
      PrefixTrans(t1, old(trace), trace);
    }

    /**
     * The second half of a round, after the launch step: wait for a batch
     * of the executions in flight and handle it. `m0`, `ready` and
     * `inFlight` are the statuses, ready nodes and in-flight list the round
     * started from.
     */
    method ProcessLaunched(ctx: SingleRunContext, env: Env, round: nat, launched: seq<NodeId>,
                           ghost m0: StatusMap, ghost ready: seq<DAGNode>, ghost inFlight: seq<NodeId>)
      returns (remaining: seq<NodeId>, failed: bool)
      requires RunConsistent(nodeList, env, ctx.nodeStatus, ctx.results, launched)
      requires Unfailed(ctx.nodeStatus) && ctx.workflowStatus == WfRunning
      requires forall k :: 0 <= k < |nodeList| ==> nodeList[k].id in ctx.nodeStatus
      requires ready != [] || inFlight != []
      requires ready == [] ==> launched == inFlight
      requires forall x :: x in IdSet(ready) ==> x in m0 && m0[x] == Pending
      requires PendingIds(ctx.nodeStatus) == PendingIds(m0) - IdSet(ready)
      modifies ctx`nodeStatus, ctx`results, ctx`exceptions, ctx`workflowStatus, this`trace, this`delivered
      ensures old(trace) <= trace
      ensures RunConsistent(nodeList, env, ctx.nodeStatus, ctx.results, remaining)
      ensures ctx.nodeStatus.Keys == old(ctx.nodeStatus).Keys
      ensures failed ==> ctx.workflowStatus == WfFailed
      ensures failed ==> BatchFailure(nodeList, env, ctx.nodeStatus, old(ctx.exceptions), ctx.exceptions)
      ensures !failed ==> Unfailed(ctx.nodeStatus) && ctx.workflowStatus == WfRunning && ctx.exceptions == old(ctx.exceptions)
      ensures !failed ==> Progress(m0, |inFlight|, ctx.nodeStatus, |remaining|)
    {
      var batch := Completed(env, round, launched);
      remaining, failed := ProcessBatch(ctx, env, batch, launched);
      if failed {
        BatchFailedRun(nodeList, env, ctx.nodeStatus, old(ctx.exceptions), ctx.exceptions, batch, ctx.runId, old(trace), trace);
        return;
      }
      NoRaiseNoRecords(env, batch);
      RoundProgress(m0, ready, old(ctx.nodeStatus), inFlight, launched, batch, |remaining|);
    }

    /**
     * The launch step of a round (LaunchReady) together with what it keeps:
     * the run stays consistent with the new in-flight list, and the ready
     * nodes, all of them PENDING before, are PENDING no more.
     */
    method LaunchStage(ctx: SingleRunContext, env: Env, ready: seq<DAGNode>, inFlight: seq<NodeId>)
      returns (launched: seq<NodeId>)
      requires UniqueIds(nodeList)
      requires RunConsistent(nodeList, env, ctx.nodeStatus, ctx.results, inFlight)
      requires Unfailed(ctx.nodeStatus)
      requires ReadyNodes(nodeList, ctx.nodeStatus) == Ok(ready)
      modifies ctx`nodeStatus, this`trace, this`delivered
      ensures old(trace) <= trace
      ensures RunConsistent(nodeList, env, ctx.nodeStatus, ctx.results, launched)
      ensures ctx.nodeStatus.Keys == old(ctx.nodeStatus).Keys
      ensures Unfailed(ctx.nodeStatus)
      ensures forall k :: 0 <= k < |nodeList| ==> nodeList[k].id in ctx.nodeStatus
      ensures forall x :: x in IdSet(ready) ==> x in old(ctx.nodeStatus) && old(ctx.nodeStatus)[x] == Pending
      ensures PendingIds(ctx.nodeStatus) == PendingIds(old(ctx.nodeStatus)) - IdSet(ready)
      ensures ready == [] ==> launched == inFlight
    {
      ghost var m0 := ctx.nodeStatus;
      ReadyFilterUnique(nodeList, m0);
      LaunchConsistent(nodeList, env, m0, ctx.results, inFlight);
      LaunchUnfailed(nodeList, m0, ctx.results);
      LaunchChanges(nodeList, m0, ctx.results);
      launched := LaunchReady(ctx, ready, inFlight);
    }

    /**
     * One round of the loop of `_run_single_workflow`: the ready step, then
     * SUCCESS when nothing is ready and nothing in flight, otherwise launch
     * and process a batch (LaunchAndProcess). A KeyError of the ready step
     * goes to `_handle_workflow_exception`.
     */
    method RunRound(ctx: SingleRunContext, env: Env, round: nat, inFlight: seq<NodeId>)
      returns (remaining: seq<NodeId>, stop: bool)
      requires UniqueIds(nodeList)
      requires RunConsistent(nodeList, env, ctx.nodeStatus, ctx.results, inFlight)
      requires Unfailed(ctx.nodeStatus) && ctx.workflowStatus == WfRunning
      modifies ctx`nodeStatus, ctx`results, ctx`exceptions, ctx`workflowStatus, this`trace, this`delivered
      ensures old(trace) <= trace
      ensures RecordConsistent(nodeList, env, ctx.nodeStatus, ctx.results)
      ensures ctx.nodeStatus.Keys == old(ctx.nodeStatus).Keys
      ensures stop ==> ctx.workflowStatus.IsTerminal()
      ensures ReadyNodes(nodeList, old(ctx.nodeStatus)).Err? ==>
        && stop && ctx.workflowStatus == WfFailed && ctx.nodeStatus == old(ctx.nodeStatus)
        && ctx.exceptions == old(ctx.exceptions) + [ContextException(LoopLocation, KeyErrorText(ReadyNodes(nodeList, old(ctx.nodeStatus)).error))]
      ensures ReadyNodes(nodeList, old(ctx.nodeStatus)).Ok? && stop && ctx.workflowStatus == WfFailed ==>
        BatchFailure(nodeList, env, ctx.nodeStatus, old(ctx.exceptions), ctx.exceptions)
      ensures ReadyNodes(nodeList, old(ctx.nodeStatus)) == Ok([]) && inFlight == [] ==> stop && ctx.workflowStatus == WfSuccess
      ensures stop && ctx.workflowStatus == WfSuccess ==> inFlight == [] && ReadyNodes(nodeList, old(ctx.nodeStatus)) == Ok([])
      ensures stop && ctx.workflowStatus == WfSuccess ==>
        && ctx.exceptions == old(ctx.exceptions)
        && SucceededRun(nodeList, ctx.nodeStatus)
        && trace == old(trace) + [WorkflowStatusChange(ctx.runId, WfRunning, WfSuccess)]
      ensures stop && ctx.workflowStatus == WfFailed ==> FailedRun(nodeList, env, ctx.nodeStatus, old(ctx.exceptions), ctx.exceptions)
      ensures !stop ==> RunConsistent(nodeList, env, ctx.nodeStatus, ctx.results, remaining)
      ensures !stop ==> Unfailed(ctx.nodeStatus) && ctx.workflowStatus == WfRunning && ctx.exceptions == old(ctx.exceptions)
      ensures !stop ==> Progress(old(ctx.nodeStatus), |inFlight|, ctx.nodeStatus, |remaining|)
    {
      match ReadyNodes(nodeList, ctx.nodeStatus)
      case Err(k) =>
        HandleWorkflowException(ctx, KeyErrorText(k));
        remaining, stop := inFlight, true;
      case Ok(ready) =>
        if ready == [] && inFlight == [] {
          ChangeWorkflowStatus(ctx, WfSuccess);
          remaining, stop := inFlight, true;
        } else {
          remaining, stop := LaunchAndProcess(ctx, env, round, ready, inFlight);
        }
    }

    /**
     * `_run_single_workflow`: mark the run RUNNING, then repeat rounds
     * (RunRound) until one ends the run. `env` stands for the task bodies
     * and the thread pool; `round` numbers the waits.
     */
    method RunSingleWorkflow(ctx: SingleRunContext, env: Env)
      requires UniqueIds(nodeList)
      requires forall n :: n in ctx.nodeStatus ==> ctx.nodeStatus[n] == Pending
      requires ctx.results == map[]
      modifies ctx`nodeStatus, ctx`results, ctx`exceptions, ctx`workflowStatus, this`trace, this`delivered
      ensures ctx.workflowStatus.IsTerminal()
      ensures RecordConsistent(nodeList, env, ctx.nodeStatus, ctx.results)
      ensures old(trace) + [WorkflowStatusChange(ctx.runId, old(ctx.workflowStatus), WfRunning)] <= trace
      ensures ctx.workflowStatus == WfSuccess ==>
        && ctx.exceptions == old(ctx.exceptions)
        && SucceededRun(nodeList, ctx.nodeStatus)
        && trace[|trace| - 1] == WorkflowStatusChange(ctx.runId, WfRunning, WfSuccess)
      ensures ctx.workflowStatus == WfFailed ==> FailedRun(nodeList, env, ctx.nodeStatus, old(ctx.exceptions), ctx.exceptions)
      ensures (forall k :: 0 <= k < |nodeList| ==> Known(nodeList[k], old(ctx.nodeStatus))) && (forall id :: !env.outcome(id).Raised?) ==>
        ctx.workflowStatus == WfSuccess
    {
      ChangeWorkflowStatus(ctx, WfRunning);
      ghost var start := trace;
      FreshRunConsistent(nodeList, env, ctx.nodeStatus);
      var inFlight: seq<NodeId> := [];
      var round: nat := 0;
      while true
        invariant RunConsistent(nodeList, env, ctx.nodeStatus, ctx.results, inFlight)
        invariant Unfailed(ctx.nodeStatus) && ctx.workflowStatus == WfRunning
        invariant ctx.exceptions == old(ctx.exceptions)
        invariant ctx.nodeStatus.Keys == old(ctx.nodeStatus).Keys
        invariant start <= trace
        decreases PendingIds(ctx.nodeStatus), |inFlight|
      {
        ghost var t := trace;
        var stop;
        inFlight, stop := RunRound(ctx, env, round, inFlight);
        PrefixTrans(start, t, trace);
        if stop {
          if (forall k :: 0 <= k < |nodeList| ==> Known(nodeList[k], old(ctx.nodeStatus))) && (forall id :: !env.outcome(id).Raised?) {
            NoFailureWithoutCause(nodeList, env, old(ctx.nodeStatus), ctx.nodeStatus, old(ctx.exceptions), ctx.exceptions);
          }
          return;
        }
        round := round + 1;
      }
    }
  }
}
