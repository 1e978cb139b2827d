/**
 * The events the engine hands to observers (dag_workflow/datamodel/events.py):
 * a closed set of variants, each with its severity and its `to_dict`
 * projection, modelled as an ordered list of key/value pairs.
 */
module Events {
  import opened Wrappers
  import opened CoreModels

  datatype EventLevel = Debug | Info | Warning | Error | Critical
  {
    function Value(): (v: nat)
      ensures v < 5
    {
      match this
      case Debug => 0
      case Info => 1
      case Warning => 2
      case Error => 3
      case Critical => 4
    }

    function Name(): string
    {
      match this
      case Debug => "DEBUG"
      case Info => "INFO"
      case Warning => "WARNING"
      case Error => "ERROR"
      case Critical => "CRITICAL"
    }
  }

  /** `EventLevel(v)`: the member with value `v`, if any. */
  function EventLevelOf(v: int): (r: Option<EventLevel>)
    ensures r.Some? <==> 0 <= v < 5
    ensures r.Some? ==> r.value.Value() == v
  {
    match v
    case 0 => Some(Debug)
    case 1 => Some(Info)
    case 2 => Some(Warning)
    case 3 => Some(Error)
    case 4 => Some(Critical)
    case _ => None
  }

  /** Levels are ordered by value: DEBUG < INFO < WARNING < ERROR < CRITICAL. */
  lemma LevelOrder()
    ensures Debug.Value() < Info.Value() < Warning.Value() < Error.Value() < Critical.Value()
  {
  }

  /** The level the base `Event` constructor assigns. */
  const BaseLevel: EventLevel := Info

  /**
   * The five concrete event classes. A status-change event keeps the run id
   * of its context rather than a live reference to it: `to_dict` reads only
   * `run_id`, which never changes.
   */
  datatype Event =
    | NodeStatusChange(runId: string, nodeId: NodeId, formal: NodeStatus, after: NodeStatus, nodeLevel: EventLevel)
    | WorkflowStatusChange(runId: string, wfFormal: WorkflowStatus, wfAfter: WorkflowStatus)
    | NodeError(location: string, message: string)
    | WorkflowError(runId: string, location: string, message: string)
    | UnexpectedError(location: string, failMessage: string)
  {
    /** The event's `level` attribute after construction. */
    function Level(): EventLevel
    {
      match this
      case NodeStatusChange(_, _, _, _, l) => l
      case WorkflowStatusChange(_, _, _) => BaseLevel
      case NodeError(_, _) => Error
      case WorkflowError(_, _, _) => Error
      case UnexpectedError(_, _) => Critical
    }

    predicate IsChange()
    {
      NodeStatusChange? || WorkflowStatusChange?
    }
  }

  /** `NodeStatusChangeEvent(context, node_id, formal, after, level=INFO)`. */
  function NewNodeStatusChange(runId: string, nodeId: NodeId, formal: NodeStatus, after: NodeStatus, level: EventLevel := Info): (e: Event)
    ensures e.NodeStatusChange? && e.Level() == level
    ensures e.runId == runId && e.nodeId == nodeId && e.formal == formal && e.after == after
  {
    NodeStatusChange(runId, nodeId, formal, after, level)
  }

  /**
   * `WorkflowStatusChangeEvent(context, formal, after, level=INFO)`: the
   * constructor accepts a level but never stores it.
   */
  function NewWorkflowStatusChange(runId: string, formal: WorkflowStatus, after: WorkflowStatus, level: EventLevel := Info): (e: Event)
    ensures e.WorkflowStatusChange? && e.Level() == Info
    ensures e.runId == runId && e.wfFormal == formal && e.wfAfter == after
  {
    WorkflowStatusChange(runId, formal, after)
  }

  type Dict = seq<(string, string)>

  function Keys(d: Dict): (ks: seq<string>)
    ensures |ks| == |d|
    ensures forall i :: 0 <= i < |d| ==> ks[i] == d[i].0
  {
    if d == [] then [] else [d[0].0] + Keys(d[1..])
  }

  /** The value of the first entry with key `k`, as a dict lookup finds it. */
  function Lookup(d: Dict, k: string): (r: Option<string>)
    ensures r.None? <==> k !in Keys(d)
    ensures r.Some? ==> (k, r.value) in d
  {
    if d == [] then None
    else if d[0].0 == k then Some(d[0].1)
    else Lookup(d[1..], k)
  }

  predicate DistinctKeys(d: Dict)
  {
    forall i, j :: 0 <= i < j < |d| ==> d[i].0 != d[j].0
  }

  /** `to_dict()`: the event's fields as names and strings, in source order. */
  function ToDict(e: Event): (d: Dict)
    ensures DistinctKeys(d)
    ensures |d| > 0 && d[0] == ("level", e.Level().Name())
  {
    match e
    case NodeStatusChange(runId, nodeId, formal, after, level) =>
      [("level", level.Name()), ("run_id", runId), ("node_id", nodeId),
       ("formal_status", formal.Name()), ("after_status", after.Name())]
    case WorkflowStatusChange(runId, formal, after) =>
      [("level", e.Level().Name()), ("run_id", runId),
       ("formal_status", formal.Name()), ("after_status", after.Name())]
    case NodeError(location, message) =>
      [("level", e.Level().Name()), ("location", location), ("message", message)]
    case WorkflowError(runId, location, message) =>
      [("level", e.Level().Name()), ("run_id", runId), ("location", location), ("message", message)]
    case UnexpectedError(location, failMessage) =>
      [("level", e.Level().Name()), ("location", location), ("message", failMessage)]
  }

  /** Which keys each variant's dictionary has, and in which order. */
  lemma ToDictKeys(e: Event)
    ensures e.NodeStatusChange? ==> Keys(ToDict(e)) == ["level", "run_id", "node_id", "formal_status", "after_status"]
    ensures e.WorkflowStatusChange? ==> Keys(ToDict(e)) == ["level", "run_id", "formal_status", "after_status"]
    ensures e.NodeError? || e.UnexpectedError? ==> Keys(ToDict(e)) == ["level", "location", "message"]
    ensures e.WorkflowError? ==> Keys(ToDict(e)) == ["level", "run_id", "location", "message"]
  {
  }

  /** In a dictionary without repeated keys, looking up the i-th key finds the i-th value. */
  lemma {:induction false} LookupAt(d: Dict, i: nat)
    requires DistinctKeys(d) && i < |d|
    ensures Lookup(d, d[i].0) == Some(d[i].1)
  {
    if i > 0 {
      assert d[0].0 != d[i].0;
      assert DistinctKeys(d[1..]) by {
        forall a, b | 0 <= a < b < |d[1..]| ensures d[1..][a].0 != d[1..][b].0 {
          assert d[1..][a] == d[a + 1] && d[1..][b] == d[b + 1];
        }
      }
      LookupAt(d[1..], i - 1);
    }
  }

  /** A node status change reports its run, node and both statuses by name. */
  lemma ToDictNodeStatusChange(e: Event)
    requires e.NodeStatusChange?
    ensures Lookup(ToDict(e), "level") == Some(e.nodeLevel.Name())
    ensures Lookup(ToDict(e), "run_id") == Some(e.runId)
    ensures Lookup(ToDict(e), "node_id") == Some(e.nodeId)
    ensures Lookup(ToDict(e), "formal_status") == Some(e.formal.Name())
    ensures Lookup(ToDict(e), "after_status") == Some(e.after.Name())
  {
    var d := ToDict(e);
    LookupAt(d, 0); LookupAt(d, 1); LookupAt(d, 2); LookupAt(d, 3); LookupAt(d, 4);
  }

  /** A workflow status change reports its run and both statuses, and has no `node_id`. */
  lemma ToDictWorkflowStatusChange(e: Event)
    requires e.WorkflowStatusChange?
    ensures Lookup(ToDict(e), "level") == Some(Info.Name())
    ensures Lookup(ToDict(e), "run_id") == Some(e.runId)
    ensures Lookup(ToDict(e), "node_id") == None
    ensures Lookup(ToDict(e), "formal_status") == Some(e.wfFormal.Name())
    ensures Lookup(ToDict(e), "after_status") == Some(e.wfAfter.Name())
  {
    var d := ToDict(e);
    ToDictKeys(e);
    LookupAt(d, 0); LookupAt(d, 1); LookupAt(d, 2); LookupAt(d, 3);
  }

  /** The three error events report at ERROR or CRITICAL level, with location and message. */
  lemma ToDictErrors(e: Event)
    requires !e.IsChange()
    ensures Lookup(ToDict(e), "level") == Some(if e.UnexpectedError? then "CRITICAL" else "ERROR")
    ensures Lookup(ToDict(e), "location") == Some(e.location)
    ensures Lookup(ToDict(e), "message") == Some(if e.UnexpectedError? then e.failMessage else e.message)
    ensures Lookup(ToDict(e), "node_id") == None
    ensures Lookup(ToDict(e), "run_id") == if e.WorkflowError? then Some(e.runId) else None
  {
    var d := ToDict(e);
    ToDictKeys(e);
    LookupAt(d, 0); LookupAt(d, 1); LookupAt(d, 2);
    match e
    case NodeError(_, _) =>
    case UnexpectedError(_, _) =>
    case WorkflowError(_, _, _) =>
      LookupAt(d, 3);
  }

  /** A status change's dictionary determines both statuses it reports. */
  lemma ToDictStatusesRecoverable(e: Event)
    requires e.NodeStatusChange?
    ensures Lookup(ToDict(e), "formal_status").Some? && Lookup(ToDict(e), "after_status").Some?
    ensures NodeStatusNamed(Lookup(ToDict(e), "formal_status").value) == Some(e.formal)
    ensures NodeStatusNamed(Lookup(ToDict(e), "after_status").value) == Some(e.after)
  {
    ToDictNodeStatusChange(e);
    NodeStatusRoundTrip(e.formal);
    NodeStatusRoundTrip(e.after);
  }
}
