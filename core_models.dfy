/**
 * The data the scheduler runs over: node and workflow statuses with their
 * integer values, the immutable node description, a recorded failure and the
 * mutable per-run context (dag_workflow/datamodel/core_models.py).
 */
module CoreModels {
  import opened Wrappers

  type NodeId = string

  /** A task's produced value; the engine only stores and forwards it. */
  type Value = string

  /** The accumulated results of one run, keyed by node id. */
  type Results = map<NodeId, Value>

  /** A node's readiness predicate, already reduced to its truthiness. */
  type Condition = Results -> bool

  datatype NodeStatus = Pending | Running | Success | Failed | Skipped | Canceled
  {
    /** The enum member's value. */
    function Value(): (v: nat)
      ensures v < 6
    {
      match this
      case Pending => 0
      case Running => 1
      case Success => 2
      case Failed => 3
      case Skipped => 4
      case Canceled => 5
    }

    /** The enum member's name, as `NodeStatus.X.name` gives it. */
    function Name(): string
    {
      match this
      case Pending => "PENDING"
      case Running => "RUNNING"
      case Success => "SUCCESS"
      case Failed => "FAILED"
      case Skipped => "SKIPPED"
      case Canceled => "CANCELED"
    }

    /** Terminal statuses: no step of a run changes them again (see Engine.DAGEngine.ProcessOne). */
    predicate IsTerminal()
    {
      this == Success || this == Failed || this == Skipped || this == Canceled
    }
  }

  /** `NodeStatus(v)`: the member with value `v`, if any. */
  function NodeStatusOf(v: int): (r: Option<NodeStatus>)
    ensures r.Some? <==> 0 <= v < 6
    ensures r.Some? ==> r.value.Value() == v
  {
    match v
    case 0 => Some(Pending)
    case 1 => Some(Running)
    case 2 => Some(Success)
    case 3 => Some(Failed)
    case 4 => Some(Skipped)
    case 5 => Some(Canceled)
    case _ => None
  }

  /** `NodeStatus[name]`: the member with that name, if any. */
  function NodeStatusNamed(name: string): Option<NodeStatus>
  {
    if name == "PENDING" then Some(Pending)
    else if name == "RUNNING" then Some(Running)
    else if name == "SUCCESS" then Some(Success)
    else if name == "FAILED" then Some(Failed)
    else if name == "SKIPPED" then Some(Skipped)
    else if name == "CANCELED" then Some(Canceled)
    else None
  }

  /** Values and names identify the six members: each round-trips. */
  lemma NodeStatusRoundTrip(s: NodeStatus)
    ensures NodeStatusOf(s.Value()) == Some(s)
    ensures NodeStatusNamed(s.Name()) == Some(s)
  {
  }

  datatype WorkflowStatus = WfPending | WfRunning | WfSuccess | WfFailed
  {
    function Value(): (v: nat)
      ensures v < 4
    {
      match this
      case WfPending => 0
      case WfRunning => 1
      case WfSuccess => 2
      case WfFailed => 3
    }

    function Name(): string
    {
      match this
      case WfPending => "PENDING"
      case WfRunning => "RUNNING"
      case WfSuccess => "SUCCESS"
      case WfFailed => "FAILED"
    }

    /** The statuses a run ends in. */
    predicate IsTerminal()
    {
      this == WfSuccess || this == WfFailed
    }
  }

  /** `WorkflowStatus(v)`: the member with value `v`, if any. */
  function WorkflowStatusOf(v: int): (r: Option<WorkflowStatus>)
    ensures r.Some? <==> 0 <= v < 4
    ensures r.Some? ==> r.value.Value() == v
  {
    match v
    case 0 => Some(WfPending)
    case 1 => Some(WfRunning)
    case 2 => Some(WfSuccess)
    case 3 => Some(WfFailed)
    case _ => None
  }

  function WorkflowStatusNamed(name: string): Option<WorkflowStatus>
  {
    if name == "PENDING" then Some(WfPending)
    else if name == "RUNNING" then Some(WfRunning)
    else if name == "SUCCESS" then Some(WfSuccess)
    else if name == "FAILED" then Some(WfFailed)
    else None
  }

  lemma WorkflowStatusRoundTrip(s: WorkflowStatus)
    ensures WorkflowStatusOf(s.Value()) == Some(s)
    ensures WorkflowStatusNamed(s.Name()) == Some(s)
  {
  }

  /**
   * A graph node. The task body is not part of the value: what running it
   * yields is an input of the scheduler (see Engine.Env). By default a node
   * has no dependencies and no condition.
   */
  datatype DAGNode = DAGNode(id: NodeId, dependencies: seq<NodeId> := [], condition: Option<Condition> := None)

  /** A recorded failure: where it happened and its message. */
  datatype ContextException = ContextException(location: string, message: string)

  /**
   * The mutable state of one run. The lock of the source is not modelled:
   * the model is sequential, so every locked section is a plain update.
   */
  class SingleRunContext {
    const inputData: string
    const runId: string
    var nodeStatus: map<NodeId, NodeStatus>
    var results: Results
    var workflowStatus: WorkflowStatus
    var exceptions: seq<ContextException>

    /** `runId` stands for the `uuid.uuid4()` the source draws. */
    constructor (inputData: string, runId: string)
      ensures this.inputData == inputData && this.runId == runId
      ensures nodeStatus == map[] && results == map[]
      ensures workflowStatus == WfPending && exceptions == []
    {
      this.inputData := inputData;
      this.runId := runId;
      nodeStatus := map[];
      results := map[];
      workflowStatus := WfPending;
      exceptions := [];
    }
  }
}
