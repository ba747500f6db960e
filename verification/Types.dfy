/** The rows a saga store persists: saga status, workflow nodes and journaled steps. */
module Types {

  datatype Option<+T> = None | Some(value: T)

  datatype SagaStatus =
    | Active
    | Failed
    | RecoveryRequired
    | Committed
    | RollingBack
    | RolledBack
    | RollbackFailed

  datatype NodeStatus =
    | WaitingDependency
    | WaitingApproval
    | Ready
    | Executing
    | Completed
    | Failed
    | Rejected
    | Blocked
    | Compensated
    | CompensationFailed

  datatype StepStatus =
    | Executing
    | Completed
    | Failed
    | Compensated
    | CompensationFailed

  datatype FailureMode = Rollback | Pause

  datatype Approval = Unneeded | Pending | Approved | Refused

  /** What the engine reads off a persisted action snapshot. `failureMode` is None when
      the snapshot no longer proves a policy. */
  datatype Contract = Contract(failureMode: Option<FailureMode>, risk: string)

  /** A workflow node. Nodes are never removed, so a node is named by its insertion
      position and `deps` holds such positions; `stepNo` is the journal position of the
      step the node runs under. */
  datatype Node = Node(
    key: Option<string>,
    deps: seq<nat>,
    status: NodeStatus,
    approvalRequired: bool,
    approval: Approval,
    stepNo: Option<nat>,
    uncertain: bool,
    contract: Contract)

  /** A journaled step. Its sequence number is its journal position plus one. */
  datatype Step = Step(status: StepStatus, compensationAttempts: nat, contract: Contract)

  /** Everything a store keeps about one saga apart from its lease. */
  datatype Row = Row(status: SagaStatus, nodes: seq<Node>, steps: seq<Step>)
}
