/** The value types the control plane keeps: ids, resources, tasks, nodes,
    snapshot records and the operations its journal stores.

    Identifiers and names are strings. An address is its four octets. Points in
    time are integer nanoseconds. The guest image, the snapshot policy and the
    snapshot type of a task travel through the control plane untouched and are
    not part of the model. */
module Types {

  datatype Option<+T> = None | Some(value: T)

  datatype Result<+T, +E> = Ok(value: T) | Err(error: E)

  /** The error kinds of the shared error type; the message text is dropped. */
  datatype Error = InvalidJobSpec | NotFound | Conflict

  type Byte = x: int | 0 <= x < 256

  const U64_MAX := 0xFFFF_FFFF_FFFF_FFFF

  type U64 = x: int | 0 <= x <= U64_MAX

  type JobId = string
  type TaskId = string
  type NodeId = string
  type SnapshotId = string

  type DateTime = int
  const NANOS_PER_SECOND := 1_000_000_000
  const HEARTBEAT_TIMEOUT_SECS := 10

  datatype Ip = Ip(a: Byte, b: Byte, c: Byte, d: Byte)

  datatype Resources = Resources(cpuMillis: U64, memMb: U64) {

    /** Whether `total` has room for `this` on top of `used`. */
    predicate FitsIn(total: Resources, used: Resources) {
      && SaturatingAdd64(used.cpuMillis, cpuMillis) <= total.cpuMillis
      && SaturatingAdd64(used.memMb, memMb) <= total.memMb
    }

    function SaturatingAdd(other: Resources): Resources {
      Resources(SaturatingAdd64(cpuMillis, other.cpuMillis), SaturatingAdd64(memMb, other.memMb))
    }

    /** Componentwise comparison. */
    predicate Within(other: Resources) {
      cpuMillis <= other.cpuMillis && memMb <= other.memMb
    }
  }

  const NO_RESOURCES := Resources(0, 0)

  function SaturatingAdd64(x: U64, y: U64): U64 {
    if x + y > U64_MAX then U64_MAX else x + y
  }

  datatype TaskState = Pending | Assigned | Running | Succeeded | Failed {

    predicate IsTerminal() {
      Succeeded? || Failed?
    }

    /** The states in which a task holds the resources of its node. */
    predicate HoldsResources() {
      Assigned? || Running?
    }
  }

  datatype NetworkAssignment = NetworkAssignment(ip: Ip, gateway: Ip, netmask: Ip)

  /** An environment value. The value the scheduler injects is the JSON text of
      a map from service name to sorted addresses; the model keeps the map. */
  datatype EnvValue = Text(text: string) | Services(endpoints: map<string, seq<string>>)

  const SERVICES_KEY := "BIGTOP_SERVICES"

  datatype TaskSpec = TaskSpec(
    name: string,
    command: string,
    args: seq<string>,
    env: map<string, EnvValue>,
    resources: Resources,
    count: nat,
    nodeAffinity: Option<NodeId>,
    networkEnabled: bool,
    serviceName: Option<string>,
    discover: seq<string>)

  datatype Task = Task(
    id: TaskId,
    jobId: JobId,
    name: string,
    spec: TaskSpec,
    state: TaskState,
    assignedNode: Option<NodeId>,
    exitCode: Option<int>,
    network: Option<NetworkAssignment>)

  datatype NodeInfo = NodeInfo(
    id: NodeId,
    name: string,
    addr: string,
    underlayIp: Option<Ip>,
    total: Resources,
    used: Resources,
    lastHeartbeat: DateTime)
  {
    /** True when a heartbeat arrived within the timeout, counted in whole
        seconds that truncate towards zero. */
    predicate IsAlive(now: DateTime) {
      WholeSeconds(now - lastHeartbeat) <= HEARTBEAT_TIMEOUT_SECS
    }
  }

  /** Whole seconds of a duration, truncated towards zero. */
  function WholeSeconds(nanos: int): int {
    if nanos >= 0 then nanos / NANOS_PER_SECOND else -((-nanos) / NANOS_PER_SECOND)
  }

  datatype JobSpec = JobSpec(name: string, tasks: seq<TaskSpec>)

  datatype JobRecord = JobRecord(name: string, createdAt: DateTime)

  datatype SnapshotState = Requested | InProgress | Done | SnapFailed {
    predicate IsTerminal() {
      Done? || SnapFailed?
    }
  }

  datatype SnapshotRecord = SnapshotRecord(
    id: SnapshotId,
    taskId: TaskId,
    nodeId: NodeId,
    memFilePath: string,
    snapshotPath: string,
    state: SnapshotState,
    error: Option<string>,
    createdAt: DateTime)

  datatype SnapshotReport = SnapshotReport(
    state: SnapshotState,
    nodeId: NodeId,
    memFilePath: Option<string>,
    snapshotPath: Option<string>,
    error: Option<string>)

  /** What the journal records of one mutation. Two operations can make one
      group. */
  datatype JournalOp =
    | CreateJob(jobId: JobId, name: string, createdAt: DateTime, tasks: seq<Task>)
    | SetTaskState(taskId: TaskId, state: TaskState, exitCode: Option<int>)
    | TaskAssigned(taskId: TaskId, nodeId: NodeId, network: Option<NetworkAssignment>,
                   services: Option<map<string, seq<string>>>)
    | TaskRequeued(taskId: TaskId)
    | RegisterNode(node: NodeInfo)
    | RequestSnapshot(record: SnapshotRecord)
    | ReportSnapshot(taskId: TaskId, snapshotId: SnapshotId, report: SnapshotReport)
    | IpamAllocate(nodeId: NodeId, taskId: TaskId, ip: Ip)
    | IpamRelease(taskId: TaskId)
}
