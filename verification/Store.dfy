/** The department, machine and user tables and what each operation makes of them, as functions on values.
    Statements on a table are modelled by what they select and write; `Updates(&patch)` writes only the
    fields of the patch that are not zero (pkg/app/server/dao/departdao.go, machinemanagerdao.go). */
module Store {
  import opened Forest

  const NORMAL := 1
  const OFFLINE := 2
  const FREE := 3
  const UNCATALOGUED := 1  // the department of newly registered machines, id of the root row
  const ROOT := 0          // node_locate of the root row
  const UNROOT := 1

  datatype DepartNode = DepartNode(id: int, pid: int, parentDepart: string, depart: string, nodeLocate: int)

  datatype MachineNode = MachineNode(id: int, departId: int, ip: string, uuid: string, cpu: string, state: int,
                                     systeminfo: string)

  /** A user row: who, and in which department; the other columns only travel along. */
  datatype User = User(email: string, departSecond: int)

  /** The tables with their AUTO_INCREMENT counters. Rows are listed in the order queries return them. */
  datatype Tables = Tables(departs: seq<DepartNode>, machines: seq<MachineNode>, users: seq<User>,
                           nextDepart: int, nextMachine: int)

  function Edges(departs: seq<DepartNode>): (t: seq<Edge>)
    ensures |t| == |departs|
  {
    seq(|departs|, i requires 0 <= i < |departs| => Edge(departs[i].id, departs[i].pid))
  }

  predicate HasDepart(departs: seq<DepartNode>, id: int) {
    exists i :: 0 <= i < |departs| && departs[i].id == id
  }

  // ----- Machine rows -----

  const NO_PATCH := MachineNode(0, 0, "", "", "", 0, "")

  /** `Updates(&patch)` on one row. */
  function Overlay(m: MachineNode, patch: MachineNode): MachineNode {
    MachineNode(
      if patch.id != 0 then patch.id else m.id,
      if patch.departId != 0 then patch.departId else m.departId,
      if patch.ip != "" then patch.ip else m.ip,
      if patch.uuid != "" then patch.uuid else m.uuid,
      if patch.cpu != "" then patch.cpu else m.cpu,
      if patch.state != 0 then patch.state else m.state,
      if patch.systeminfo != "" then patch.systeminfo else m.systeminfo)
  }

  function UpdateId(ms: seq<MachineNode>, id: int, patch: MachineNode): (r: seq<MachineNode>)
    ensures |r| == |ms|
  {
    seq(|ms|, i requires 0 <= i < |ms| => if ms[i].id == id then Overlay(ms[i], patch) else ms[i])
  }

  function UpdateUuid(ms: seq<MachineNode>, uuid: string, patch: MachineNode): (r: seq<MachineNode>)
    ensures |r| == |ms|
  {
    seq(|ms|, i requires 0 <= i < |ms| => if ms[i].uuid == uuid then Overlay(ms[i], patch) else ms[i])
  }

  /** The first row with this UUID, or the zero row when there is none. */
  function FindUuid(ms: seq<MachineNode>, uuid: string): MachineNode {
    if ms == [] then NO_PATCH else if ms[0].uuid == uuid then ms[0] else FindUuid(ms[1..], uuid)
  }

  function FindId(ms: seq<MachineNode>, id: int): MachineNode {
    if ms == [] then NO_PATCH else if ms[0].id == id then ms[0] else FindId(ms[1..], id)
  }

  function WithoutUuid(ms: seq<MachineNode>, uuid: string): seq<MachineNode> {
    if ms == [] then []
    else (if ms[0].uuid == uuid then [] else [ms[0]]) + WithoutUuid(ms[1..], uuid)
  }

  function InDepart(ms: seq<MachineNode>, departId: int): seq<MachineNode> {
    if ms == [] then []
    else (if ms[0].departId == departId then [ms[0]] else []) + InDepart(ms[1..], departId)
  }

  // ----- Operations on machines -----

  /** `AddAgents2DB`: a known machine returns to Normal, or to Free in the root department; an unknown one is
      added there as Free. `IsUUIDExist` asks whether the row found has a department. */
  function Connect(s: Tables, uuid: string, ip: string, cpu: string, systeminfo: string): Tables {
    var found := FindUuid(s.machines, uuid);
    if found.departId != 0 then
      var state := if found.departId != UNCATALOGUED then NORMAL else FREE;
      s.(machines := UpdateUuid(s.machines, uuid, NO_PATCH.(state := state, ip := ip)))
    else
      s.(machines := s.machines + [MachineNode(s.nextMachine, UNCATALOGUED, ip, uuid, cpu, FREE, systeminfo)],
         nextMachine := s.nextMachine + 1)
  }

  /** `MachineStatusToOffline`. */
  function Disconnect(s: Tables, uuid: string): Tables {
    s.(machines := UpdateUuid(s.machines, uuid, NO_PATCH.(state := OFFLINE)))
  }

  /** What `ModifyMachineDepart` writes for a machine in the given state. */
  function ReassignPatch(state: int, departId: int): MachineNode {
    if state == FREE then NO_PATCH.(departId := departId, state := NORMAL)
    else if departId == UNCATALOGUED then NO_PATCH.(departId := departId, state := FREE)
    else NO_PATCH.(departId := departId)
  }

  function Reassign(s: Tables, id: int, departId: int): Tables {
    s.(machines := UpdateId(s.machines, id, ReassignPatch(FindId(s.machines, id).state, departId)))
  }

  function ReassignAll(s: Tables, ids: seq<int>, departId: int): Tables {
    if ids == [] then s else Reassign(ReassignAll(s, ids[..|ids| - 1], departId), ids[|ids| - 1], departId)
  }

  /** `DeleteMachine`; an unknown UUID is refused. */
  function RemoveMachine(s: Tables, uuid: string): Tables {
    if FindUuid(s.machines, uuid).departId != 0 then s.(machines := WithoutUuid(s.machines, uuid)) else s
  }

  // ----- Operations on departments -----

  datatype AddError = UnknownParentId | AlreadyPresent | UnknownParentName | NoName | SecondRoot

  datatype Added = Added(s: Tables) | Refused(error: AddError)

  /** What the caller is told. */
  datatype Verdict = Done | Failed(error: AddError)

  /** `AddDepartMethod`, its checks in order. */
  function AddDepart(s: Tables, pid: int, parentDepart: string, depart: string): Added {
    if !HasDepart(s.departs, pid) then Refused(UnknownParentId)
    else if exists r :: r in s.departs && r.depart == depart && r.parentDepart == parentDepart
    then Refused(AlreadyPresent)
    else if parentDepart != "" && !(exists r :: r in s.departs && r.depart == parentDepart)
    then Refused(UnknownParentName)
    else if depart == "" then Refused(NoName)
    else if parentDepart == "" && exists r :: r in s.departs && r.nodeLocate == ROOT then Refused(SecondRoot)
    else
      var row := DepartNode(s.nextDepart, pid, parentDepart, depart, if parentDepart == "" then ROOT else UNROOT);
      Added(s.(departs := s.departs + [row], nextDepart := s.nextDepart + 1))
  }

  /** A machine moved out of a deleted department. */
  function Evict(m: MachineNode): MachineNode {
    Overlay(m, NO_PATCH.(departId := UNCATALOGUED, state := FREE))
  }

  function EvictFrom(ms: seq<MachineNode>, departIds: seq<int>): (r: seq<MachineNode>)
    ensures |r| == |ms|
  {
    seq(|ms|, i requires 0 <= i < |ms| => if ms[i].departId in departIds then Evict(ms[i]) else ms[i])
  }

  function RemoveDeparts(departs: seq<DepartNode>, ids: seq<int>): seq<DepartNode> {
    if departs == [] then []
    else (if departs[0].id in ids then [] else [departs[0]]) + RemoveDeparts(departs[1..], ids)
  }

  /** `DelUser`. */
  function WithoutUsersOf(users: seq<User>, departId: int): seq<User> {
    if users == [] then []
    else (if users[0].departSecond == departId then [] else [users[0]]) + WithoutUsersOf(users[1..], departId)
  }

  /** `DeleteDepartData`: the department and its direct children go, their machines move to the root department
      as Free, the department's own users go; deeper departments stay where they are. An unknown id is
      refused. */
  function DeleteDepart(s: Tables, id: int): Tables {
    if !HasDepart(s.departs, id) then s
    else
      var gone := [id] + Kids(Edges(s.departs), id);
      s.(departs := RemoveDeparts(s.departs, gone), machines := EvictFrom(s.machines, gone),
         users := WithoutUsersOf(s.users, id))
  }

  /** The name of the root row of every installation. */
  const ORGANIZATION := "\U{7EC4}\U{7EC7}\U{540D}"

  /** `CreateOrganization`: makes the root row when no row has parent 0. */
  function Organize(s: Tables): Tables {
    if exists r :: r in s.departs && r.pid == ROOT then s
    else
      s.(departs := s.departs + [DepartNode(s.nextDepart, ROOT, "", ORGANIZATION, ROOT)],
         nextDepart := s.nextDepart + 1)
  }

  /** `Register`: a password and an unused email address are needed; the department is not looked at. */
  function Register(s: Tables, email: string, password: string, departId: int): Tables {
    if password == "" || email == "" || exists u :: u in s.users && u.email == email then s
    else s.(users := s.users + [User(email, departId)])
  }

  // ----- Runs -----

  datatype Op =
    | Restart
    | ConnectOp(uuid: string, ip: string, cpu: string, systeminfo: string)
    | DisconnectOp(uuid: string)
    | ReassignOp(ids: seq<int>, departId: int)
    | RemoveMachineOp(uuid: string)
    | AddDepartOp(pid: int, parentDepart: string, depart: string)
    | DeleteDepartOp(id: int)
    | RegisterOp(email: string, password: string, departId: int)

  function Apply(s: Tables, op: Op): Tables {
    match op
    case Restart => Organize(s)
    case ConnectOp(uuid, ip, cpu, systeminfo) => Connect(s, uuid, ip, cpu, systeminfo)
    case DisconnectOp(uuid) => Disconnect(s, uuid)
    case ReassignOp(ids, departId) => ReassignAll(s, ids, departId)
    case RemoveMachineOp(uuid) => RemoveMachine(s, uuid)
    case AddDepartOp(pid, parentDepart, depart) =>
      (match AddDepart(s, pid, parentDepart, depart)
       case Added(s') => s'
       case Refused(_) => s)
    case DeleteDepartOp(id) => DeleteDepart(s, id)
    case RegisterOp(email, password, departId) => Register(s, email, password, departId)
  }

  /** The tables of a new installation, started once. */
  const INSTALLED := Organize(Tables([], [], [], 1, 1))

  function Run(ops: seq<Op>): Tables {
    if ops == [] then INSTALLED else Apply(Run(ops[..|ops| - 1]), ops[|ops| - 1])
  }
}
