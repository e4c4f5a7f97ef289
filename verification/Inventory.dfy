/** What every run of registrations, disconnections, reassignments and department changes keeps. */
module Inventory {
  import opened Forest
  import opened Store

  // ----- Machine table -----

  predicate MachineOk(m: MachineNode) {
    && m.departId != 0
    && (m.state == NORMAL || m.state == OFFLINE || m.state == FREE)
    && (m.state == FREE ==> m.departId == UNCATALOGUED)
  }

  /** Rows are listed by increasing id, and each UUID has at most one. */
  predicate Unique(ms: seq<MachineNode>) {
    forall i, j :: 0 <= i < j < |ms| ==> ms[i].id < ms[j].id && ms[i].uuid != ms[j].uuid
  }

  predicate MachinesOk(s: Tables) {
    && (forall i :: 0 <= i < |s.machines| ==> MachineOk(s.machines[i]) && 0 < s.machines[i].id < s.nextMachine)
    && Unique(s.machines) && s.nextMachine > 0
  }

  lemma UniqueBySameKeys(a: seq<MachineNode>, b: seq<MachineNode>)
    requires Unique(a) && |a| == |b|
    requires forall i :: 0 <= i < |a| ==> a[i].id == b[i].id && a[i].uuid == b[i].uuid
    ensures Unique(b)
  {
  }

  predicate Known(ms: seq<MachineNode>, uuid: string) {
    exists i :: 0 <= i < |ms| && ms[i].uuid == uuid
  }

  lemma {:induction false} FindUuidMember(ms: seq<MachineNode>, uuid: string)
    ensures if Known(ms, uuid) then FindUuid(ms, uuid) in ms && FindUuid(ms, uuid).uuid == uuid
            else FindUuid(ms, uuid) == NO_PATCH
  {
    if ms != [] {
      FindUuidMember(ms[1..], uuid);
      if Known(ms, uuid) && ms[0].uuid != uuid {
        var i :| 0 <= i < |ms| && ms[i].uuid == uuid;
      }
      if Known(ms[1..], uuid) {
        var i :| 0 <= i < |ms[1..]| && ms[1..][i].uuid == uuid;
      }
    }
  }

  /** `IsUUIDExist` looks at the department of the row found, which is exact because no department is 0. */
  lemma UuidExistsIff(s: Tables, uuid: string)
    requires MachinesOk(s)
    ensures FindUuid(s.machines, uuid).departId != 0 <==> Known(s.machines, uuid)
  {
    FindUuidMember(s.machines, uuid);
  }

  lemma {:induction false} FindIdMember(ms: seq<MachineNode>, id: int, i: nat)
    requires i < |ms| && ms[i].id == id
    requires Unique(ms)
    ensures FindId(ms, id) == ms[i]
  {
    if i > 0 {
      FindIdMember(ms[1..], id, i - 1);
    }
  }

  /** A machine that connects is listed exactly once afterwards: Normal in its own department, Free in the
      root department, and under its new address unless the address is empty. Other machines do not change. */
  lemma ConnectRegisters(s: Tables, uuid: string, ip: string, cpu: string, systeminfo: string)
    requires MachinesOk(s)
    ensures MachinesOk(Connect(s, uuid, ip, cpu, systeminfo))
    ensures var before, after := s.machines, Connect(s, uuid, ip, cpu, systeminfo).machines;
            && Known(after, uuid)
            && |after| == (if Known(before, uuid) then |before| else |before| + 1)
            && forall i :: 0 <= i < |after| ==>
                 if after[i].uuid == uuid then
                   && after[i].state == (if after[i].departId == UNCATALOGUED then FREE else NORMAL)
                   && (ip != "" ==> after[i].ip == ip)
                   && (i < |before| ==> after[i].departId == before[i].departId && after[i].id == before[i].id)
                 else i < |before| && after[i] == before[i]
  {
    hide Unique, Overlay;
    if Known(s.machines, uuid) {
      ConnectKnown(s, uuid, ip, cpu, systeminfo);
    } else {
      ConnectUnknown(s, uuid, ip, cpu, systeminfo);
      assert Connect(s, uuid, ip, cpu, systeminfo).machines[|s.machines|].uuid == uuid;
    }
  }

  lemma ConnectKnown(s: Tables, uuid: string, ip: string, cpu: string, systeminfo: string)
    requires MachinesOk(s) && Known(s.machines, uuid)
    ensures MachinesOk(Connect(s, uuid, ip, cpu, systeminfo))
    ensures var before, after := s.machines, Connect(s, uuid, ip, cpu, systeminfo).machines;
            && Known(after, uuid) && |after| == |before|
            && forall i :: 0 <= i < |after| ==>
                 if before[i].uuid == uuid then
                   && after[i].uuid == uuid
                   && after[i].state == (if after[i].departId == UNCATALOGUED then FREE else NORMAL)
                   && (ip != "" ==> after[i].ip == ip)
                   && after[i].departId == before[i].departId && after[i].id == before[i].id
                 else after[i] == before[i]
  {
    hide Unique;
    FindUuidMember(s.machines, uuid);
    var before, after := s.machines, Connect(s, uuid, ip, cpu, systeminfo).machines;
    var i :| 0 <= i < |before| && before[i].uuid == uuid;
    UniqueBySameKeys(before, after);
    OnlyRow(before, uuid, FindUuid(before, uuid));
  }

  lemma OnlyRow(ms: seq<MachineNode>, uuid: string, m: MachineNode)
    requires Unique(ms) && m in ms && m.uuid == uuid
    ensures forall i :: 0 <= i < |ms| && ms[i].uuid == uuid ==> ms[i] == m
  {
  }

  lemma ConnectUnknown(s: Tables, uuid: string, ip: string, cpu: string, systeminfo: string)
    requires MachinesOk(s) && !Known(s.machines, uuid)
    ensures MachinesOk(Connect(s, uuid, ip, cpu, systeminfo))
    ensures Connect(s, uuid, ip, cpu, systeminfo).machines
         == s.machines + [MachineNode(s.nextMachine, UNCATALOGUED, ip, uuid, cpu, FREE, systeminfo)]
  {
    FindUuidMember(s.machines, uuid);
  }

  /** A disconnected machine is OffLine, keeps its department and address; no other machine changes. */
  lemma DisconnectMarks(s: Tables, uuid: string)
    requires MachinesOk(s)
    ensures var s' := Disconnect(s, uuid);
            && MachinesOk(s') && |s'.machines| == |s.machines|
            && forall i :: 0 <= i < |s.machines| ==>
                 s'.machines[i]
                 == (if s.machines[i].uuid == uuid then s.machines[i].(state := OFFLINE) else s.machines[i])
  {
  }

  /** Reassigning never leaves a machine Free outside the root department; a Free machine becomes Normal
      wherever it goes, and a department number 0 changes no department. */
  lemma ReassignMoves(s: Tables, id: int, departId: int)
    requires MachinesOk(s)
    ensures var s' := Reassign(s, id, departId);
            && MachinesOk(s') && |s'.machines| == |s.machines|
            && forall i :: 0 <= i < |s.machines| ==>
                 var m, m' := s.machines[i], s'.machines[i];
                 if m.id == id then
                   && m' == m.(departId := m'.departId, state := m'.state)
                   && m'.departId == (if departId == 0 then m.departId else departId)
                   && m'.state == (if m.state == FREE then NORMAL
                                   else if departId == UNCATALOGUED then FREE else m.state)
                 else m' == m
  {
    if i :| 0 <= i < |s.machines| && s.machines[i].id == id {
      FindIdMember(s.machines, id, i);
      assert forall j :: 0 <= j < |s.machines| && s.machines[j].id == id ==> j == i;
    }
  }

  lemma {:induction false} ReassignAllKeeps(s: Tables, ids: seq<int>, departId: int)
    requires MachinesOk(s)
    ensures var s' := ReassignAll(s, ids, departId);
            && MachinesOk(s') && s'.departs == s.departs && s'.nextDepart == s.nextDepart
            && |s'.machines| == |s.machines|
            && forall i :: 0 <= i < |s.machines| ==>
                 && s'.machines[i].id == s.machines[i].id
                 && s'.machines[i].departId
                    == (if departId != 0 && s.machines[i].id in ids then departId else s.machines[i].departId)
  {
    if ids != [] {
      var n := |ids| - 1;
      ReassignAllKeeps(s, ids[..n], departId);
      ReassignMoves(ReassignAll(s, ids[..n], departId), ids[n], departId);
    }
  }

  lemma {:induction false} WithoutUuidMember(ms: seq<MachineNode>, uuid: string, m: MachineNode)
    ensures m in WithoutUuid(ms, uuid) <==> m in ms && m.uuid != uuid
  {
    if ms != [] {
      WithoutUuidMember(ms[1..], uuid, m);
    }
  }

  lemma {:induction false} WithoutUuidUnique(ms: seq<MachineNode>, uuid: string)
    requires Unique(ms)
    ensures Unique(WithoutUuid(ms, uuid))
  {
    if ms != [] {
      WithoutUuidUnique(ms[1..], uuid);
      var r := WithoutUuid(ms[1..], uuid);
      forall j | 0 <= j < |r|
        ensures ms[0].id < r[j].id && r[j].uuid != ms[0].uuid
      {
        WithoutUuidMember(ms[1..], uuid, r[j]);
      }
    }
  }

  /** Removing a machine removes the machines with its UUID and no other. */
  lemma RemoveMachineRemoves(s: Tables, uuid: string)
    requires MachinesOk(s)
    ensures MachinesOk(RemoveMachine(s, uuid))
    ensures forall m :: m in RemoveMachine(s, uuid).machines <==> m in s.machines && m.uuid != uuid
  {
    hide Unique;
    UuidExistsIff(s, uuid);
    WithoutUuidUnique(s.machines, uuid);
    var r := RemoveMachine(s, uuid).machines;
    forall m
      ensures m in r <==> m in s.machines && m.uuid != uuid
    {
      WithoutUuidMember(s.machines, uuid, m);
    }
    forall i | 0 <= i < |r|
      ensures MachineOk(r[i]) && 0 < r[i].id < s.nextMachine
    {
    }
  }

  // ----- Department table -----

  predicate DepartsOk(s: Tables) {
    && Ordered(Edges(s.departs))
    && (forall i :: 0 <= i < |s.departs| ==> s.departs[i].id < s.nextDepart)
    && s.nextDepart > 0
  }

  /** One root row, which is row 1; every other row has a parent id. */
  predicate RootOk(s: Tables) {
    && HasDepart(s.departs, 1)
    && (forall i :: 0 <= i < |s.departs| ==> RowOk(s.departs[i]))
  }

  predicate RowOk(r: DepartNode) {
    && (r.id == 1 <==> r.pid == 0)
    && (r.id == 1 <==> r.nodeLocate == ROOT)
  }

  lemma HasDepartIffParent(departs: seq<DepartNode>, id: int)
    requires Ordered(Edges(departs))
    ensures HasDepart(departs, id) <==> Parent(Edges(departs), id) >= 0
    ensures HasDepart(departs, id) ==> id > 0
  {
    var t := Edges(departs);
    if i :| 0 <= i < |departs| && departs[i].id == id {
      assert t[i] == Edge(id, departs[i].pid);
      ParentIffEdge(t, id, departs[i].pid);
    }
    if Parent(t, id) >= 0 {
      ParentIffEdge(t, id, Parent(t, id));
      var i :| 0 <= i < |t| && t[i] == Edge(id, Parent(t, id));
    }
  }

  /** A department that is added hangs below an older one and is the only new row; there is never a second
      root row. */
  lemma AddDepartKeeps(s: Tables, pid: int, parentDepart: string, depart: string)
    requires DepartsOk(s) && AddDepart(s, pid, parentDepart, depart).Added?
    ensures var s' := AddDepart(s, pid, parentDepart, depart).s;
            && DepartsOk(s') && (RootOk(s) ==> RootOk(s'))
            && s'.machines == s.machines
            && Edges(s'.departs) == Edges(s.departs) + [Edge(s.nextDepart, pid)] && HasDepart(s.departs, pid)
            && !HasDepart(s.departs, s.nextDepart)
  {
    var s' := AddDepart(s, pid, parentDepart, depart).s;
    HasDepartIffParent(s.departs, pid);
    assert Edges(s'.departs) == Edges(s.departs) + [Edge(s.nextDepart, pid)];
    if RootOk(s) {
      var i :| 0 <= i < |s.departs| && s.departs[i].id == 1;
      assert s'.departs[i].id == 1;
    }
  }

  /** With some row marked as root, a department is added exactly when its parent id exists, it and a parent name are
      given, some department has that name, and no department has this name under this parent name. The parent
      name need not be the name of the row with the parent id. */
  lemma AddedIff(s: Tables, pid: int, parentDepart: string, depart: string)
    requires exists r :: r in s.departs && r.nodeLocate == ROOT
    ensures AddDepart(s, pid, parentDepart, depart).Added?
       <==> && HasDepart(s.departs, pid) && depart != "" && parentDepart != ""
            && (exists r :: r in s.departs && r.depart == parentDepart)
            && forall r :: r in s.departs ==> !(r.depart == depart && r.parentDepart == parentDepart)
  {
  }

  lemma {:induction false} RemoveDepartsMember(departs: seq<DepartNode>, ids: seq<int>, r: DepartNode)
    ensures r in RemoveDeparts(departs, ids) <==> r in departs && r.id !in ids
  {
    if departs != [] {
      RemoveDepartsMember(departs[1..], ids, r);
    }
  }

  lemma {:induction false} RemoveDepartsOrdered(departs: seq<DepartNode>, ids: seq<int>)
    requires Ordered(Edges(departs))
    ensures Ordered(Edges(RemoveDeparts(departs, ids)))
  {
    if departs != [] {
      var t, rest := Edges(departs), RemoveDeparts(departs[1..], ids);
      assert Edges(departs[1..]) == t[1..];
      RemoveDepartsOrdered(departs[1..], ids);
      assert t[0] == Edge(departs[0].id, departs[0].pid);
      forall j | 0 <= j < |rest|
        ensures rest[j].id != departs[0].id
      {
        RemoveDepartsMember(departs[1..], ids, rest[j]);
        var i :| 0 <= i < |departs[1..]| && departs[1..][i] == rest[j];
        assert t[i + 1].id == rest[j].id;
      }
      OrderedCons(departs[0], rest);
      if departs[0].id in ids {
        assert RemoveDeparts(departs, ids) == rest;
      }
    }
  }

  lemma OrderedCons(r: DepartNode, rest: seq<DepartNode>)
    requires Ordered(Edges(rest)) && 0 <= r.pid < r.id
    requires forall j :: 0 <= j < |rest| ==> rest[j].id != r.id
    ensures Ordered(Edges([r] + rest))
  {
    assert Edges([r] + rest) == [Edge(r.id, r.pid)] + Edges(rest);
  }

  /** Deleting removes exactly the department and its direct children, and moves exactly their machines to
      department 1 as Free. */
  lemma DeleteDepartRemoves(s: Tables, id: int)
    requires DepartsOk(s) && MachinesOk(s) && HasDepart(s.departs, id)
    ensures var s' := DeleteDepart(s, id);
            && DepartsOk(s') && MachinesOk(s')
            && (forall r :: r in s'.departs <==> r in s.departs && r.id != id && r.pid != id)
            && |s'.machines| == |s.machines|
            && (forall i :: 0 <= i < |s.machines| ==>
                  s'.machines[i]
                  == (if s.machines[i].departId == id || Edge(s.machines[i].departId, id) in Edges(s.departs)
                      then s.machines[i].(departId := UNCATALOGUED, state := FREE) else s.machines[i]))
  {
    var s', t := DeleteDepart(s, id), Edges(s.departs);
    var gone := [id] + Kids(t, id);
    forall d
      ensures d in gone <==> d == id || Edge(d, id) in t
    {
      KidsMember(t, id, d);
    }
    RemoveDepartsOrdered(s.departs, gone);
    forall r
      ensures r in s'.departs <==> r in s.departs && r.id != id && r.pid != id
    {
      RemoveDepartsMember(s.departs, gone, r);
      if r in s.departs {
        OwnEdge(s.departs, r, id);
      }
    }
    forall i | 0 <= i < |s'.departs|
      ensures s'.departs[i].id < s.nextDepart
    {
    }
  }

  lemma OwnEdge(departs: seq<DepartNode>, r: DepartNode, pid: int)
    requires Ordered(Edges(departs)) && r in departs
    ensures Edge(r.id, pid) in Edges(departs) <==> r.pid == pid
  {
    var t := Edges(departs);
    var i :| 0 <= i < |departs| && departs[i] == r;
    assert t[i] == Edge(r.id, r.pid);
  }

  // ----- Every machine's department exists -----

  predicate Placed(s: Tables) {
    forall i :: 0 <= i < |s.machines| ==> HasDepart(s.departs, s.machines[i].departId)
  }

  lemma HasDepartMember(departs: seq<DepartNode>, id: int)
    ensures HasDepart(departs, id) <==> exists r :: r in departs && r.id == id
  {
  }

  /** No machine sits in the department or directly below it. */
  predicate EmptyAtAndBelow(s: Tables, id: int) {
    forall i :: 0 <= i < |s.machines| ==>
      s.machines[i].departId != id && Edge(s.machines[i].departId, id) !in Edges(s.departs)
  }

  /** Deleting a department keeps every machine in an existing department, unless some machine has to move and
      department 1, where it goes, is the one being deleted or not there. */
  lemma DeletePlacesIff(s: Tables, id: int)
    requires DepartsOk(s) && MachinesOk(s) && Placed(s) && HasDepart(s.departs, id)
    ensures Placed(DeleteDepart(s, id)) <==> (id == 1 || !HasDepart(s.departs, 1) ==> EmptyAtAndBelow(s, id))
  {
    var s', t := DeleteDepart(s, id), Edges(s.departs);
    DeleteDepartRemoves(s, id);
    forall i | 0 <= i < |s.machines|
      ensures HasDepart(s'.departs, s'.machines[i].departId)
         <==> (id == 1 || !HasDepart(s.departs, 1) ==>
                 s.machines[i].departId != id && Edge(s.machines[i].departId, id) !in t)
    {
      MachinePlacedIff(s, id, s.machines[i].departId);
    }
  }

  /** Whether the department a machine ends up in is there after the deletion. */
  lemma MachinePlacedIff(s: Tables, id: int, d: int)
    requires DepartsOk(s) && MachinesOk(s) && HasDepart(s.departs, id) && HasDepart(s.departs, d)
    ensures HasDepart(DeleteDepart(s, id).departs, if d == id || Edge(d, id) in Edges(s.departs) then 1 else d)
       <==> (id == 1 || !HasDepart(s.departs, 1) ==> d != id && Edge(d, id) !in Edges(s.departs))
  {
    DepartRemains(s, id, 1);
    DepartRemains(s, id, d);
    OneIsNoChild(s, id);
  }

  lemma OneIsNoChild(s: Tables, id: int)
    requires DepartsOk(s) && HasDepart(s.departs, id)
    ensures Edge(1, id) !in Edges(s.departs)
  {
    HasDepartIffParent(s.departs, id);
  }

  lemma SameRow(departs: seq<DepartNode>, q: DepartNode, r: DepartNode)
    requires Ordered(Edges(departs)) && q in departs && r in departs && q.id == r.id
    ensures q == r
  {
    var i :| 0 <= i < |departs| && departs[i] == q;
    var j :| 0 <= j < |departs| && departs[j] == r;
    assert Edges(departs)[i].id == Edges(departs)[j].id;
  }

  /** Reassigning keeps every machine in an existing department exactly when the target exists, is 0, or no
      listed machine does. */
  lemma ReassignPlacesIff(s: Tables, ids: seq<int>, departId: int)
    requires MachinesOk(s) && Placed(s)
    ensures Placed(ReassignAll(s, ids, departId))
       <==> departId == 0 || HasDepart(s.departs, departId)
            || forall i :: 0 <= i < |s.machines| ==> s.machines[i].id !in ids
  {
    ReassignAllKeeps(s, ids, departId);
    var s' := ReassignAll(s, ids, departId);
    forall i | 0 <= i < |s.machines|
      ensures HasDepart(s.departs, s.machines[i].departId)
    {
    }
  }

  // ----- Users -----

  predicate UsersPlaced(s: Tables) {
    forall u :: u in s.users ==> HasDepart(s.departs, u.departSecond)
  }

  predicate UsersOk(users: seq<User>) {
    && (forall i :: 0 <= i < |users| ==> users[i].email != "")
    && (forall i, j :: 0 <= i < j < |users| ==> users[i].email != users[j].email)
  }

  lemma {:induction false} WithoutUsersMember(users: seq<User>, departId: int, u: User)
    ensures u in WithoutUsersOf(users, departId) <==> u in users && u.departSecond != departId
  {
    if users != [] {
      WithoutUsersMember(users[1..], departId, u);
    }
  }

  lemma {:induction false} WithoutUsersOk(users: seq<User>, departId: int)
    requires UsersOk(users)
    ensures UsersOk(WithoutUsersOf(users, departId))
  {
    if users != [] {
      WithoutUsersOk(users[1..], departId);
      var r := WithoutUsersOf(users[1..], departId);
      forall j | 0 <= j < |r|
        ensures r[j].email != users[0].email
      {
        WithoutUsersMember(users[1..], departId, r[j]);
      }
    }
  }

  /** Only the deleted department's own users go, not those of the children deleted with it: afterwards every
      user's department exists if and only if no user was in a direct child. */
  lemma DeletePlacesUsersIff(s: Tables, id: int)
    requires DepartsOk(s) && MachinesOk(s) && HasDepart(s.departs, id) && UsersPlaced(s)
    ensures forall u :: u in DeleteDepart(s, id).users <==> u in s.users && u.departSecond != id
    ensures UsersPlaced(DeleteDepart(s, id))
       <==> forall u :: u in s.users ==> Edge(u.departSecond, id) !in Edges(s.departs)
  {
    var s' := DeleteDepart(s, id);
    assert s'.users == WithoutUsersOf(s.users, id);
    hide MachinesOk, DeleteDepart, WithoutUsersOf;
    HasDepartIffParent(s.departs, id);
    forall u
      ensures u in s'.users <==> u in s.users && u.departSecond != id
    {
      WithoutUsersMember(s.users, id, u);
    }
    forall u | u in s.users && u.departSecond != id
      ensures HasDepart(s'.departs, u.departSecond) <==> Edge(u.departSecond, id) !in Edges(s.departs)
    {
      DepartRemains(s, id, u.departSecond);
    }
    assert Edge(id, id) !in Edges(s.departs);
  }

  lemma DepartRemains(s: Tables, id: int, d: int)
    requires DepartsOk(s) && MachinesOk(s) && HasDepart(s.departs, id)
    ensures HasDepart(DeleteDepart(s, id).departs, d)
       <==> HasDepart(s.departs, d) && d != id && Edge(d, id) !in Edges(s.departs)
  {
    hide MachinesOk, DeleteDepart;
    var s' := DeleteDepart(s, id);
    DeleteDepartRemoves(s, id);
    HasDepartMember(s'.departs, d);
    HasDepartMember(s.departs, d);
    if r :| r in s.departs && r.id == d {
      OwnEdge(s.departs, r, id);
      forall q | q in s'.departs && q.id == d
        ensures q == r
      {
        SameRow(s.departs, q, r);
      }
    }
  }

  /** A machine that connects is placed if it is known, or else if department 1 is there. */
  lemma ConnectPlacesIff(s: Tables, uuid: string, ip: string, cpu: string, systeminfo: string)
    requires MachinesOk(s) && Placed(s)
    ensures Placed(Connect(s, uuid, ip, cpu, systeminfo)) <==> Known(s.machines, uuid) || HasDepart(s.departs, 1)
    ensures Connect(s, uuid, ip, cpu, systeminfo).departs == s.departs
  {
    var s' := Connect(s, uuid, ip, cpu, systeminfo);
    if Known(s.machines, uuid) {
      ConnectKnown(s, uuid, ip, cpu, systeminfo);
    } else {
      ConnectUnknown(s, uuid, ip, cpu, systeminfo);
      assert s'.machines[|s.machines|].departId == 1;
    }
  }

  // ----- Every department hangs below department 1 -----

  /** Every department hangs below the given one. */
  predicate AllBelow(s: Tables, root: int)
    requires DepartsOk(s)
  {
    forall i :: 0 <= i < |s.departs| && s.departs[i].id != root ==> Under(Edges(s.departs), root, s.departs[i].id)
  }

  predicate AllBelowRoot(s: Tables)
    requires DepartsOk(s)
  {
    AllBelow(s, UNCATALOGUED)
  }

  predicate HasGrandchildren(t: seq<Edge>, id: int) {
    exists k :: k in Kids(t, id) && Kids(t, k) != []
  }

  /** Climbing is not affected by rows that go, as long as none of them is met on the way. */
  lemma {:induction false} UnderSurvives(t: seq<Edge>, u: seq<Edge>, root: int, id: int, x: int)
    requires Ordered(t) && Ordered(u) && Parent(t, x) >= 0
    requires forall e :: e in u <==> e in t && e.id != id && e.pid != id
    requires id != root && Parent(t, id) >= 0
    requires !HasGrandchildren(t, id) && Parent(u, x) >= 0 && Under(t, root, x)
    ensures Under(u, root, x)
    decreases x
  {
    ParentIffEdge(u, x, Parent(u, x));
    ParentIffEdge(t, x, Parent(u, x));
    var p := Parent(t, x);
    if p != root {
      var g := Parent(t, p);
      ParentIffEdge(t, p, g);
      KidsMember(t, id, p);
      KidsMember(t, p, x);
      ParentIffEdge(u, p, g);
      UnderSurvives(t, u, root, id, p);
    }
  }

  lemma EdgesAfterDelete(s: Tables, id: int)
    requires DepartsOk(s) && MachinesOk(s) && HasDepart(s.departs, id)
    ensures forall e :: e in Edges(DeleteDepart(s, id).departs) <==> e in Edges(s.departs) && e.id != id && e.pid != id
  {
    var s' := DeleteDepart(s, id);
    DeleteDepartRemoves(s, id);
    forall e
      ensures e in Edges(s'.departs) <==> e in Edges(s.departs) && e.id != id && e.pid != id
    {
      EdgeRow(s.departs, e);
      EdgeRow(s'.departs, e);
    }
  }

  lemma EdgeRow(departs: seq<DepartNode>, e: Edge)
    ensures e in Edges(departs) <==> exists r :: r in departs && Edge(r.id, r.pid) == e
  {
    if r :| r in departs && Edge(r.id, r.pid) == e {
      var i :| 0 <= i < |departs| && departs[i] == r;
      assert Edges(departs)[i] == e;
    }
  }

  /** Only the direct children of a deleted department go with it: in a tree below any department, afterwards every
      department still hangs below that one if and only if the deleted one had no grandchildren. */
  lemma DeleteKeepsTreeIff(s: Tables, root: int, id: int)
    requires DepartsOk(s) && MachinesOk(s) && AllBelow(s, root)
    requires HasDepart(s.departs, id) && id != root
    ensures DepartsOk(DeleteDepart(s, id))
    ensures AllBelow(DeleteDepart(s, id), root) <==> !HasGrandchildren(Edges(s.departs), id)
  {
    var s', t, u := DeleteDepart(s, id), Edges(s.departs), Edges(DeleteDepart(s, id).departs);
    DeleteDepartRemoves(s, id);
    EdgesAfterDelete(s, id);
    if HasGrandchildren(t, id) {
      var k :| k in Kids(t, id) && Kids(t, k) != [];
      OrphanLeft(s, root, id, k, Kids(t, k)[0]);
    } else {
      forall i | 0 <= i < |s'.departs| && s'.departs[i].id != root
        ensures Under(u, root, s'.departs[i].id)
      {
        var x := s'.departs[i].id;
        assert s'.departs[i] in s.departs;
        HasDepartIffParent(s.departs, x);
        HasDepartIffParent(s.departs, id);
        HasDepartIffParent(s'.departs, x);
        UnderSurvives(t, u, root, id, x);
      }
    }
  }

  lemma OrphanLeft(s: Tables, root: int, id: int, k: int, g: int)
    requires DepartsOk(s) && MachinesOk(s) && AllBelow(s, root) && HasDepart(s.departs, id) && id != root
    requires k in Kids(Edges(s.departs), id) && g in Kids(Edges(s.departs), k)
    ensures DepartsOk(DeleteDepart(s, id)) && !AllBelow(DeleteDepart(s, id), root)
  {
    var s', t, u := DeleteDepart(s, id), Edges(s.departs), Edges(DeleteDepart(s, id).departs);
    DeleteDepartRemoves(s, id);
    EdgesAfterDelete(s, id);
    RootIsOlder(s, root, id);
    KidIsUnder(t, id, k);
    KidIsUnder(t, k, g);
    KidsMember(t, id, k);
    KidsMember(t, k, g);
    UnderIsYounger(t, id, k);
    UnderIsYounger(t, k, g);
    assert Edge(g, k) in u;
    ParentIffEdge(u, g, k);
    if Parent(u, k) >= 0 {
      ParentIffEdge(u, k, Parent(u, k));
      ParentIffEdge(t, k, Parent(u, k));
    }
    HasDepartIffParent(s'.departs, g);
    var i :| 0 <= i < |s'.departs| && s'.departs[i].id == g;
    assert !Under(u, root, g);
  }

  lemma RootIsOlder(s: Tables, root: int, id: int)
    requires DepartsOk(s) && AllBelow(s, root) && HasDepart(s.departs, id) && id != root
    ensures root < id
  {
    var i :| 0 <= i < |s.departs| && s.departs[i].id == id;
    UnderIsYounger(Edges(s.departs), root, id);
  }

  /** A row added to a tree hangs below its root; the rows that were there still do. */
  lemma AddDepartKeepsTree(s: Tables, root: int, pid: int, parentDepart: string, depart: string)
    requires DepartsOk(s) && AllBelow(s, root) && AddDepart(s, pid, parentDepart, depart).Added?
    ensures DepartsOk(AddDepart(s, pid, parentDepart, depart).s)
    ensures AllBelow(AddDepart(s, pid, parentDepart, depart).s, root)
  {
    var s' := AddDepart(s, pid, parentDepart, depart).s;
    var t, e := Edges(s.departs), Edge(s.nextDepart, pid);
    AddDepartKeeps(s, pid, parentDepart, depart);
    var i :| 0 <= i < |s.departs| && s.departs[i].id == pid;
    HasDepartIffParent(s.departs, pid);
    ParentIffEdge(t + [e], e.id, e.pid);
    forall j | 0 <= j < |s'.departs| && s'.departs[j].id != root
      ensures Under(t + [e], root, s'.departs[j].id)
    {
      if j < |s.departs| {
        UnderExtends(t, e, root, s.departs[j].id);
      } else {
        if pid != root { UnderExtends(t, e, root, pid); }
      }
    }
  }

  lemma {:induction false} ParentExtends(t: seq<Edge>, e: Edge, x: int)
    requires Parent(t, x) >= 0
    ensures Parent(t + [e], x) == Parent(t, x)
  {
    assert (t + [e])[1..] == t[1..] + [e];
    if t[0].id != x {
      ParentExtends(t[1..], e, x);
    }
  }

  lemma {:induction false} UnderExtends(t: seq<Edge>, e: Edge, a: int, x: int)
    requires Ordered(t) && Ordered(t + [e]) && Under(t, a, x)
    ensures Under(t + [e], a, x)
    decreases x
  {
    ParentIffEdge(t, x, 0);
    ParentExtends(t, e, x);
    if Parent(t, x) != a {
      UnderExtends(t, e, a, Parent(t, x));
    }
  }

  // ----- Runs -----

  /** The machine table is sound after every run whatsoever: states are Normal, OffLine or Free, Free machines
      are in department 1, no department is 0, ids and UUIDs are unique; and parents are always older. */
  lemma {:induction false} EveryRunSound(ops: seq<Op>)
    ensures MachinesOk(Run(ops)) && DepartsOk(Run(ops))
  {
    if ops == [] {
      InstalledOk();
    } else {
      var n := |ops| - 1;
      EveryRunSound(ops[..n]);
      ApplySound(Run(ops[..n]), ops[n]);
    }
  }

  /** No email address is ever registered twice. */
  lemma {:induction false} EveryRunUsersOk(ops: seq<Op>)
    ensures UsersOk(Run(ops).users)
  {
    if ops != [] {
      var n := |ops| - 1;
      EveryRunUsersOk(ops[..n]);
      UsersAfter(Run(ops[..n]), ops[n]);
      if ops[n].DeleteDepartOp? {
        WithoutUsersOk(Run(ops[..n]).users, ops[n].id);
      }
    }
  }

  lemma UsersAfter(s: Tables, op: Op)
    ensures op.DeleteDepartOp? ==> Apply(s, op).users == s.users || Apply(s, op).users == WithoutUsersOf(s.users, op.id)
    ensures op.RegisterOp? ==>
              || Apply(s, op).users == s.users
              || (&& Apply(s, op).users == s.users + [User(op.email, op.departId)] && op.email != ""
                  && forall u :: u in s.users ==> u.email != op.email)
    ensures !op.DeleteDepartOp? && !op.RegisterOp? ==> Apply(s, op).users == s.users
  {
    if op.ReassignOp? { ReassignAllUsers(s, op.ids, op.departId); }
  }

  lemma {:induction false} ReassignAllUsers(s: Tables, ids: seq<int>, departId: int)
    ensures ReassignAll(s, ids, departId).users == s.users
  {
    if ids != [] {
      ReassignAllUsers(s, ids[..|ids| - 1], departId);
    }
  }

  lemma InstalledOk()
    ensures MachinesOk(INSTALLED) && DepartsOk(INSTALLED) && RootOk(INSTALLED)
    ensures Placed(INSTALLED) && AllBelowRoot(INSTALLED)
  {
    assert INSTALLED.departs[0].id == 1;
  }

  lemma ApplySound(s: Tables, op: Op)
    requires MachinesOk(s) && DepartsOk(s)
    ensures MachinesOk(Apply(s, op)) && DepartsOk(Apply(s, op))
  {
    hide MachinesOk;
    match op
    case Restart => OrganizeSound(s);
    case ConnectOp(uuid, ip, cpu, systeminfo) => ConnectRegisters(s, uuid, ip, cpu, systeminfo);
    case DisconnectOp(uuid) => DisconnectMarks(s, uuid);
    case ReassignOp(ids, departId) => ReassignAllKeeps(s, ids, departId);
    case RemoveMachineOp(uuid) => RemoveMachineRemoves(s, uuid);
    case AddDepartOp(pid, parentDepart, depart) =>
      if AddDepart(s, pid, parentDepart, depart).Added? {
        AddDepartKeeps(s, pid, parentDepart, depart);
        SameMachines(s, AddDepart(s, pid, parentDepart, depart).s);
      }
    case DeleteDepartOp(id) =>
      if HasDepart(s.departs, id) { DeleteDepartRemoves(s, id); }
    case RegisterOp(email, password, departId) => SameMachines(s, Register(s, email, password, departId));
  }

  lemma SameMachines(s: Tables, s': Tables)
    requires MachinesOk(s) && s'.machines == s.machines && s'.nextMachine == s.nextMachine
    ensures MachinesOk(s')
  {
  }

  lemma OrganizeSound(s: Tables)
    requires MachinesOk(s) && DepartsOk(s)
    ensures MachinesOk(Organize(s)) && DepartsOk(Organize(s))
    ensures RootOk(s) ==> Organize(s) == s
  {
    var s' := Organize(s);
    if s' != s {
      assert Edges(s'.departs) == Edges(s.departs) + [Edge(s.nextDepart, 0)];
    }
    if RootOk(s) {
      var i :| 0 <= i < |s.departs| && s.departs[i].id == 1;
    }
  }

  /** What an administrator can check before asking: a reassignment names an existing department, a deletion is
      not of department 1. */
  predicate Careful(s: Tables, op: Op) {
    && (op.ReassignOp? ==> op.departId == 0 || HasDepart(s.departs, op.departId))
    && (op.DeleteDepartOp? ==> op.id != 1)
  }

  /** Also, no deleted department has departments two levels below it. */
  predicate Tidy(s: Tables, op: Op) {
    Careful(s, op) && (op.DeleteDepartOp? ==> !HasGrandchildren(Edges(s.departs), op.id))
  }

  predicate CarefulRun(ops: seq<Op>) {
    ops == [] || (CarefulRun(ops[..|ops| - 1]) && Careful(Run(ops[..|ops| - 1]), ops[|ops| - 1]))
  }

  predicate TidyRun(ops: seq<Op>) {
    ops == [] || (TidyRun(ops[..|ops| - 1]) && Tidy(Run(ops[..|ops| - 1]), ops[|ops| - 1]))
  }

  /** Whether a request leaves every machine in an existing department, from tables in which it is in one. */
  predicate Safe(s: Tables, op: Op) {
    match op
    case ConnectOp(uuid, _, _, _) => Known(s.machines, uuid) || HasDepart(s.departs, 1)
    case ReassignOp(ids, departId) =>
      || departId == 0 || HasDepart(s.departs, departId)
      || forall i :: 0 <= i < |s.machines| ==> s.machines[i].id !in ids
    case DeleteDepartOp(id) =>
      HasDepart(s.departs, id) && (id == 1 || !HasDepart(s.departs, 1)) ==> EmptyAtAndBelow(s, id)
    case _ => true
  }

  lemma ApplyPlacesIff(s: Tables, op: Op)
    requires MachinesOk(s) && DepartsOk(s) && Placed(s)
    ensures Placed(Apply(s, op)) <==> Safe(s, op)
  {
    hide MachinesOk, DepartsOk, EmptyAtAndBelow, Known;
    match op
    case Restart => MoreDeparts(s, Organize(s));
    case ConnectOp(uuid, ip, cpu, systeminfo) => ConnectPlacesIff(s, uuid, ip, cpu, systeminfo);
    case DisconnectOp(uuid) => DisconnectMarks(s, uuid);
    case ReassignOp(ids, departId) => ReassignPlacesIff(s, ids, departId);
    case RemoveMachineOp(uuid) => RemovePlaces(s, uuid);
    case AddDepartOp(pid, parentDepart, depart) => MoreDeparts(s, Apply(s, op));
    case DeleteDepartOp(id) =>
      if HasDepart(s.departs, id) { DeletePlacesIff(s, id); }
    case RegisterOp(email, password, departId) =>
  }

  lemma MoreDeparts(s: Tables, s': Tables)
    requires Placed(s) && s'.machines == s.machines && s.departs <= s'.departs
    ensures Placed(s')
  {
    forall i | 0 <= i < |s.machines|
      ensures HasDepart(s'.departs, s.machines[i].departId)
    {
      var j :| 0 <= j < |s.departs| && s.departs[j].id == s.machines[i].departId;
      assert s'.departs[j].id == s.machines[i].departId;
    }
  }

  predicate SafeRun(ops: seq<Op>) {
    ops == [] || (SafeRun(ops[..|ops| - 1]) && Safe(Run(ops[..|ops| - 1]), ops[|ops| - 1]))
  }

  /** At no time during the run was a machine in a department that does not exist. */
  predicate PlacedThroughout(ops: seq<Op>) {
    Placed(Run(ops)) && (ops == [] || PlacedThroughout(ops[..|ops| - 1]))
  }

  /** Of all runs, exactly the safe ones keep every machine in an existing department all the time. */
  lemma {:induction false} PlacedThroughoutIff(ops: seq<Op>)
    ensures PlacedThroughout(ops) <==> SafeRun(ops)
  {
    if ops == [] {
      InstalledOk();
    } else {
      var n := |ops| - 1;
      PlacedThroughoutIff(ops[..n]);
      EveryRunSound(ops[..n]);
      if PlacedThroughout(ops[..n]) { ApplyPlacesIff(Run(ops[..n]), ops[n]); }
    }
  }

  /** After every careful run the root row is there, alone, and every machine's department exists. */
  lemma {:induction false} CarefulRunPlaces(ops: seq<Op>)
    requires CarefulRun(ops)
    ensures RootOk(Run(ops)) && Placed(Run(ops)) && SafeRun(ops)
  {
    if ops == [] {
      InstalledOk();
    } else {
      var n := |ops| - 1;
      EveryRunSound(ops[..n]);
      CarefulRunPlaces(ops[..n]);
      ApplyPlacesIff(Run(ops[..n]), ops[n]);
      ApplyKeepsRoot(Run(ops[..n]), ops[n]);
    }
  }

  lemma ApplyKeepsRoot(s: Tables, op: Op)
    requires MachinesOk(s) && DepartsOk(s) && RootOk(s) && Careful(s, op)
    ensures RootOk(Apply(s, op))
  {
    match op
    case Restart => OrganizeSound(s);
    case ReassignOp(ids, departId) => ReassignAllKeeps(s, ids, departId);
    case AddDepartOp(pid, parentDepart, depart) =>
      if AddDepart(s, pid, parentDepart, depart).Added? { AddDepartKeeps(s, pid, parentDepart, depart); }
    case DeleteDepartOp(id) =>
      if HasDepart(s.departs, id) { DeleteKeepsRoot(s, id); }
    case _ =>
  }

  lemma RemovePlaces(s: Tables, uuid: string)
    requires MachinesOk(s) && Placed(s)
    ensures Placed(RemoveMachine(s, uuid)) && RemoveMachine(s, uuid).departs == s.departs
  {
    RemoveMachineRemoves(s, uuid);
    var after := RemoveMachine(s, uuid).machines;
    forall i | 0 <= i < |after|
      ensures HasDepart(s.departs, after[i].departId)
    {
      var j :| 0 <= j < |s.machines| && s.machines[j] == after[i];
    }
  }

  lemma DeleteKeepsRoot(s: Tables, id: int)
    requires DepartsOk(s) && MachinesOk(s) && RootOk(s) && HasDepart(s.departs, id) && id != 1
    ensures RootOk(DeleteDepart(s, id))
  {
    var s' := DeleteDepart(s, id);
    DeleteDepartRemoves(s, id);
    HasDepartIffParent(s.departs, id);
    var r :| r in s.departs && r.id == 1;
    forall q | q in s.departs
      ensures RowOk(q)
    {
      var i :| 0 <= i < |s.departs| && s.departs[i] == q;
    }
  }

  /** After every tidy run the departments form one tree below department 1. */
  lemma {:induction false} TidyRunIsTree(ops: seq<Op>)
    requires TidyRun(ops)
    ensures CarefulRun(ops) && DepartsOk(Run(ops)) && AllBelowRoot(Run(ops))
  {
    if ops == [] {
      InstalledOk();
    } else {
      var n := |ops| - 1;
      EveryRunSound(ops[..n]);
      TidyRunIsTree(ops[..n]);
      CarefulRunPlaces(ops[..n]);
      ApplyKeepsTree(Run(ops[..n]), ops[n]);
    }
  }

  lemma ApplyKeepsTree(s: Tables, op: Op)
    requires MachinesOk(s) && DepartsOk(s) && RootOk(s) && AllBelowRoot(s) && Tidy(s, op)
    ensures DepartsOk(Apply(s, op)) && AllBelowRoot(Apply(s, op))
  {
    ApplySound(s, op);
    match op
    case Restart => OrganizeSound(s);
    case ReassignOp(ids, departId) => ReassignAllKeeps(s, ids, departId);
    case AddDepartOp(pid, parentDepart, depart) =>
      if AddDepart(s, pid, parentDepart, depart).Added? { AddDepartKeepsTree(s, 1, pid, parentDepart, depart); }
    case DeleteDepartOp(id) =>
      if HasDepart(s.departs, id) { DeleteKeepsTreeIff(s, 1, id); }
    case _ =>
  }
}
