/** What each request leaves in the tables, column by column, and what it refuses
    (pkg/app/server/dao/machinemanagerdao.go:58-178, pkg/app/server/service/depart/depart.go:179-275,
    pkg/app/server/service/user/user.go:227-276). */
module StoreEffects {
  import opened Forest
  import opened Sequences
  import opened Store
  import opened Inventory

  // ----- Machines -----

  /** A known machine that connects keeps every column but its state, and its address if a new one is given; an unknown
      one gets one new row, last, in department 1 with all it told. */
  lemma ConnectWrites(s: Tables, uuid: string, ip: string, cpu: string, systeminfo: string)
    requires MachinesOk(s)
    ensures var s' := Connect(s, uuid, ip, cpu, systeminfo);
            && s'.departs == s.departs && s'.users == s.users && s'.nextDepart == s.nextDepart
            && (!Known(s.machines, uuid) ==>
                  && s'.machines == s.machines + [MachineNode(s.nextMachine, 1, ip, uuid, cpu, FREE, systeminfo)]
                  && s'.nextMachine == s.nextMachine + 1)
            && (Known(s.machines, uuid) ==>
                  && s'.nextMachine == s.nextMachine && |s'.machines| == |s.machines|
                  && forall i :: 0 <= i < |s.machines| ==>
                       var m := s.machines[i];
                       s'.machines[i] == if m.uuid != uuid then m
                                         else m.(state := if m.departId == 1 then FREE else NORMAL,
                                                 ip := if ip != "" then ip else m.ip))
  {
    hide Unique;
    FindUuidMember(s.machines, uuid);
    if Known(s.machines, uuid) {
      var i :| 0 <= i < |s.machines| && s.machines[i].uuid == uuid;
      OnlyRow(s.machines, uuid, FindUuid(s.machines, uuid));
    }
  }

  /** The state of a machine after it was moved to a department `k` times: the first move makes a Free machine Normal;
      in department 1 every move turns Free into Normal and anything else into Free. */
  function StateAfter(state: int, departId: int, k: nat): int {
    if k == 0 then state
    else if departId != 1 then if state == FREE then NORMAL else state
    else if (state == FREE) == (k % 2 == 0) then FREE else NORMAL
  }

  /** Reassigning a list of machines, which may name one several times: the department once, the state as often as the
      machine is named. */
  lemma {:induction false} ReassignAllMoves(s: Tables, ids: seq<int>, departId: int)
    requires MachinesOk(s)
    ensures var s' := ReassignAll(s, ids, departId);
            && MachinesOk(s') && s' == s.(machines := s'.machines) && |s'.machines| == |s.machines|
            && forall i :: 0 <= i < |s.machines| ==>
                 var m := s.machines[i];
                 s'.machines[i] == m.(departId := if departId != 0 && m.id in ids then departId else m.departId,
                                      state := StateAfter(m.state, departId, multiset(ids)[m.id]))
  {
    if ids != [] {
      var n := |ids| - 1;
      var before := ReassignAll(s, ids[..n], departId);
      ReassignAllMoves(s, ids[..n], departId);
      ReassignMoves(before, ids[n], departId);
      hide MachinesOk, StateAfter, Reassign;
      forall i | 0 <= i < |s.machines| {
        OneMoreMove(s.machines[i], departId, ids, n);
      }
    } else {
      forall i | 0 <= i < |s.machines| {
        NotMoved(s.machines[i].state, departId);
      }
    }
  }

  lemma NotMoved(state: int, departId: int)
    ensures StateAfter(state, departId, 0) == state
  {
  }

  lemma OneMoreMove(m: MachineNode, departId: int, ids: seq<int>, n: nat)
    requires |ids| == n + 1
    ensures m.id in ids <==> m.id in ids[..n] || m.id == ids[n]
    ensures multiset(ids)[m.id] == multiset(ids[..n])[m.id] + if m.id == ids[n] then 1 else 0
    ensures var state := StateAfter(m.state, departId, multiset(ids[..n])[m.id]);
            StateAfter(m.state, departId, multiset(ids)[m.id])
            == (if m.id != ids[n] then state
                else if state == FREE then NORMAL else if departId == UNCATALOGUED then FREE else state)
  {
    assert ids == ids[..n] + [ids[n]];
  }

  /** Removing takes the machine with the UUID and nothing else; an unknown UUID changes nothing. */
  lemma RemoveMachineTakes(s: Tables, uuid: string)
    requires MachinesOk(s)
    ensures var s' := RemoveMachine(s, uuid);
            && s' == s.(machines := s'.machines) && Unique(s'.machines)
            && (forall m :: m in s'.machines <==> m in s.machines && m.uuid != uuid)
            && (!Known(s.machines, uuid) ==> s' == s)
  {
    RemoveMachineRemoves(s, uuid);
    UuidExistsIff(s, uuid);
  }

  /** A disconnection writes the state of one machine. */
  lemma DisconnectWrites(s: Tables, uuid: string)
    ensures Disconnect(s, uuid) == s.(machines := Disconnect(s, uuid).machines)
    ensures |Disconnect(s, uuid).machines| == |s.machines|
    ensures forall i :: 0 <= i < |s.machines| ==>
              var m := s.machines[i];
              Disconnect(s, uuid).machines[i] == if m.uuid == uuid then m.(state := OFFLINE) else m
  {
  }

  // ----- Departments -----

  predicate Present(departs: seq<DepartNode>, parentDepart: string, depart: string) {
    exists r :: r in departs && r.depart == depart && r.parentDepart == parentDepart
  }

  predicate HasName(departs: seq<DepartNode>, depart: string) {
    exists r :: r in departs && r.depart == depart
  }

  predicate HasRootRow(departs: seq<DepartNode>) {
    exists r :: r in departs && r.nodeLocate == 0
  }

  /** The answer to an addition: the first of the checks that fails, or the new row, which is listed last; it is a root
      row exactly if no parent name is given. */
  lemma AddDepartAnswers(s: Tables, pid: int, parentDepart: string, depart: string)
    ensures var answer, ds := AddDepart(s, pid, parentDepart, depart), s.departs;
            && (answer == Refused(UnknownParentId) <==> !HasDepart(ds, pid))
            && (answer == Refused(AlreadyPresent) <==> HasDepart(ds, pid) && Present(ds, parentDepart, depart))
            && (answer == Refused(UnknownParentName) <==>
                  HasDepart(ds, pid) && !Present(ds, parentDepart, depart)
                  && parentDepart != "" && !HasName(ds, parentDepart))
            && (answer == Refused(NoName) <==>
                  HasDepart(ds, pid) && !Present(ds, parentDepart, depart)
                  && (parentDepart == "" || HasName(ds, parentDepart)) && depart == "")
            && (answer == Refused(SecondRoot) <==>
                  HasDepart(ds, pid) && !Present(ds, parentDepart, depart)
                  && parentDepart == "" && depart != "" && HasRootRow(ds))
    ensures var answer := AddDepart(s, pid, parentDepart, depart);
            answer.Added? ==>
              answer.s == s.(departs := s.departs + [DepartNode(s.nextDepart, pid, parentDepart, depart,
                                                                if parentDepart == "" then 0 else 1)],
                             nextDepart := s.nextDepart + 1)
  {
  }

  /** A deletion writes departments, machines and users; of an unknown department it changes nothing. */
  lemma DeleteDepartTakes(s: Tables, id: int)
    ensures var s' := DeleteDepart(s, id);
            && s' == s.(departs := s'.departs, machines := s'.machines, users := s'.users)
            && (!HasDepart(s.departs, id) ==> s' == s)
            && (HasDepart(s.departs, id) ==> forall u :: u in s'.users <==> u in s.users && u.departSecond != id)
  {
    forall u
      ensures u in WithoutUsersOf(s.users, id) <==> u in s.users && u.departSecond != id
    {
      WithoutUsersMember(s.users, id, u);
    }
  }

  /** The users left stay in their order. */
  lemma {:induction false} WithoutUsersConcat(a: seq<User>, b: seq<User>, departId: int)
    ensures WithoutUsersOf(a + b, departId) == WithoutUsersOf(a, departId) + WithoutUsersOf(b, departId)
  {
    if a == [] {
      assert a + b == b;
    } else {
      var first := if a[0].departSecond == departId then [] else [a[0]];
      var rest, others := WithoutUsersOf(a[1..], departId), WithoutUsersOf(b, departId);
      WithoutUsersConcat(a[1..], b, departId);
      assert WithoutUsersOf(a + b, departId) == first + (rest + others) by {
        assert (a + b)[0] == a[0] && (a + b)[1..] == a[1..] + b;
      }
      assert WithoutUsersOf(a, departId) == first + rest;
      hide *;
      Associative(first, rest, others);
    }
  }

  /** A start makes the root row exactly if no row has parent 0. */
  lemma OrganizeIff(s: Tables)
    ensures Organize(s) == s <==> exists i :: 0 <= i < |s.departs| && s.departs[i].pid == 0
    ensures Organize(s) != s ==>
              Organize(s) == s.(departs := s.departs + [DepartNode(s.nextDepart, 0, "", ORGANIZATION, 0)],
                                nextDepart := s.nextDepart + 1)
  {
    if i :| 0 <= i < |s.departs| && s.departs[i].pid == 0 {
      assert s.departs[i] in s.departs;
    }
  }

  // ----- Users -----

  /** A user is registered exactly if a password and an email address are given and nobody has that address. */
  lemma RegisteredIff(s: Tables, email: string, password: string, departId: int)
    ensures var s' := Register(s, email, password, departId);
            && s' == s.(users := s'.users)
            && (s'.users == s.users + [User(email, departId)] <==>
                  password != "" && email != "" && forall u :: u in s.users ==> u.email != email)
            && (s'.users == s.users || s'.users == s.users + [User(email, departId)])
  {
  }
}
