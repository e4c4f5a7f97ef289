/** Runs of the department and machine tables that exist: one with departments three levels deep and machines and
    users in them, and the deletions that break what deletions usually keep. */
module InventoryRuns {
  import opened Forest
  import opened Store
  import opened Inventory
  import opened Cluster

  const ROOT_ROW := DepartNode(1, 0, "", ORGANIZATION, ROOT)

  /** Department 2 below the root, 3 below 2, 4 below 3; one machine in 3, one in 2, one unassigned and offline;
      a user in 3. */
  const BUSY := Tables(
    [ROOT_ROW, DepartNode(2, 1, ORGANIZATION, "A", UNROOT), DepartNode(3, 2, "A", "B", UNROOT),
     DepartNode(4, 3, "B", "C", UNROOT)],
    [MachineNode(1, 3, "10.0.0.1", "u1", "", NORMAL, ""), MachineNode(2, 2, "10.0.0.2", "u2", "", NORMAL, ""),
     MachineNode(3, 1, "10.0.0.3", "u3", "", OFFLINE, "")],
    [User("a@b", 3)], 5, 4)

  ghost predicate TidyReachable(s: Tables) {
    exists ops :: TidyRun(ops) && Run(ops) == s
  }

  lemma NextTidy(s: Tables, op: Op)
    requires TidyReachable(s) && Tidy(s, op)
    ensures TidyReachable(Apply(s, op))
  {
    hide Apply, Tidy;
    var ops :| TidyRun(ops) && Run(ops) == s;
    assert (ops + [op])[..|ops + [op]| - 1] == ops;
    assert TidyRun(ops + [op]) && Run(ops + [op]) == Apply(s, op);
  }

  lemma InstalledTables()
    ensures INSTALLED == Tables([ROOT_ROW], [], [], 2, 1) && TidyReachable(INSTALLED)
  {
    assert TidyRun([]) && Run([]) == INSTALLED;
  }

  lemma TidySound(s: Tables)
    requires TidyReachable(s)
    ensures MachinesOk(s) && DepartsOk(s) && RootOk(s) && Placed(s) && AllBelowRoot(s)
  {
    hide MachinesOk, DepartsOk, RootOk, Placed, AllBelowRoot;
    var ops :| TidyRun(ops) && Run(ops) == s;
    EveryRunSound(ops);
    TidyRunIsTree(ops);
    CarefulRunPlaces(ops);
  }

  lemma AddsRow(s: Tables, pid: int, parentDepart: string, depart: string, row: DepartNode, i: nat, j: nat)
    requires i < |s.departs| && s.departs[i].id == pid && j < |s.departs|
    requires s.departs[j].depart == parentDepart != "" && depart != ""
    requires forall r :: r in s.departs ==> r.depart != depart
    requires row == DepartNode(s.nextDepart, pid, parentDepart, depart, UNROOT)
    ensures Apply(s, AddDepartOp(pid, parentDepart, depart))
         == s.(departs := s.departs + [row], nextDepart := s.nextDepart + 1)
  {
    assert s.departs[j] in s.departs;
  }

  lemma AddedRow(s: Tables, pid: int, parentDepart: string, depart: string, row: DepartNode, i: nat, j: nat)
    requires TidyReachable(s) && i < |s.departs| && s.departs[i].id == pid && j < |s.departs|
    requires s.departs[j].depart == parentDepart != "" && depart != ""
    requires forall r :: r in s.departs ==> r.depart != depart
    requires row == DepartNode(s.nextDepart, pid, parentDepart, depart, UNROOT)
    ensures TidyReachable(s.(departs := s.departs + [row], nextDepart := s.nextDepart + 1))
  {
    hide TidyReachable;
    AddsRow(s, pid, parentDepart, depart, row, i, j);
    NextTidy(s, AddDepartOp(pid, parentDepart, depart));
  }

  lemma ThreeLevels()
    ensures TidyReachable(Tables(BUSY.departs, [], [], 5, 1))
  {
    hide TidyReachable;
    InstalledTables();
    assert |ORGANIZATION| == 3;
    var rows := BUSY.departs;
    AddedRow(Tables([rows[0]], [], [], 2, 1), 1, ORGANIZATION, "A", rows[1], 0, 0);
    assert [rows[0]] + [rows[1]] == rows[..2];
    LastTwoLevels(rows);
  }

  lemma LastTwoLevels(rows: seq<DepartNode>)
    requires rows == BUSY.departs && TidyReachable(Tables(rows[..2], [], [], 3, 1))
    ensures TidyReachable(Tables(rows, [], [], 5, 1))
  {
    hide TidyReachable;
    assert |ORGANIZATION| == 3;
    AddedRow(Tables(rows[..2], [], [], 3, 1), 2, "A", "B", rows[2], 1, 1);
    assert rows[..2] + [rows[2]] == rows[..3];
    AddedRow(Tables(rows[..3], [], [], 4, 1), 3, "B", "C", rows[3], 2, 2);
    assert rows[..3] + [rows[3]] == rows;
  }

  lemma NewMachine(s: Tables, m: MachineNode)
    requires TidyReachable(s) && !Known(s.machines, m.uuid)
    requires m.id == s.nextMachine && m.departId == UNCATALOGUED && m.state == FREE
    ensures TidyReachable(s.(machines := s.machines + [m], nextMachine := s.nextMachine + 1))
  {
    hide TidyReachable;
    NextTidy(s, ConnectOp(m.uuid, m.ip, m.cpu, m.systeminfo));
    FindUuidMember(s.machines, m.uuid);
  }

  /** A Free machine is moved to an existing department. */
  lemma MovedMachine(s: Tables, i: nat, departId: int)
    requires TidyReachable(s) && MachinesOk(s) && i < |s.machines| && s.machines[i].state == FREE
    requires HasDepart(s.departs, departId) && departId != 0
    ensures TidyReachable(s.(machines := s.machines[i := s.machines[i].(departId := departId, state := NORMAL)]))
  {
    hide TidyReachable;
    var id := s.machines[i].id;
    NextTidy(s, ReassignOp([id], departId));
    ReassignMoves(s, id, departId);
    assert [id][..0] == [];
    assert ReassignAll(s, [id], departId) == Reassign(s, id, departId);
    assert Reassign(s, id, departId).machines == s.machines[i := s.machines[i].(departId := departId, state := NORMAL)];
  }

  lemma ThreeMachines()
    ensures TidyReachable(BUSY.(users := [], machines := [
              MachineNode(1, 1, "10.0.0.1", "u1", "", FREE, ""), MachineNode(2, 1, "10.0.0.2", "u2", "", FREE, ""),
              MachineNode(3, 1, "10.0.0.3", "u3", "", FREE, "")]))
  {
    hide TidyReachable;
    ThreeLevels();
    var s := Tables(BUSY.departs, [], [], 5, 1);
    var m1 := MachineNode(1, 1, "10.0.0.1", "u1", "", FREE, "");
    var m2 := MachineNode(2, 1, "10.0.0.2", "u2", "", FREE, "");
    var m3 := MachineNode(3, 1, "10.0.0.3", "u3", "", FREE, "");
    NewMachine(s, m1);
    assert [] + [m1] == [m1] && [m1] + [m2] == [m1, m2] && [m1, m2] + [m3] == [m1, m2, m3];
    assert "u1"[1] == '1' && "u2"[1] == '2' && "u3"[1] == '3';
    NewMachine(s.(machines := [m1], nextMachine := 2), m2);
    NewMachine(s.(machines := [m1, m2], nextMachine := 3), m3);
  }

  /** A tidy run reaches these tables. */
  lemma BusyIsReached()
    ensures TidyReachable(BUSY)
  {
    hide TidyReachable;
    ThreeMachines();
    var m1, m2, m3 := BUSY.machines[0], BUSY.machines[1], BUSY.machines[2];
    var f1, f2, f3 := m1.(departId := 1, state := FREE), m2.(departId := 1, state := FREE), m3.(state := FREE);
    var s0 := BUSY.(users := [], machines := [f1, f2, f3]);
    TidySound(s0);
    assert s0.departs[2].id == 3 && s0.departs[1].id == 2;
    MovedMachine(s0, 0, 3);
    var s1 := s0.(machines := [m1, f2, f3]);
    assert s0.machines[0 := m1] == s1.machines;
    TidySound(s1);
    MovedMachine(s1, 1, 2);
    var s2 := s0.(machines := [m1, m2, f3]);
    assert s1.machines[1 := m2] == s2.machines;
    OfflineAndUser(s2);
  }

  lemma OfflineAndUser(s: Tables)
    requires TidyReachable(s)
    requires s == BUSY.(users := [], machines := [BUSY.machines[0], BUSY.machines[1], BUSY.machines[2].(state := FREE)])
    ensures TidyReachable(BUSY)
  {
    hide TidyReachable;
    TidySound(s);
    assert "u1"[1] == '1' && "u2"[1] == '2' && "u3"[1] == '3';
    NextTidy(s, DisconnectOp("u3"));
    DisconnectMarks(s, "u3");
    assert Disconnect(s, "u3").machines == BUSY.machines;
    NextTidy(s.(machines := BUSY.machines), RegisterOp("a@b", "secret", 3));
    assert [] + [User("a@b", 3)] == [User("a@b", 3)];
  }

  /** From there: deleting department 2 cuts department 4 off and leaves the user in a department that is gone,
      deleting department 1 leaves machines in it, and so does a reassignment to a department that never was. */
  lemma DeletionsThatBreak()
    ensures TidyReachable(BUSY) && DepartsOk(BUSY) && UsersPlaced(BUSY)
    ensures DepartsOk(DeleteDepart(BUSY, 2)) && !AllBelowRoot(DeleteDepart(BUSY, 2))
    ensures !UsersPlaced(DeleteDepart(BUSY, 2))
    ensures !Placed(DeleteDepart(BUSY, 1))
    ensures !Placed(ReassignAll(BUSY, [1], 9))
  {
    BusyIsReached();
    TidySound(BUSY);
    hide TidyReachable, MachinesOk, RootOk, AllBelowRoot, DeleteDepart, Kids, ReassignAll;
    var t := Edges(BUSY.departs);
    assert t[1] == Edge(2, 1) && t[2] == Edge(3, 2) && t[3] == Edge(4, 3);
    assert BUSY.departs[0].id == 1 && BUSY.departs[1].id == 2 && BUSY.departs[2].id == 3;
    KidsMember(t, 2, 3);
    KidsMember(t, 3, 4);
    DeleteKeepsTreeIff(BUSY, 1, 2);
    assert BUSY.users[0] in BUSY.users;
    DeletePlacesUsersIff(BUSY, 2);
    assert BUSY.machines[2].departId == 1;
    DeletePlacesIff(BUSY, 1);
    assert BUSY.machines[0].id in [1];
    ReassignPlacesIff(BUSY, [1], 9);
  }

  /** What the statistics show there: the branch of department 2 has the two Normal machines, the offline one sits
      in department 1, and together they are the overview. */
  lemma BusyCounts()
    ensures DepartsOk(BUSY) && Kids(Edges(BUSY.departs), 1) == [2]
    ensures StatusOf(BUSY.machines) == AgentStatus(2, 1, 0)
    ensures SumOfBranches(Edges(BUSY.departs), BUSY.machines, [2], NORMAL) == 2
    ensures CountIn(BUSY.machines, [1], OFFLINE) == 1
  {
    hide TidyReachable, Preorder, AtOrUnder, InState, CountIn, CountStray;
    BusyIsReached();
    TidySound(BUSY);
    var t, ms := Edges(BUSY.departs), BUSY.machines;
    assert t == [Edge(1, 0), Edge(2, 1), Edge(3, 2), Edge(4, 3)];
    assert t[1..] == [Edge(2, 1), Edge(3, 2), Edge(4, 3)] && t[1..][1..] == [Edge(3, 2), Edge(4, 3)];
    assert Kids([Edge(3, 2), Edge(4, 3)], 1) == [];
    CountThree(ms[0], ms[1], ms[2], NORMAL);
    CountThree(ms[0], ms[1], ms[2], OFFLINE);
    CountThree(ms[0], ms[1], ms[2], FREE);
    OverviewIsSum(BUSY, NORMAL);
    NoneStray(BUSY, NORMAL);
  }

  lemma CountThree(a: MachineNode, b: MachineNode, c: MachineNode, state: int)
    ensures InState([a, b, c], state)
         == (if a.state == state then 1 else 0) + (if b.state == state then 1 else 0)
            + if c.state == state then 1 else 0
    ensures a.departId != 1 && b.departId != 1 && c.departId == 1 ==>
              CountIn([a, b, c], [1], state) == if c.state == state then 1 else 0
  {
    assert [a, b, c][1..] == [b, c] && [b, c][1..] == [c] && [c][1..] == [];
    assert [1][0] == 1;
    assert InState([b, c], state) == (if b.state == state then 1 else 0) + InState([c], state);
    assert CountIn([b, c], [1], state)
        == (if b.state == state && b.departId in [1] then 1 else 0) + CountIn([c], [1], state);
  }

  ghost predicate Reachable(s: Tables) {
    exists ops :: Run(ops) == s
  }

  lemma Next(s: Tables, op: Op)
    requires Reachable(s)
    ensures Reachable(Apply(s, op))
  {
    hide Apply;
    var ops :| Run(ops) == s;
    assert (ops + [op])[..|ops + [op]| - 1] == ops;
    assert Run(ops + [op]) == Apply(s, op);
  }

  const NOTHING := Tables([], [], [], 2, 1)
  const ROOT_TWO := Tables([ROOT_ROW.(id := 2)], [], [], 3, 1)

  lemma NothingReached()
    ensures Reachable(NOTHING)
  {
    InstalledTables();
    RunReachable([]);
    hide Reachable, DeleteDepart;
    NothingLeft();
    Next(INSTALLED, DeleteDepartOp(1));
  }

  /** Deleting department 1 of a new installation leaves no row at all, so no root row; starting again makes a root
      row with another number. */
  lemma RootWithAnotherNumber()
    ensures Reachable(NOTHING) && Reachable(ROOT_TWO)
  {
    NothingReached();
    hide Reachable;
    Next(NOTHING, Restart);
    assert [] + [ROOT_ROW.(id := 2)] == ROOT_TWO.departs;
  }

  lemma RunReachable(ops: seq<Op>)
    ensures Reachable(Run(ops))
  {
  }

  /** Department 3 below a root row that is not row 1, with one machine in it. */
  const MOVED := Tables([ROOT_ROW.(id := 2), DepartNode(3, 2, ORGANIZATION, "A", UNROOT)],
                        [MachineNode(1, 3, "", "u", "", NORMAL, "")], [], 4, 2)

  lemma MovedIsReached()
    ensures Reachable(MOVED)
  {
    hide Reachable;
    RootWithAnotherNumber();
    var free := MachineNode(1, 1, "", "u", "", FREE, "");
    var s1, s2 := Tables(MOVED.departs, [], [], 4, 1), Tables(MOVED.departs, [free], [], 4, 2);
    AddedBelowTwo();
    Next(s1, ConnectOp("u", "", "", ""));
    assert Apply(s1, ConnectOp("u", "", "", "")).machines == s2.machines;
    Next(s2, ReassignOp([1], 3));
    assert Apply(s2, ReassignOp([1], 3)) == MOVED by { MovedByOne(s2); }
  }

  lemma MovedByOne(s: Tables)
    requires s == MOVED.(machines := [MachineNode(1, 1, "", "u", "", FREE, "")])
    ensures ReassignAll(s, [1], 3) == MOVED
  {
    assert [1][..0] == [];
    assert ReassignAll(s, [1], 3) == Reassign(s, 1, 3);
    assert Reassign(s, 1, 3).machines == MOVED.machines;
  }

  lemma AddedBelowTwo()
    requires Reachable(ROOT_TWO)
    ensures Reachable(Tables(MOVED.departs, [], [], 4, 1))
  {
    hide Reachable;
    assert |ORGANIZATION| == 3;
    AddsRow(ROOT_TWO, 2, ORGANIZATION, "A", MOVED.departs[1], 0, 0);
    assert ROOT_TWO.departs + [MOVED.departs[1]] == MOVED.departs;
    Next(ROOT_TWO, AddDepartOp(2, ORGANIZATION, "A"));
  }

  /** Where department 1 is gone, a new machine that connects is stored in a department that does not exist, and so is
      every machine of a department that is deleted later, although its own department was there. */
  lemma WithoutDepartmentOne()
    ensures Reachable(NOTHING) && Placed(NOTHING) && !Placed(Connect(NOTHING, "u", "", "", ""))
    ensures Reachable(MOVED) && Placed(MOVED) && !Placed(DeleteDepart(MOVED, 3))
  {
    RootWithAnotherNumber();
    MovedIsReached();
    hide Reachable, DeleteDepart;
    ConnectPlacesIff(NOTHING, "u", "", "", "");
    assert MOVED.departs[1].id == 3;
    assert Edges(MOVED.departs) == [Edge(2, 0), Edge(3, 2)];
    DeletePlacesIff(MOVED, 3);
    assert MOVED.machines[0].departId == 3;
  }

  lemma NothingLeft()
    ensures DeleteDepart(INSTALLED, 1) == NOTHING
  {
    InstalledTables();
    var s' := DeleteDepart(INSTALLED, 1);
    TidySound(INSTALLED);
    DeleteDepartRemoves(INSTALLED, 1);
    assert forall r :: r !in s'.departs;
    NoMembers(s'.departs);
  }

  lemma NoMembers(departs: seq<DepartNode>)
    ensures (forall r :: r !in departs) ==> departs == []
  {
    if departs != [] {
      assert departs[0] in departs;
    }
  }
}
