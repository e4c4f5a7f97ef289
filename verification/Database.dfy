/** The same operations as the services run them: statements one after the other on the two tables, loops over
    query results, lists that grow. Each method is proved against the function on values that specifies it. */
module Database {
  import opened Forest
  import opened Sequences
  import opened Store

  /** A list of ids that callees append to through a pointer. */
  class IdList {
    var items: seq<int>

    constructor ()
      ensures items == []
    {
      items := [];
    }
  }

  class Db {
    var departs: seq<DepartNode>
    var machines: seq<MachineNode>
    var users: seq<User>
    var nextDepart: int
    var nextMachine: int

    ghost function Contents(): Tables
      reads this
    {
      Tables(departs, machines, users, nextDepart, nextMachine)
    }

    constructor (s: Tables)
      ensures Contents() == s
    {
      departs, machines, users := s.departs, s.machines, s.users;
      nextDepart, nextMachine := s.nextDepart, s.nextMachine;
    }

    // ----- Queries -----

    /** `SubDepartId`: select the rows with this parent, then collect their ids. */
    method SubDepartId(id: int) returns (ids: seq<int>)
      ensures ids == Kids(Edges(departs), id)
    {
      ids := CollectIds(RowsBelow(departs, id));
      IdsOfRowsBelow(departs, id);
    }

    /** `FirstDepartId`. */
    method FirstDepartId() returns (ids: seq<int>)
      ensures ids == Kids(Edges(departs), UNCATALOGUED)
    {
      ids := CollectIds(RowsBelow(departs, UNCATALOGUED));
      IdsOfRowsBelow(departs, UNCATALOGUED);
    }

    /** `ReturnSpecifiedDepart`: appends the ids of all departments below `id`. */
    method ReturnSpecifiedDepart(id: int, res: IdList)
      requires Ordered(Edges(departs))
      modifies res
      ensures res.items == old(res.items) + Preorder(Edges(departs), id)
      decreases Gap(Edges(departs), id)
    {
      var t := Edges(departs);
      var temp := SubDepartId(id);
      KidsAreYounger(t, id);
      if |temp| == 0 {
        return;
      }
      for i := 0 to |temp|
        invariant res.items + PreorderAll(t, id, temp[i..]) == old(res.items) + Preorder(t, id)
      {
        ghost var before := res.items;
        res.items := res.items + [temp[i]];
        ReturnSpecifiedDepart(temp[i], res);
        assert temp[i..][1..] == temp[i + 1..];
        AppendTwice(before, [temp[i]], Preorder(t, temp[i]), PreorderAll(t, id, temp[i + 1..]));
      }
      assert temp[|temp|..] == [];
    }

    // ----- Statements on the machine table -----

    /** `ModifyMachineDepart2`. */
    method ModifyMachineDepart2(id: int, departId: int)
      modifies this`machines
      ensures machines == UpdateId(old(machines), id, NO_PATCH.(departId := departId, state := FREE))
    {
      machines := UpdateId(machines, id, NO_PATCH.(departId := departId, state := FREE));
    }

    /** `ModifyMachineDepart`: read the machine, decide what to write, write it. */
    method ModifyMachineDepart(id: int, departId: int)
      modifies this`machines
      ensures Contents() == Reassign(old(Contents()), id, departId)
    {
      var machine := FindId(machines, id);
      var patch := NO_PATCH;
      if machine.state == FREE {
        patch := patch.(departId := departId, state := NORMAL);
      } else {
        if departId == UNCATALOGUED {
          patch := patch.(departId := departId, state := FREE);
        } else {
          patch := patch.(departId := departId);
        }
      }
      machines := UpdateId(machines, id, patch);
    }

    /** `depart.ModifyMachineDepart` on the ids read from its argument. */
    method ReassignMachines(ids: seq<int>, departId: int)
      modifies this`machines
      ensures Contents() == ReassignAll(old(Contents()), ids, departId)
    {
      for i := 0 to |ids|
        invariant Contents() == ReassignAll(old(Contents()), ids[..i], departId)
      {
        ModifyMachineDepart(ids[i], departId);
        assert ids[..i + 1][..i] == ids[..i];
      }
      assert ids[..|ids|] == ids;
    }

    /** `AddAgents2DB`, once the agent has told its system information. */
    method AddAgent(uuid: string, ip: string, cpu: string, systeminfo: string)
      modifies this`machines, this`nextMachine
      ensures Contents() == Connect(old(Contents()), uuid, ip, cpu, systeminfo)
    {
      var machine := FindUuid(machines, uuid);
      var uuidExists := machine.departId != 0;
      if uuidExists {
        if machine.departId != UNCATALOGUED {
          machines := UpdateUuid(machines, uuid, NO_PATCH.(state := NORMAL, ip := ip));
        } else {
          machines := UpdateUuid(machines, uuid, NO_PATCH.(state := FREE, ip := ip));
        }
        return;
      }
      machines := machines + [MachineNode(nextMachine, UNCATALOGUED, ip, uuid, cpu, FREE, systeminfo)];
      nextMachine := nextMachine + 1;
    }

    // ----- Adding and deleting a department -----

    /** `AddDepartMethod`: the checks come in this order and the first that fails decides the answer. */
    method AddDepartment(pid: int, parentDepart: string, depart: string) returns (verdict: Verdict)
      modifies this`departs, this`nextDepart
      ensures AddDepart(old(Contents()), pid, parentDepart, depart)
           == match verdict case Done => Added(Contents()) case Failed(error) => Refused(error)
      ensures verdict.Failed? ==> Contents() == old(Contents())
    {
      if !HasDepart(departs, pid) {
        return Failed(UnknownParentId);
      }
      if exists r :: r in departs && r.depart == depart && r.parentDepart == parentDepart {
        return Failed(AlreadyPresent);
      }
      var parentExists := exists r :: r in departs && r.depart == parentDepart;
      if |parentDepart| != 0 && !parentExists {
        return Failed(UnknownParentName);
      }
      var nodeLocate := UNROOT;
      if |depart| == 0 {
        return Failed(NoName);
      } else if |parentDepart| == 0 {
        if exists r :: r in departs && r.nodeLocate == ROOT {
          return Failed(SecondRoot);
        }
        nodeLocate := ROOT;
      }
      departs := departs + [DepartNode(nextDepart, pid, parentDepart, depart, nodeLocate)];
      nextDepart := nextDepart + 1;
      return Done;
    }

    /** Moves the machines `MachineStore` returned to department 1, one statement each. */
    method MoveOut(departId: int)
      requires UniqueIds(machines)
      modifies this`machines
      ensures machines == EvictFrom(old(machines), [departId])
      ensures UniqueIds(machines)
    {
      hide UpdateId, EvictIds, EvictFrom, UniqueIds, MachineIds;
      var list := InDepart(machines, departId);
      ghost var before := machines;
      EvictNone(before);
      NoIds(list);
      for i := 0 to |list|
        invariant machines == EvictIds(before, MachineIds(list[..i]))
      {
        ModifyMachineDepart2(list[i].id, UNCATALOGUED);
        EvictIdsOneMore(before, MachineIds(list[..i]), list[i].id);
        OneMoreId(list, i);
      }
      assert list[..|list|] == list;
      EvictIdsOfDepart(before, departId);
    }

    /** `DeleteDepartNode`: deletes the rows one after the other. What `Insertdepartlist` returns, the rows
        below the one just deleted, is discarded. */
    method DeleteDepartNode(departInfo: seq<int>, departId: int)
      modifies this`departs
      ensures departs == RemoveDeparts(old(departs), [departId] + departInfo)
    {
      var needdelete := [departId] + departInfo;
      ghost var all, before := needdelete, departs;
      ghost var k := 0;
      RemoveNoDeparts(before);
      while true
        invariant 0 <= k <= |all| && needdelete == all[k..]
        invariant departs == RemoveDeparts(before, all[..k])
        decreases |needdelete|
      {
        if |needdelete| == 0 {
          break;
        }
        departs := RemoveDeparts(departs, [needdelete[0]]);
        RemoveOneMore(before, all[..k], needdelete[0]);
        assert all[..k] + [all[k]] == all[..k + 1];
        var str := needdelete[0];
        needdelete := needdelete[1..];
        var ignored := InsertDepartList(needdelete, str);
        k := k + 1;
      }
      assert all[..k] == all;
    }

    method InsertDepartList(needdelete: seq<int>, id: int) returns (list: seq<int>)
      ensures list == needdelete + Kids(Edges(departs), id)
    {
      hide RowsBelow, Kids;
      list := needdelete;
      var rows := RowsBelow(departs, id);
      for i := 0 to |rows|
        invariant list == needdelete + RowIds(rows[..i])
      {
        list := list + [rows[i].id];
        assert RowIds(rows[..i + 1]) == RowIds(rows[..i]) + [rows[i].id];
      }
      assert rows[..|rows|] == rows;
      IdsOfRowsBelow(departs, id);
    }

    /** `DeleteDepartData`. */
    method DeleteDepartData(id: int) returns (ok: bool)
      requires Ordered(Edges(departs)) && UniqueIds(machines)
      modifies this`departs, this`machines, this`users
      ensures ok == HasDepart(old(departs), id)
      ensures Contents() == DeleteDepart(old(Contents()), id)
    {
      hide Ordered, UniqueIds, EvictFrom, Edges, Kids, RemoveDeparts;
      ghost var before := machines;
      if !HasDepart(departs, id) {
        return false;
      }
      MoveOut(id);
      var subs := SubDepartId(id);
      assert [id] + subs[..0] == [id];
      for i := 0 to |subs|
        invariant departs == old(departs) && users == old(users)
        invariant UniqueIds(machines)
        invariant machines == EvictFrom(before, [id] + subs[..i])
      {
        MoveOut(subs[i]);
        EvictOneMore(before, [id] + subs[..i], subs[i]);
        assert ([id] + subs[..i]) + [subs[i]] == [id] + subs[..i + 1];
      }
      assert subs[..|subs|] == subs;
      DeleteDepartNode(subs, id);
      users := WithoutUsersOf(users, id);
      return true;
    }
  }

  lemma AppendTwice(a: seq<int>, b: seq<int>, c: seq<int>, d: seq<int>)
    ensures a + (b + c + d) == ((a + b) + c) + d
  {
  }

  /** The rows selected by `p_id = ?`. */
  function RowsBelow(departs: seq<DepartNode>, pid: int): seq<DepartNode> {
    if departs == [] then []
    else (if departs[0].pid == pid then [departs[0]] else []) + RowsBelow(departs[1..], pid)
  }

  function RowIds(rows: seq<DepartNode>): (ids: seq<int>)
    ensures |ids| == |rows|
  {
    seq(|rows|, i requires 0 <= i < |rows| => rows[i].id)
  }

  method CollectIds(rows: seq<DepartNode>) returns (ids: seq<int>)
    ensures ids == RowIds(rows)
  {
    ids := [];
    for i := 0 to |rows|
      invariant ids == RowIds(rows[..i])
    {
      ids := ids + [rows[i].id];
    }
    assert rows[..|rows|] == rows;
  }

  lemma {:induction false} IdsOfRowsBelow(departs: seq<DepartNode>, pid: int)
    ensures RowIds(RowsBelow(departs, pid)) == Kids(Edges(departs), pid)
  {
    if departs != [] {
      IdsOfRowsBelow(departs[1..], pid);
      var first := if departs[0].pid == pid then [departs[0]] else [];
      assert Edges(departs)[1..] == Edges(departs[1..]);
    }
  }

  predicate UniqueIds(ms: seq<MachineNode>) {
    forall i, j :: 0 <= i < j < |ms| ==> ms[i].id != ms[j].id
  }

  function MachineIds(ms: seq<MachineNode>): (ids: seq<int>)
    ensures |ids| == |ms|
  {
    seq(|ms|, i requires 0 <= i < |ms| => ms[i].id)
  }

  lemma NoIds(ms: seq<MachineNode>)
    ensures MachineIds(ms[..0]) == []
  {
  }

  lemma OneMoreId(ms: seq<MachineNode>, i: nat)
    requires i < |ms|
    ensures MachineIds(ms[..i + 1]) == MachineIds(ms[..i]) + [ms[i].id]
  {
  }

  function EvictIds(ms: seq<MachineNode>, ids: seq<int>): (r: seq<MachineNode>)
    ensures |r| == |ms|
  {
    seq(|ms|, i requires 0 <= i < |ms| => if ms[i].id in ids then Evict(ms[i]) else ms[i])
  }

  lemma EvictNone(ms: seq<MachineNode>)
    ensures EvictIds(ms, []) == ms
  {
  }

  lemma EvictIdsOneMore(ms: seq<MachineNode>, ids: seq<int>, id: int)
    ensures UpdateId(EvictIds(ms, ids), id, NO_PATCH.(departId := UNCATALOGUED, state := FREE))
         == EvictIds(ms, ids + [id])
  {
  }

  /** Updating by the ids found in a department is updating the machines of that department. */
  lemma EvictIdsOfDepart(ms: seq<MachineNode>, departId: int)
    requires UniqueIds(ms)
    ensures EvictIds(ms, MachineIds(InDepart(ms, departId))) == EvictFrom(ms, [departId])
    ensures UniqueIds(EvictFrom(ms, [departId]))
  {
    var list := InDepart(ms, departId);
    var ids := MachineIds(list);
    forall j | 0 <= j < |ms|
      ensures ms[j].id in ids <==> ms[j].departId == departId
    {
      InDepartMember(ms, departId, ms[j]);
      if ms[j].departId == departId {
        var i :| 0 <= i < |list| && list[i] == ms[j];
        assert ids[i] == ms[j].id;
      }
      if ms[j].id in ids {
        var i :| 0 <= i < |ids| && ids[i] == ms[j].id;
        InDepartMember(ms, departId, list[i]);
      }
    }
  }

  lemma {:induction false} InDepartMember(ms: seq<MachineNode>, departId: int, m: MachineNode)
    ensures m in InDepart(ms, departId) <==> m in ms && m.departId == departId
  {
    if ms != [] {
      InDepartMember(ms[1..], departId, m);
    }
  }

  /** The rows of a department are listed in table order. */
  lemma {:induction false} InDepartConcat(a: seq<MachineNode>, b: seq<MachineNode>, departId: int)
    ensures InDepart(a + b, departId) == InDepart(a, departId) + InDepart(b, departId)
  {
    if a == [] {
      assert a + b == b;
    } else {
      var first := if a[0].departId == departId then [a[0]] else [];
      var rest, others := InDepart(a[1..], departId), InDepart(b, departId);
      InDepartConcat(a[1..], b, departId);
      assert InDepart(a + b, departId) == first + (rest + others) by {
        assert (a + b)[0] == a[0] && (a + b)[1..] == a[1..] + b;
      }
      assert InDepart(a, departId) == first + rest;
      hide *;
      Associative(first, rest, others);
    }
  }

  lemma {:induction false} RemoveNoDeparts(departs: seq<DepartNode>)
    ensures RemoveDeparts(departs, []) == departs
  {
    if departs != [] {
      RemoveNoDeparts(departs[1..]);
    }
  }

  lemma {:induction false} RemoveOneMore(departs: seq<DepartNode>, ids: seq<int>, id: int)
    ensures RemoveDeparts(RemoveDeparts(departs, ids), [id]) == RemoveDeparts(departs, ids + [id])
  {
    if departs != [] {
      RemoveOneMore(departs[1..], ids, id);
      var rest := RemoveDeparts(departs[1..], ids);
      if departs[0].id !in ids {
      } else {
        assert RemoveDeparts(departs, ids) == rest;
      }
    }
  }

  /** Evicting department after department is evicting all of them: a machine already moved to department 1
      is not changed by being moved there again. */
  lemma EvictOneMore(ms: seq<MachineNode>, departIds: seq<int>, departId: int)
    ensures EvictFrom(EvictFrom(ms, departIds), [departId]) == EvictFrom(ms, departIds + [departId])
  {
  }
}
