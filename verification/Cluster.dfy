/** Cluster statistics: the counts over all machines and the counts per first-level department
    (pkg/app/server/service/cluster/cluster.go). */
module Cluster {
  import opened Forest
  import opened Sequences
  import opened Store
  import opened Inventory
  import opened Database

  datatype AgentStatus = AgentStatus(normal: nat, offline: nat, free: nat)

  datatype DepartMachineInfo = DepartMachineInfo(departName: string, status: AgentStatus)

  datatype ClusterAnswer = NoMachines | ClusterInfoParam(total: nat, status: AgentStatus)

  /** The machines in the given state. */
  function InState(ms: seq<MachineNode>, state: int): nat {
    if ms == [] then 0 else (if ms[0].state == state then 1 else 0) + InState(ms[1..], state)
  }

  function StatusOf(ms: seq<MachineNode>): AgentStatus {
    AgentStatus(InState(ms, NORMAL), InState(ms, OFFLINE), InState(ms, FREE))
  }

  method AgentStatusCounts(ms: seq<MachineNode>) returns (normal: nat, offline: nat, free: nat)
    ensures AgentStatus(normal, offline, free) == StatusOf(ms)
  {
    normal, offline, free := 0, 0, 0;
    for i := 0 to |ms|
      invariant normal + InState(ms[i..], NORMAL) == InState(ms, NORMAL)
      invariant offline + InState(ms[i..], OFFLINE) == InState(ms, OFFLINE)
      invariant free + InState(ms[i..], FREE) == InState(ms, FREE)
    {
      assert ms[i..][1..] == ms[i + 1..];
      var state := ms[i].state;
      if state == FREE {
        free := free + 1;
      } else if state == OFFLINE {
        offline := offline + 1;
      } else if state == NORMAL {
        normal := normal + 1;
      }
    }
  }

  /** When every machine is in one of the three states, the three counts add up to the number of machines. */
  lemma {:induction false} StatesAddUp(ms: seq<MachineNode>)
    requires forall i :: 0 <= i < |ms| ==> ms[i].state == NORMAL || ms[i].state == OFFLINE || ms[i].state == FREE
    ensures InState(ms, NORMAL) + InState(ms, OFFLINE) + InState(ms, FREE) == |ms|
  {
    if ms != [] {
      StatesAddUp(ms[1..]);
    }
  }

  method ClusterInfo(db: Db) returns (answer: ClusterAnswer)
    ensures answer == if db.machines == [] then NoMachines else ClusterInfoParam(|db.machines|, StatusOf(db.machines))
  {
    if |db.machines| == 0 {
      return NoMachines;
    }
    var normal, offline, free := AgentStatusCounts(db.machines);
    return ClusterInfoParam(|db.machines|, AgentStatus(normal, offline, free));
  }

  /** In every state any run can reach, the three counts of the overview add up to its total. */
  lemma OverviewAddsUp(ops: seq<Op>)
    ensures var status := StatusOf(Run(ops).machines);
            status.normal + status.offline + status.free == |Run(ops).machines|
  {
    EveryRunSound(ops);
    StatesAddUp(Run(ops).machines);
  }

  // ----- Counts by department -----

  /** The machines in the given state whose department is listed. */
  function CountIn(ms: seq<MachineNode>, departIds: seq<int>, state: int): nat {
    if ms == [] then 0
    else (if ms[0].state == state && ms[0].departId in departIds then 1 else 0) + CountIn(ms[1..], departIds, state)
  }

  function MachinesOf(ms: seq<MachineNode>, departIds: seq<int>): seq<MachineNode> {
    if departIds == [] then [] else InDepart(ms, departIds[0]) + MachinesOf(ms, departIds[1..])
  }

  /** `SomeDepartMachine`: one query per department, the results joined. */
  method SomeDepartMachine(db: Db, departIds: seq<int>) returns (lists: seq<MachineNode>)
    ensures lists == MachinesOf(db.machines, departIds)
  {
    lists := [];
    for i := 0 to |departIds|
      invariant lists + MachinesOf(db.machines, departIds[i..]) == MachinesOf(db.machines, departIds)
    {
      assert departIds[i..][1..] == departIds[i + 1..];
      var list := InDepart(db.machines, departIds[i]);
      lists := lists + list;
    }
    assert departIds[|departIds|..] == [];
  }

  lemma {:induction false} MachinesOfConcat(ms: seq<MachineNode>, a: seq<int>, b: seq<int>)
    ensures MachinesOf(ms, a + b) == MachinesOf(ms, a) + MachinesOf(ms, b)
    ensures forall id :: MachinesOf(ms, [id]) == InDepart(ms, id)
  {
    hide InDepart;
    forall id: int
      ensures MachinesOf(ms, [id]) == InDepart(ms, id)
    {
      assert [id][1..] == [];
    }
    if a == [] {
      assert a + b == b;
    } else {
      assert (a + b)[0] == a[0] && (a + b)[1..] == a[1..] + b;
      MachinesOfConcat(ms, a[1..], b);
    }
  }

  lemma {:induction false} InStateConcat(a: seq<MachineNode>, b: seq<MachineNode>, state: int)
    ensures InState(a + b, state) == InState(a, state) + InState(b, state)
  {
    if a == [] {
      assert a + b == b;
    } else {
      assert (a + b)[1..] == a[1..] + b;
      InStateConcat(a[1..], b, state);
    }
  }

  lemma {:induction false} CountInNone(ms: seq<MachineNode>, state: int)
    ensures CountIn(ms, [], state) == 0
  {
    if ms != [] {
      CountInNone(ms[1..], state);
    }
  }

  lemma {:induction false} CountInOneMore(ms: seq<MachineNode>, departIds: seq<int>, state: int)
    requires departIds != [] && departIds[0] !in departIds[1..]
    ensures CountIn(ms, departIds, state)
         == InState(InDepart(ms, departIds[0]), state) + CountIn(ms, departIds[1..], state)
  {
    if ms != [] {
      CountInOneMore(ms[1..], departIds, state);
      InStateConcat(if ms[0].departId == departIds[0] then [ms[0]] else [], InDepart(ms[1..], departIds[0]), state);
    }
  }

  /** Joining the query results of distinct departments counts each machine once. */
  lemma {:induction false} JoinedCount(ms: seq<MachineNode>, departIds: seq<int>, state: int)
    requires Distinct(departIds)
    ensures InState(MachinesOf(ms, departIds), state) == CountIn(ms, departIds, state)
  {
    if departIds == [] {
      CountInNone(ms, state);
    } else {
      JoinedCount(ms, departIds[1..], state);
      InStateConcat(InDepart(ms, departIds[0]), MachinesOf(ms, departIds[1..]), state);
      CountInOneMore(ms, departIds, state);
    }
  }

  /** A department with everything below it. */
  function Branch(t: seq<Edge>, id: int): seq<int>
    requires Ordered(t)
  {
    [id] + Preorder(t, id)
  }

  lemma BranchDistinct(t: seq<Edge>, id: int)
    requires Ordered(t)
    ensures Distinct(Branch(t, id))
    ensures forall x :: x in Branch(t, id) <==> AtOrUnder(t, id, x)
  {
    PreorderDistinct(t, id);
    forall x
      ensures x in Branch(t, id) <==> AtOrUnder(t, id, x)
    {
      PreorderMember(t, id, x);
    }
    PreorderMember(t, id, id);
    if Under(t, id, id) {
      UnderIsYounger(t, id, id);
    }
  }

  function DepartName(departs: seq<DepartNode>, id: int): string {
    if departs == [] then "" else if departs[0].id == id then departs[0].depart else DepartName(departs[1..], id)
  }

  /** The name answered is that of the row with the id, or "" if there is none. */
  lemma {:induction false} DepartNameIff(departs: seq<DepartNode>, id: int)
    ensures HasDepart(departs, id) ==>
              exists i :: 0 <= i < |departs| && departs[i].id == id && departs[i].depart == DepartName(departs, id)
    ensures !HasDepart(departs, id) ==> DepartName(departs, id) == ""
  {
    if departs != [] {
      DepartNameIff(departs[1..], id);
      if departs[0].id == id {
        assert departs[0].depart == DepartName(departs, id);
      } else if i :| 0 <= i < |departs| && departs[i].id == id {
        assert departs[1..][i - 1].id == id;
        var rest := departs[1..];
        var j :| 0 <= j < |rest| && rest[j].id == id && rest[j].depart == DepartName(departs, id);
        assert departs[j + 1].id == id;
      }
    }
  }

  /** The entry for one first-level department. */
  function Entry(db: Tables, id: int): DepartMachineInfo
    requires Ordered(Edges(db.departs))
  {
    var branch := Branch(Edges(db.departs), id);
    DepartMachineInfo(DepartName(db.departs, id),
                      AgentStatus(CountIn(db.machines, branch, NORMAL), CountIn(db.machines, branch, OFFLINE),
                                  CountIn(db.machines, branch, FREE)))
  }

  method DepartClusterInfo(db: Db) returns (infos: seq<DepartMachineInfo>)
    requires Ordered(Edges(db.departs))
    ensures var kids := Kids(Edges(db.departs), UNCATALOGUED);
            |infos| == |kids| && forall i :: 0 <= i < |kids| ==> infos[i] == Entry(db.Contents(), kids[i])
  {
    hide Entry, Kids, Ordered, Edges;
    infos := [];
    ghost var s := db.Contents();
    var ids := db.FirstDepartId();
    for i := 0 to |ids|
      invariant db.Contents() == s
      invariant |infos| == i && forall j :: 0 <= j < i ==> infos[j] == Entry(s, ids[j])
    {
      var info := DepartEntry(db, ids[i]);
      infos := infos + [info];
    }
  }

  /** One turn of that loop: the ids of the branch, its machines, their counts. */
  method DepartEntry(db: Db, id: int) returns (info: DepartMachineInfo)
    requires Ordered(Edges(db.departs))
    ensures info == Entry(db.Contents(), id)
  {
    hide Preorder, Edges, Ordered, InState, CountIn, MachinesOf;
    var departIds := new IdList();
    departIds.items := departIds.items + [id];
    db.ReturnSpecifiedDepart(id, departIds);
    assert departIds.items == Branch(Edges(db.departs), id);
    var lists := SomeDepartMachine(db, departIds.items);
    var normal, offline, free := AgentStatusCounts(lists);
    BranchCounts(db.Contents(), id);
    info := DepartMachineInfo(DepartName(db.departs, id), AgentStatus(normal, offline, free));
  }

  lemma BranchCounts(s: Tables, id: int)
    requires Ordered(Edges(s.departs))
    ensures StatusOf(MachinesOf(s.machines, Branch(Edges(s.departs), id))) == Entry(s, id).status
  {
    var branch := Branch(Edges(s.departs), id);
    BranchDistinct(Edges(s.departs), id);
    JoinedCount(s.machines, branch, NORMAL);
    JoinedCount(s.machines, branch, OFFLINE);
    JoinedCount(s.machines, branch, FREE);
  }

  // ----- The per-department counts against the overview -----

  /** Machines in the given state that satisfy a condition on their department. */
  function CountReached(t: seq<Edge>, ms: seq<MachineNode>, kids: seq<int>, state: int): nat
    requires Ordered(t)
  {
    if ms == [] then 0
    else
      (if ms[0].state == state && Reaches(t, kids, ms[0].departId) then 1 else 0)
      + CountReached(t, ms[1..], kids, state)
  }

  /** Machines in the given state whose department is neither department 1 nor below it. */
  function CountStray(t: seq<Edge>, ms: seq<MachineNode>, state: int): nat
    requires Ordered(t)
  {
    if ms == [] then 0
    else
      (if ms[0].state == state && !AtOrUnder(t, UNCATALOGUED, ms[0].departId) then 1 else 0)
      + CountStray(t, ms[1..], state)
  }

  /** The per-branch counts of a list of departments, added up. */
  function SumOfBranches(t: seq<Edge>, ms: seq<MachineNode>, kids: seq<int>, state: int): nat
    requires Ordered(t)
  {
    if kids == [] then 0 else CountIn(ms, Branch(t, kids[0]), state) + SumOfBranches(t, ms, kids[1..], state)
  }

  lemma {:induction false} CountReachedNone(t: seq<Edge>, ms: seq<MachineNode>, state: int)
    requires Ordered(t)
    ensures CountReached(t, ms, [], state) == 0
  {
    if ms != [] {
      CountReachedNone(t, ms[1..], state);
    }
  }

  lemma {:induction false} CountReachedFirst(t: seq<Edge>, ms: seq<MachineNode>, a: int, kids: seq<int>, state: int)
    requires Ordered(t) && kids != [] && Distinct(kids)
    requires forall i :: 0 <= i < |kids| ==> kids[i] in Kids(t, a)
    ensures CountReached(t, ms, kids, state)
         == CountIn(ms, Branch(t, kids[0]), state) + CountReached(t, ms, kids[1..], state)
  {
    if ms != [] {
      CountReachedFirst(t, ms[1..], a, kids, state);
      var d := ms[0].departId;
      BranchDistinct(t, kids[0]);
      if AtOrUnder(t, kids[0], d) && Reaches(t, kids[1..], d) {
        var i :| 0 <= i < |kids| - 1 && AtOrUnder(t, kids[1..][i], d);
        SiblingsDisjoint(t, a, kids[0], kids[i + 1], d);
        SiblingsDisjoint(t, a, kids[i + 1], kids[0], d);
      }
    }
  }

  /** Branches of siblings are disjoint, so their counts add up to the count over all of them. */
  lemma {:induction false} BranchesAddUp(t: seq<Edge>, ms: seq<MachineNode>, a: int, kids: seq<int>, state: int)
    requires Ordered(t) && Distinct(kids)
    requires forall i :: 0 <= i < |kids| ==> kids[i] in Kids(t, a)
    ensures SumOfBranches(t, ms, kids, state) == CountReached(t, ms, kids, state)
  {
    if kids == [] {
      CountReachedNone(t, ms, state);
    } else {
      BranchesAddUp(t, ms, a, kids[1..], state);
      CountReachedFirst(t, ms, a, kids, state);
    }
  }

  lemma {:induction false} MachinesSplit(t: seq<Edge>, ms: seq<MachineNode>, state: int)
    requires Ordered(t)
    ensures InState(ms, state) == CountReached(t, ms, Kids(t, UNCATALOGUED), state)
                                  + CountIn(ms, [UNCATALOGUED], state) + CountStray(t, ms, state)
  {
    if ms != [] {
      MachinesSplit(t, ms[1..], state);
      UnderIffReached(t, UNCATALOGUED, ms[0].departId);
      if Under(t, UNCATALOGUED, UNCATALOGUED) {
        UnderIsYounger(t, UNCATALOGUED, UNCATALOGUED);
      }
    }
  }

  /** For every table and every state: the overview count is the sum over the first-level departments, plus the
      machines sitting directly in department 1, plus the stray ones. */
  lemma OverviewIsSum(s: Tables, state: int)
    requires Ordered(Edges(s.departs))
    ensures var t := Edges(s.departs);
            InState(s.machines, state) == SumOfBranches(t, s.machines, Kids(t, UNCATALOGUED), state)
                                          + CountIn(s.machines, [UNCATALOGUED], state)
                                          + CountStray(t, s.machines, state)
  {
    var t := Edges(s.departs);
    KidsDistinct(t, UNCATALOGUED);
    BranchesAddUp(t, s.machines, UNCATALOGUED, Kids(t, UNCATALOGUED), state);
    MachinesSplit(t, s.machines, state);
  }

  lemma {:induction false} NoStrayIff(t: seq<Edge>, ms: seq<MachineNode>, state: int)
    requires Ordered(t)
    ensures CountStray(t, ms, state) == 0
       <==> forall i :: 0 <= i < |ms| && ms[i].state == state ==> AtOrUnder(t, UNCATALOGUED, ms[i].departId)
  {
    if ms != [] {
      NoStrayIff(t, ms[1..], state);
    }
  }

  /** The per-department counts and the machines directly in department 1 account for the overview in all three
      states if and only if every machine's department is department 1 or below it. */
  lemma CountsAgreeIff(s: Tables)
    requires DepartsOk(s) && MachinesOk(s)
    ensures (forall state :: state in {NORMAL, OFFLINE, FREE} ==> CountsAgree(s, state))
       <==> forall i :: 0 <= i < |s.machines| ==> AtOrUnder(Edges(s.departs), UNCATALOGUED, s.machines[i].departId)
  {
    var t := Edges(s.departs);
    forall state
      ensures CountsAgree(s, state) <==> CountStray(t, s.machines, state) == 0
    {
      OverviewIsSum(s, state);
    }
    NoStrayIff(t, s.machines, NORMAL);
    NoStrayIff(t, s.machines, OFFLINE);
    NoStrayIff(t, s.machines, FREE);
    assert CountsAgree(s, NORMAL) && CountsAgree(s, OFFLINE) && CountsAgree(s, FREE)
      <==> forall state :: state in {NORMAL, OFFLINE, FREE} ==> CountsAgree(s, state);
  }

  predicate CountsAgree(s: Tables, state: int)
    requires Ordered(Edges(s.departs))
  {
    var t := Edges(s.departs);
    InState(s.machines, state)
    == SumOfBranches(t, s.machines, Kids(t, UNCATALOGUED), state) + CountIn(s.machines, [UNCATALOGUED], state)
  }

  /** After every tidy run the per-department counts and the machines directly in department 1 account for the
      whole overview: first-level branches are disjoint and cover all other departments. */
  lemma TidyRunCountsAgree(ops: seq<Op>, state: int)
    requires TidyRun(ops)
    ensures DepartsOk(Run(ops)) && CountsAgree(Run(ops), state)
  {
    hide Run;
    TidyRunIsTree(ops);
    CarefulRunPlaces(ops);
    OverviewIsSum(Run(ops), state);
    NoneStray(Run(ops), state);
  }

  lemma NoneStray(s: Tables, state: int)
    requires DepartsOk(s) && AllBelowRoot(s) && Placed(s)
    ensures CountStray(Edges(s.departs), s.machines, state) == 0
  {
    NoStrayIff(Edges(s.departs), s.machines, state);
    forall i | 0 <= i < |s.machines|
      ensures AtOrUnder(Edges(s.departs), UNCATALOGUED, s.machines[i].departId)
    {
      var j :| 0 <= j < |s.departs| && s.departs[j].id == s.machines[i].departId;
    }
  }
}
