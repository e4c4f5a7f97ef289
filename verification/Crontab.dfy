/** The index from caller ids to scheduler entries (pkg/utils/os/common/cron.go:26-100), over the inner
    scheduler's contract: entry numbers start at 1 and are never used again, and looking up a number that
    is not there gives the zero entry. */
module Crontab {
  import opened Sequences

  /** The inner scheduler, as far as the index sees it. */
  class Scheduler {
    var entries: set<int>
    var nextId: int

    constructor ()
      ensures entries == {} && nextId == 0
    {
      entries, nextId := {}, 0;
    }

    /** `AddFunc`: an unparsable specification is refused and nothing changes. */
    method AddFunc(specOk: bool) returns (eid: int, err: bool)
      modifies this
      ensures err == !specOk
      ensures err ==> entries == old(entries) && nextId == old(nextId)
      ensures !err ==> nextId == old(nextId) + 1 && eid == nextId && entries == old(entries) + {eid}
    {
      if !specOk {
        return 0, true;
      }
      nextId := nextId + 1;
      entries := entries + {nextId};
      return nextId, false;
    }

    method Remove(eid: int)
      modifies this`entries
      ensures entries == old(entries) - {eid}
    {
      entries := entries - {eid};
    }

    /** The id of the entry found. */
    function Entry(eid: int): int
      reads this
    {
      Lookup(entries, eid)
    }
  }

  /** The id of the entry found, 0 for the zero entry. */
  function Lookup(entries: set<int>, eid: int): int {
    if eid in entries then eid else 0
  }

  /** What `IDs` takes for a live entry: the lookup gives back the number it was asked for. */
  predicate Alive(eid: int, entries: set<int>) {
    Lookup(entries, eid) == eid
  }

  /** What `IDs` leaves of a map. */
  function Cleaned(entryIds: map<int, int>, entries: set<int>): map<int, int> {
    map i | i in entryIds && Alive(entryIds[i], entries) :: entryIds[i]
  }

  // ----- The index on values -----

  datatype Op = Add(id: int, specOk: bool) | Delete(id: int) | List

  datatype State = State(entryIds: map<int, int>, entries: set<int>, nextId: int)

  /** What a call makes of the index and the scheduler. */
  function Apply(s: State, op: Op): State {
    match op
    case Add(id, specOk) =>
      if id in s.entryIds || !specOk then s
      else State(s.entryIds[id := s.nextId + 1], s.entries + {s.nextId + 1}, s.nextId + 1)
    case Delete(id) =>
      if id !in s.entryIds then s
      else s.(entryIds := s.entryIds - {id}, entries := s.entries - {s.entryIds[id]})
    case List => s.(entryIds := Cleaned(s.entryIds, s.entries))
  }

  /** The index agrees with the scheduler: different ids have different entries, and the entries are exactly
      the live ones. */
  ghost predicate Agrees(entryIds: map<int, int>, entries: set<int>, nextId: int) {
    && (forall i, j :: i in entryIds && j in entryIds && entryIds[i] == entryIds[j] ==> i == j)
    && (forall i :: i in entryIds ==> entryIds[i] in entries)
    && (forall e :: e in entries ==> exists i :: i in entryIds && entryIds[i] == e)
    && (forall e :: e in entries ==> 0 < e <= nextId)
    && nextId >= 0
  }

  class Crontab {
    const inner: Scheduler
    var entryIds: map<int, int>

    ghost predicate Valid()
      reads this, inner
    {
      Agrees(entryIds, inner.entries, inner.nextId)
    }

    ghost function Contents(): State
      reads this, inner
    {
      State(entryIds, inner.entries, inner.nextId)
    }

    constructor ()
      ensures Valid() && Contents() == Run([]) && fresh(inner)
    {
      inner := new Scheduler();
      entryIds := map[];
    }

    method AddByFunc(id: int, specOk: bool) returns (err: bool)
      requires Valid()
      modifies this, inner
      ensures Valid() && Contents() == Apply(old(Contents()), Add(id, specOk))
      ensures err <==> id in old(entryIds) || !specOk
      ensures err ==> entryIds == old(entryIds) && inner.entries == old(inner.entries)
      ensures !err ==> entryIds.Keys == old(entryIds).Keys + {id}
                       && inner.entries == old(inner.entries) + {entryIds[id]}
                       && forall i :: i in old(entryIds) ==> entryIds[i] == old(entryIds)[i]
    {
      if id in entryIds {
        return true;
      }
      var eid, addErr := inner.AddFunc(specOk);
      if addErr {
        return true;
      }
      AddAgrees(entryIds, old(inner.entries), old(inner.nextId), id);
      entryIds := entryIds[id := eid];
      return false;
    }

    method DeleteByID(id: int) returns (err: bool)
      requires Valid()
      modifies this, inner
      ensures Valid() && Contents() == Apply(old(Contents()), Delete(id))
      ensures err <==> id !in old(entryIds)
      ensures err ==> entryIds == old(entryIds) && inner.entries == old(inner.entries)
      ensures !err ==> entryIds == old(entryIds) - {id} && inner.entries == old(inner.entries) - {old(entryIds)[id]}
    {
      if id !in entryIds {
        return true;
      }
      var eid := entryIds[id];
      inner.Remove(eid);
      DeleteAgrees(entryIds, old(inner.entries), inner.nextId, id);
      entryIds := entryIds - {id};
      return false;
    }

    /** `IDs`, from any map whatsoever, visited in the given order: answers the ids whose entry is found and
        forgets the others. */
    method IDs(order: seq<int>) returns (validIds: seq<int>)
      requires Distinct(order) && forall i :: i in order <==> i in entryIds
      modifies this`entryIds
      ensures Distinct(validIds) && forall i :: i in validIds <==> i in entryIds
      ensures Contents() == Apply(old(Contents()), List)
      ensures old(Valid()) ==> Valid() && entryIds == old(entryIds)
    {
      validIds := [];
      var invalidIds := [];
      for k := 0 to |order|
        invariant forall i :: i in validIds <==> i in order[..k] && Alive(entryIds[i], inner.entries)
        invariant forall i :: i in invalidIds <==> i in order[..k] && !Alive(entryIds[i], inner.entries)
        invariant Distinct(validIds)
      {
        var sid := order[k];
        assert sid in order && order[..k + 1] == order[..k] + [sid] && sid !in order[..k];
        if inner.Entry(entryIds[sid]) != entryIds[sid] {
          invalidIds := invalidIds + [sid];
          continue;
        }
        validIds := validIds + [sid];
      }
      assert order[..|order|] == order;
      for k := 0 to |invalidIds|
        invariant forall i :: i in entryIds <==> i in old(entryIds) && i !in invalidIds[..k]
        invariant forall i :: i in entryIds ==> entryIds[i] == old(entryIds)[i]
      {
        assert invalidIds[..k + 1] == invalidIds[..k] + [invalidIds[k]];
        entryIds := entryIds - {invalidIds[k]};
      }
      assert invalidIds[..|invalidIds|] == invalidIds;
      IsCleaned(entryIds, old(entryIds), inner.entries);
      if old(Valid()) { CleanedAgrees(old(Contents())); }
    }
  }

  lemma IsCleaned(left: map<int, int>, entryIds: map<int, int>, entries: set<int>)
    requires forall i :: i in left <==> i in entryIds && Alive(entryIds[i], entries)
    requires forall i :: i in left ==> left[i] == entryIds[i]
    ensures left == Cleaned(entryIds, entries)
  {
    var r := Cleaned(entryIds, entries);
    assert forall i :: i in left <==> i in r;
    assert forall i :: i in left ==> left[i] == r[i];
  }

  lemma AddAgrees(entryIds: map<int, int>, entries: set<int>, nextId: int, id: int)
    requires Agrees(entryIds, entries, nextId) && id !in entryIds
    ensures Agrees(entryIds[id := nextId + 1], entries + {nextId + 1}, nextId + 1)
  {
    var m, grown := entryIds[id := nextId + 1], entries + {nextId + 1};
    forall e | e in grown
      ensures exists i :: i in m && m[i] == e
    {
      if e == nextId + 1 {
        assert m[id] == e;
      } else {
        var i :| i in entryIds && entryIds[i] == e;
        assert m[i] == e;
      }
    }
  }

  lemma DeleteAgrees(entryIds: map<int, int>, entries: set<int>, nextId: int, id: int)
    requires Agrees(entryIds, entries, nextId) && id in entryIds
    ensures Agrees(entryIds - {id}, entries - {entryIds[id]}, nextId)
  {
    var m := entryIds - {id};
    forall e | e in entries - {entryIds[id]}
      ensures exists i :: i in m && m[i] == e
    {
      var i :| i in entryIds && entryIds[i] == e;
      assert m[i] == e;
    }
  }

  // ----- Runs and stale maps -----

  function Run(ops: seq<Op>): State {
    if ops == [] then State(map[], {}, 0) else Apply(Run(ops[..|ops| - 1]), ops[|ops| - 1])
  }

  /** The ids added with a readable specification and not deleted since. */
  function Present(ops: seq<Op>): set<int> {
    if ops == [] then {}
    else
      match ops[|ops| - 1]
      case Add(id, specOk) => if specOk then Present(ops[..|ops| - 1]) + {id} else Present(ops[..|ops| - 1])
      case Delete(id) => Present(ops[..|ops| - 1]) - {id}
      case List => Present(ops[..|ops| - 1])
  }

  /** After every run the index is a bijection onto the live entries, and its ids are exactly those added and not
      deleted. */
  lemma {:induction false} RunAgrees(ops: seq<Op>)
    ensures Agrees(Run(ops).entryIds, Run(ops).entries, Run(ops).nextId)
    ensures Run(ops).entryIds.Keys == Present(ops)
  {
    if ops != [] {
      var n := |ops| - 1;
      RunAgrees(ops[..n]);
      var s := Run(ops[..n]);
      match ops[n]
      case Add(id, specOk) =>
        if id !in s.entryIds && specOk { AddAgrees(s.entryIds, s.entries, s.nextId, id); }
      case Delete(id) =>
        if id in s.entryIds { DeleteAgrees(s.entryIds, s.entries, s.nextId, id); }
      case List => CleanedAgrees(s);
    }
  }

  /** A sound index loses nothing when it is listed. */
  lemma CleanedAgrees(s: State)
    requires Agrees(s.entryIds, s.entries, s.nextId)
    ensures Cleaned(s.entryIds, s.entries) == s.entryIds
  {
    assert forall i :: i in s.entryIds ==> Alive(s.entryIds[i], s.entries);
  }

  /** From an arbitrary map, every id that is left refers to a live entry if and only if no id of the map refers
      to entry 0: a lookup of 0 always seems to succeed. */
  lemma CleanedIsLiveIff(entryIds: map<int, int>, entries: set<int>)
    requires 0 !in entries
    ensures (forall i :: i in Cleaned(entryIds, entries) ==> Cleaned(entryIds, entries)[i] in entries)
       <==> forall i :: i in entryIds ==> entryIds[i] != 0
  {
    var r := Cleaned(entryIds, entries);
    if i :| i in entryIds && entryIds[i] == 0 {
      assert i in r && r[i] == 0;
    }
  }

  /** A stale id that refers to entry 0 is kept. */
  lemma StaleZeroIsKept()
    ensures Cleaned(map[7 := 0, 8 := 5], {1}) == map[7 := 0]
  {
    var m := map[7 := 0, 8 := 5];
    assert forall i :: i in m <==> i == 7 || i == 8;
  }
}
