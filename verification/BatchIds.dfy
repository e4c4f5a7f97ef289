/** Batches keep their machine ids as comma-joined text (pkg/app/server/service/batch/batch.go:79-90,
    pkg/app/server/dao/batchmanagerdao.go:60-93, pkg/utils/common.go:20-28). */
module BatchIds {
  import opened Strings
  import opened Numbers
  import opened Store

  function Texts(ids: seq<int>): (r: seq<string>)
    ensures |r| == |ids|
  {
    seq(|ids|, i requires 0 <= i < |ids| => Itoa(ids[i]))
  }

  function Ints(parts: seq<string>): (r: seq<int>)
    ensures |r| == |parts|
  {
    seq(|parts|, i requires 0 <= i < |parts| => Atoi(parts[i]))
  }

  /** `utils.String2Int`. */
  method String2Int(strArr: seq<string>) returns (res: array<int>)
    ensures fresh(res) && res[..] == Ints(strArr)
  {
    res := new int[|strArr|];
    for index := 0 to |strArr|
      invariant forall i :: 0 <= i < index ==> res[i] == Atoi(strArr[i])
    {
      res[index] := Atoi(strArr[index]);
    }
  }

  lemma {:induction false} JoinAppend(parts: seq<string>, last: string, sep: char)
    requires parts != []
    ensures Join(parts + [last], sep) == Join(parts, sep) + [sep] + last
  {
    var all := parts + [last];
    assert all[1..] == parts[1..] + [last];
    if |parts| > 1 {
      JoinAppend(parts[1..], last, sep);
    }
  }

  /** Neither end of a join of non-empty parts is the separator. */
  lemma {:induction false} JoinEnds(parts: seq<string>, sep: char)
    requires parts != [] && forall i :: 0 <= i < |parts| ==> parts[i] != "" && sep !in parts[i]
    ensures var s := Join(parts, sep); s != "" && s[0] != sep && s[|s| - 1] != sep
  {
    if |parts| > 1 {
      JoinEnds(parts[1..], sep);
    }
  }

  lemma TrimNothing(s: string, c: char)
    requires s != "" && s[0] != c && s[|s| - 1] != c
    ensures TrimChar(s, c) == s
  {
  }

  lemma TrimOne(s: string, c: char)
    requires s != "" && s[0] != c && s[|s| - 1] != c
    ensures TrimChar([c] + s, c) == s
  {
    TrimNothing(s, c);
  }

  lemma TextEnds(ids: seq<int>)
    ensures forall i :: 0 <= i < |ids| ==> Texts(ids)[i] != "" && ',' !in Texts(ids)[i]
  {
  }

  /** The list building of `CreateBatch`: append a comma and the id, trim commas from both ends. */
  method BuildList(ids: seq<int>) returns (list: string)
    ensures list == Join(Texts(ids), ',')
  {
    hide Join, TrimChar, Itoa;
    list := "";
    JoinNone();
    for i := 0 to |ids|
      invariant list == Join(Texts(ids[..i]), ',')
    {
      ghost var before := Texts(ids[..i]);
      assert Texts(ids[..i + 1]) == before + [Itoa(ids[i])];
      TextEnds(ids[..i + 1]);
      JoinEnds(before + [Itoa(ids[i])], ',');
      if i > 0 {
        JoinAppend(before, Itoa(ids[i]), ',');
        TrimNothing(list + "," + Itoa(ids[i]), ',');
      } else {
        JoinSingle(Itoa(ids[i]));
        assert before == [];
        TrimOne(Itoa(ids[i]), ',');
        assert list + "," + Itoa(ids[i]) == [','] + Itoa(ids[i]);
      }
      list := list + "," + Itoa(ids[i]);
      list := TrimChar(list, ',');
    }
    assert ids[..|ids|] == ids;
  }

  lemma JoinNone()
    ensures Join([], ',') == ""
  {
  }

  lemma JoinSingle(s: string)
    ensures Join([] + [s], ',') == s
  {
  }

  predicate Fits(ids: seq<int>) {
    forall i :: 0 <= i < |ids| ==> MIN_INT <= ids[i] <= MAX_INT
  }

  /** The ids of a batch are read back in order exactly when there is at least one: an empty list is read as the
      single id 0. */
  lemma ReadBackIff(ids: seq<int>)
    requires Fits(ids)
    ensures Ints(Split(Join(Texts(ids), ','), ',')) == ids <==> ids != []
  {
    SplitJoin(Texts(ids), ',');
    forall i | 0 <= i < |ids|
      ensures Atoi(Itoa(ids[i])) == ids[i]
    {
      AtoiItoa(ids[i]);
    }
  }

  // ----- From batches to machines -----

  datatype Batch = Batch(id: int, machinelist: string)

  /** The row with this id, or the zero row. */
  function FindBatch(batches: seq<Batch>, id: int): Batch {
    if batches == [] then Batch(0, "") else if batches[0].id == id then batches[0] else FindBatch(batches[1..], id)
  }

  function UuidsOf(ms: seq<MachineNode>, ids: seq<int>): (r: seq<string>)
    ensures |r| == |ids|
  {
    seq(|ids|, i requires 0 <= i < |ids| => FindId(ms, ids[i]).uuid)
  }

  function BatchUuids(batches: seq<Batch>, ms: seq<MachineNode>, batchIds: seq<int>): seq<string> {
    if batchIds == [] then []
    else
      BatchUuids(batches, ms, batchIds[..|batchIds| - 1])
      + UuidsOf(ms, Ints(Split(FindBatch(batches, batchIds[|batchIds| - 1]).machinelist, ',')))
  }

  method BatchIds2UUIDs(batches: seq<Batch>, ms: seq<MachineNode>, batchIds: seq<int>) returns (uuids: seq<string>)
    ensures uuids == BatchUuids(batches, ms, batchIds)
  {
    hide Split, Atoi, FindId, FindBatch;
    uuids := [];
    for i := 0 to |batchIds|
      invariant uuids == BatchUuids(batches, ms, batchIds[..i])
    {
      var batch := FindBatch(batches, batchIds[i]);
      var str := Split(batch.machinelist, ',');
      var macIds := String2Int(str);
      ghost var start, ids := uuids, Ints(str);
      for j := 0 to macIds.Length
        invariant uuids == start + UuidsOf(ms, ids[..j])
      {
        var machine := FindId(ms, macIds[j]);
        assert macIds[j] == macIds[..][j] == ids[j];
        assert UuidsOf(ms, ids[..j + 1]) == UuidsOf(ms, ids[..j]) + [machine.uuid];
        uuids := uuids + [machine.uuid];
      }
      assert ids[..macIds.Length] == ids;
      assert batchIds[..i + 1][..i] == batchIds[..i];
    }
    assert batchIds[..|batchIds|] == batchIds;
  }

  lemma {:induction false} FindBatchIff(batches: seq<Batch>, id: int)
    ensures (exists i :: 0 <= i < |batches| && batches[i].id == id) ==>
              FindBatch(batches, id) in batches && FindBatch(batches, id).id == id
    ensures !(exists i :: 0 <= i < |batches| && batches[i].id == id) ==> FindBatch(batches, id) == Batch(0, "")
  {
    if batches != [] {
      FindBatchIff(batches[1..], id);
      if i :| 0 <= i < |batches| && batches[i].id == id && i > 0 {
        assert batches[1..][i - 1].id == id;
      }
    }
  }

  lemma {:induction false} FindIdIff(ms: seq<MachineNode>, id: int)
    ensures (exists i :: 0 <= i < |ms| && ms[i].id == id) ==> FindId(ms, id) in ms && FindId(ms, id).id == id
    ensures !(exists i :: 0 <= i < |ms| && ms[i].id == id) ==> FindId(ms, id).uuid == ""
  {
    if ms != [] {
      FindIdIff(ms[1..], id);
      if i :| 0 <= i < |ms| && ms[i].id == id && i > 0 {
        assert ms[1..][i - 1].id == id;
      }
    }
  }

  /** Ids identify rows and are not 0. */
  predicate Keyed(batches: seq<Batch>, ms: seq<MachineNode>) {
    && (forall i, j :: 0 <= i < j < |batches| ==> batches[i].id != batches[j].id)
    && (forall i, j :: 0 <= i < j < |ms| ==> ms[i].id != ms[j].id)
    && (forall i :: 0 <= i < |ms| ==> ms[i].id != 0)
  }

  /** A batch made from some machines gives back the UUID of each, in order, and "" for one that is gone; a batch made
      from none gives the one UUID "" instead of none. */
  lemma BatchGivesItsMachines(batches: seq<Batch>, ms: seq<MachineNode>, batchId: int, ids: seq<int>)
    requires Fits(ids) && Keyed(batches, ms) && Batch(batchId, Join(Texts(ids), ',')) in batches
    ensures var uuids := BatchUuids(batches, ms, [batchId]);
            && |uuids| == (if ids == [] then 1 else |ids|)
            && (ids == [] ==> uuids[0] == "")
            && forall i :: 0 <= i < |ids| ==>
                 && (forall m :: m in ms && m.id == ids[i] ==> uuids[i] == m.uuid)
                 && ((forall m :: m in ms ==> m.id != ids[i]) ==> uuids[i] == "")
  {
    OneBatch(batches, ms, batchId);
    FoundByKey(batches, ms, Batch(batchId, Join(Texts(ids), ',')));
    ReadBackIff(ids);
    hide *;
    if ids == [] {
      EmptyListIsZero();
      ZeroHasNone(batches, ms);
    } else {
      forall i | 0 <= i < |ids| {
        UuidAt(batches, ms, ids, i);
      }
    }
  }

  lemma FoundByKey(batches: seq<Batch>, ms: seq<MachineNode>, b: Batch)
    requires Keyed(batches, ms) && b in batches
    ensures FindBatch(batches, b.id) == b
  {
    FindBatchIff(batches, b.id);
    var k :| 0 <= k < |batches| && batches[k] == b;
    var l :| 0 <= l < |batches| && batches[l] == FindBatch(batches, b.id);
  }

  lemma ZeroHasNone(batches: seq<Batch>, ms: seq<MachineNode>)
    requires Keyed(batches, ms)
    ensures UuidsOf(ms, [0]) == [""]
  {
    FindIdIff(ms, 0);
  }

  lemma UuidAt(batches: seq<Batch>, ms: seq<MachineNode>, ids: seq<int>, i: nat)
    requires Keyed(batches, ms) && i < |ids|
    ensures forall m :: m in ms && m.id == ids[i] ==> UuidsOf(ms, ids)[i] == m.uuid
    ensures (forall m :: m in ms ==> m.id != ids[i]) ==> UuidsOf(ms, ids)[i] == ""
  {
    hide FindId;
    FindIdIff(ms, ids[i]);
    if m :| m in ms && m.id == ids[i] {
      var k :| 0 <= k < |ms| && ms[k] == m;
      var l :| 0 <= l < |ms| && ms[l] == FindId(ms, ids[i]);
    }
  }

  lemma OneBatch(batches: seq<Batch>, ms: seq<MachineNode>, batchId: int)
    ensures BatchUuids(batches, ms, [batchId])
         == UuidsOf(ms, Ints(Split(FindBatch(batches, batchId).machinelist, ',')))
  {
    assert [batchId][..0] == [];
  }

  lemma EmptyListIsZero()
    ensures Ints(Split("", ',')) == [0] && Join(Texts([]), ',') == ""
  {
    assert Texts([]) == [];
  }

  /** A batch that does not exist gives the one UUID "". */
  lemma UnknownBatch(batches: seq<Batch>, ms: seq<MachineNode>, batchId: int)
    requires Keyed(batches, ms) && forall b :: b in batches ==> b.id != batchId
    ensures BatchUuids(batches, ms, [batchId]) == [""]
  {
    FindBatchIff(batches, batchId);
    OneBatch(batches, ms, batchId);
    EmptyListIsZero();
    ZeroHasNone(batches, ms);
  }

  /** The answer for several batches is the answers one after the other. */
  lemma {:induction false} BatchesOneByOne(batches: seq<Batch>, ms: seq<MachineNode>, a: seq<int>, b: seq<int>)
    ensures BatchUuids(batches, ms, a + b) == BatchUuids(batches, ms, a) + BatchUuids(batches, ms, b)
  {
    hide Split, FindBatch, UuidsOf;
    if b == [] {
      assert a + b == a;
    } else {
      var n := |b| - 1;
      assert (a + b)[..|a + b| - 1] == a + b[..n];
      BatchesOneByOne(batches, ms, a, b[..n]);
    }
  }
}
