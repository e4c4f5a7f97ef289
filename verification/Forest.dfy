/** A table of rows with a parent column, read as a forest. Departments are stored this way: every row is
    younger than its parent, so its id is larger. */
module Forest {
  import opened Sequences

  datatype Edge = Edge(id: int, pid: int)

  /** What inserting keeps: ids are positive and distinct, and every parent id is smaller. */
  predicate Ordered(t: seq<Edge>) {
    && (forall i :: 0 <= i < |t| ==> 0 <= t[i].pid < t[i].id)
    && (forall i, j :: 0 <= i < j < |t| ==> t[i].id != t[j].id)
  }

  /** The ids of the rows whose parent is `id`, in table order. */
  function Kids(t: seq<Edge>, id: int): seq<int> {
    if t == [] then [] else (if t[0].pid == id then [t[0].id] else []) + Kids(t[1..], id)
  }

  /** An id no row exceeds. */
  function Top(t: seq<Edge>): (top: int)
    ensures forall i :: 0 <= i < |t| ==> t[i].id <= top
  {
    if t == [] then 0
    else
      var top := Top(t[1..]);
      assert forall i :: 0 < i < |t| ==> t[i] == t[1..][i - 1];
      if t[0].id > top then t[0].id else top
  }

  function Gap(t: seq<Edge>, id: int): nat {
    if Top(t) > id then Top(t) - id else 0
  }

  lemma {:induction false} KidsMember(t: seq<Edge>, id: int, k: int)
    ensures k in Kids(t, id) <==> Edge(k, id) in t
  {
    if t != [] {
      KidsMember(t[1..], id, k);
    }
  }

  lemma KidsAreYounger(t: seq<Edge>, id: int)
    requires Ordered(t)
    ensures Between(Kids(t, id), id, Top(t))
  {
  }

  predicate Between(ids: seq<int>, floor: int, top: int) {
    forall i :: 0 <= i < |ids| ==> floor < ids[i] <= top
  }

  // ----- Descendants by walking down -----

  /** The strict descendants of `id`, each followed by its own. */
  function Preorder(t: seq<Edge>, id: int): seq<int>
    requires Ordered(t)
    decreases Gap(t, id), 1, 0
  {
    KidsAreYounger(t, id);
    PreorderAll(t, id, Kids(t, id))
  }

  function PreorderAll(t: seq<Edge>, floor: int, kids: seq<int>): seq<int>
    requires Ordered(t)
    requires Between(kids, floor, Top(t))
    decreases Gap(t, floor), 0, |kids|
  {
    if kids == [] then []
    else [kids[0]] + Preorder(t, kids[0]) + PreorderAll(t, floor, kids[1..])
  }

  // ----- Descendants by climbing up: the independent definition -----

  /** The parent of the first row with this id, or -1 if there is no such row. */
  function Parent(t: seq<Edge>, id: int): (pid: int)
  {
    if t == [] then -1 else if t[0].id == id then t[0].pid else Parent(t[1..], id)
  }

  lemma {:induction false} ParentIffEdge(t: seq<Edge>, id: int, pid: int)
    requires Ordered(t) && pid >= 0
    ensures Parent(t, id) == pid <==> Edge(id, pid) in t
    ensures Parent(t, id) >= 0 ==> Parent(t, id) < id
  {
    if t != [] {
      ParentIffEdge(t[1..], id, pid);
    }
  }

  /** `x` lies strictly under `a`: climbing from `x` reaches `a`. */
  predicate Under(t: seq<Edge>, a: int, x: int)
    requires Ordered(t)
    decreases x
  {
    ParentIffEdge(t, x, 0);
    var p := Parent(t, x);
    p >= 0 && (p == a || Under(t, a, p))
  }

  lemma {:induction false} UnderIsYounger(t: seq<Edge>, a: int, x: int)
    requires Ordered(t) && Under(t, a, x)
    ensures a < x
    decreases x
  {
    ParentIffEdge(t, x, 0);
    if Parent(t, x) != a {
      UnderIsYounger(t, a, Parent(t, x));
    }
  }

  lemma {:induction false} UnderTransitive(t: seq<Edge>, a: int, b: int, x: int)
    requires Ordered(t) && Under(t, a, b) && Under(t, b, x)
    ensures Under(t, a, x)
    decreases x
  {
    ParentIffEdge(t, x, 0);
    if Parent(t, x) != b {
      UnderTransitive(t, a, b, Parent(t, x));
    }
  }

  /** Two ancestors of one row lie on one path. */
  lemma {:induction false} AncestorsComparable(t: seq<Edge>, a: int, b: int, x: int)
    requires Ordered(t) && Under(t, a, x) && Under(t, b, x)
    ensures a == b || Under(t, a, b) || Under(t, b, a)
    decreases x
  {
    ParentIffEdge(t, x, 0);
    var p := Parent(t, x);
    if p != a && p != b {
      AncestorsComparable(t, a, b, p);
    }
  }

  /** The first step down from `a` towards a row under it. */
  lemma {:induction false} StepDown(t: seq<Edge>, a: int, x: int) returns (k: int)
    requires Ordered(t) && Under(t, a, x)
    ensures k in Kids(t, a) && (k == x || Under(t, k, x))
    decreases x
  {
    ParentIffEdge(t, x, 0);
    var p := Parent(t, x);
    if p == a {
      ParentIffEdge(t, x, a);
      KidsMember(t, a, x);
      k := x;
    } else {
      k := StepDown(t, a, p);
    }
  }

  lemma KidIsUnder(t: seq<Edge>, a: int, k: int)
    requires Ordered(t) && k in Kids(t, a)
    ensures Under(t, a, k) && a >= 0 && Parent(t, k) == a
  {
    KidsMember(t, a, k);
  }

  /** Siblings are not under one another, and nothing is under two of them. */
  lemma SiblingsDisjoint(t: seq<Edge>, a: int, k: int, l: int, x: int)
    requires Ordered(t) && k in Kids(t, a) && l in Kids(t, a) && k != l
    ensures !Under(t, k, l)
    ensures !(Under(t, k, x) && Under(t, l, x))
  {
    KidIsUnder(t, a, k);
    KidIsUnder(t, a, l);
    NotUnderSibling(t, a, k, l);
    NotUnderSibling(t, a, l, k);
    if Under(t, k, x) && Under(t, l, x) {
      AncestorsComparable(t, k, l, x);
    }
  }

  lemma NotUnderSibling(t: seq<Edge>, a: int, k: int, l: int)
    requires Ordered(t) && Parent(t, k) == a && Parent(t, l) == a && a >= 0
    ensures !Under(t, k, l)
  {
    ParentIffEdge(t, k, 0);
    if Under(t, k, l) && Under(t, k, a) {
      UnderIsYounger(t, k, a);
    }
  }

  // ----- The two definitions agree, and nothing is listed twice -----

  /** One of the given rows is `x`, or has `x` under it. */
  predicate Reaches(t: seq<Edge>, kids: seq<int>, x: int)
    requires Ordered(t)
  {
    exists i :: 0 <= i < |kids| && AtOrUnder(t, kids[i], x)
  }

  predicate AtOrUnder(t: seq<Edge>, k: int, x: int)
    requires Ordered(t)
  {
    k == x || Under(t, k, x)
  }

  /** A row is under `id` exactly when it is one of the kids of `id` or under one. */
  lemma UnderIffReached(t: seq<Edge>, id: int, x: int)
    requires Ordered(t)
    ensures Under(t, id, x) <==> Reaches(t, Kids(t, id), x)
  {
    if Under(t, id, x) {
      var k := StepDown(t, id, x);
      var i :| 0 <= i < |Kids(t, id)| && Kids(t, id)[i] == k;
    }
    if Reaches(t, Kids(t, id), x) {
      var i :| 0 <= i < |Kids(t, id)| && AtOrUnder(t, Kids(t, id)[i], x);
      var k := Kids(t, id)[i];
      KidIsUnder(t, id, k);
      if k != x {
        UnderTransitive(t, id, k, x);
      }
    }
  }

  /** Walking down finds exactly the rows from which climbing up arrives. */
  lemma {:induction false} PreorderMember(t: seq<Edge>, id: int, x: int)
    requires Ordered(t)
    ensures x in Preorder(t, id) <==> Under(t, id, x)
    decreases Gap(t, id), 1, 0
  {
    KidsAreYounger(t, id);
    PreorderAllMember(t, id, Kids(t, id), x);
    UnderIffReached(t, id, x);
  }

  lemma {:induction false} PreorderAllMember(t: seq<Edge>, floor: int, kids: seq<int>, x: int)
    requires Ordered(t) && Between(kids, floor, Top(t))
    ensures x in PreorderAll(t, floor, kids) <==> Reaches(t, kids, x)
    decreases Gap(t, floor), 0, |kids|
  {
    if kids != [] {
      PreorderMember(t, kids[0], x);
      PreorderAllMember(t, floor, kids[1..], x);
    }
  }

  lemma DistinctConcat(a: seq<int>, b: seq<int>)
    requires Distinct(a) && Distinct(b) && forall x :: x in a ==> x !in b
    ensures Distinct(a + b)
  {
    forall i, j | 0 <= i < j < |a + b|
      ensures (a + b)[i] != (a + b)[j]
    {
      if i < |a| <= j {
        assert a[i] in a && b[j - |a|] in b;
      }
    }
  }

  lemma {:induction false} KidsDistinct(t: seq<Edge>, id: int)
    requires Ordered(t)
    ensures Distinct(Kids(t, id))
  {
    if t != [] {
      KidsDistinct(t[1..], id);
      KidsMember(t[1..], id, t[0].id);
    }
  }

  /** Every strict descendant is listed once. */
  lemma {:induction false} PreorderDistinct(t: seq<Edge>, id: int)
    requires Ordered(t)
    ensures Distinct(Preorder(t, id))
    decreases Gap(t, id), 1, 0
  {
    KidsAreYounger(t, id);
    KidsDistinct(t, id);
    PreorderAllDistinct(t, id, Kids(t, id));
  }

  lemma {:induction false} PreorderAllDistinct(t: seq<Edge>, a: int, kids: seq<int>)
    requires Ordered(t) && Between(kids, a, Top(t))
    requires Distinct(kids) && forall i :: 0 <= i < |kids| ==> kids[i] in Kids(t, a)
    ensures Distinct(PreorderAll(t, a, kids))
    decreases Gap(t, a), 0, |kids|
  {
    if kids != [] {
      PreorderDistinct(t, kids[0]);
      PreorderAllDistinct(t, a, kids[1..]);
      var first, rest := [kids[0]] + Preorder(t, kids[0]), PreorderAll(t, a, kids[1..]);
      PreorderMember(t, kids[0], kids[0]);
      FirstApart(t, a, kids);
      DistinctConcat([kids[0]], Preorder(t, kids[0])) by {
        if Under(t, kids[0], kids[0]) { UnderIsYounger(t, kids[0], kids[0]); }
      }
      DistinctConcat(first, rest);
    }
  }

  /** What lies at or under the first of some siblings is not listed for the others. */
  lemma FirstApart(t: seq<Edge>, a: int, kids: seq<int>)
    requires Ordered(t) && Between(kids, a, Top(t)) && kids != []
    requires Distinct(kids) && forall i :: 0 <= i < |kids| ==> kids[i] in Kids(t, a)
    ensures forall x :: x in [kids[0]] + Preorder(t, kids[0]) ==> x !in PreorderAll(t, a, kids[1..])
  {
    forall x | x in [kids[0]] + Preorder(t, kids[0])
      ensures x !in PreorderAll(t, a, kids[1..])
    {
      PreorderMember(t, kids[0], x);
      PreorderAllMember(t, a, kids[1..], x);
      if Reaches(t, kids[1..], x) {
        var i :| 0 <= i < |kids| - 1 && AtOrUnder(t, kids[1..][i], x);
        SiblingsDisjoint(t, a, kids[0], kids[i + 1], x);
        SiblingsDisjoint(t, a, kids[i + 1], kids[0], x);
      }
    }
  }

  // ----- The order of the walk -----

  /** `part` stands in `whole` from position `at` on. */
  predicate StandsAt(whole: seq<int>, part: seq<int>, at: nat) {
    at + |part| <= |whole| && whole[at..at + |part|] == part
  }

  lemma StandsFirst(k: int, own: seq<int>, rest: seq<int>)
    ensures ([k] + own + rest)[0] == k && StandsAt([k] + own + rest, own, 1)
  {
  }

  lemma StandsInOwn(k: int, own: seq<int>, rest: seq<int>, i: nat, part: seq<int>)
    requires i < |own| && StandsAt(own, part, i + 1)
    ensures ([k] + own + rest)[i + 1] == own[i] && StandsAt([k] + own + rest, part, i + 2)
  {
    var all, end := [k] + own + rest, i + 1 + |part|;
    assert all[i + 2..end + 1] == own[i + 1..end];
  }

  lemma StandsInRest(k: int, own: seq<int>, rest: seq<int>, i: nat, part: seq<int>)
    requires i < |rest| && StandsAt(rest, part, i + 1)
    ensures ([k] + own + rest)[|own| + 1 + i] == rest[i] && StandsAt([k] + own + rest, part, |own| + i + 2)
  {
    var all, shift, end := [k] + own + rest, |own| + 1, i + 1 + |part|;
    assert all[shift..] == rest;
    assert all[shift + i + 1..shift + end] == all[shift..][i + 1..end];
  }

  /** Every department in the walk is followed by exactly its own walk. */
  lemma {:induction false} PreorderBlock(t: seq<Edge>, id: int, i: nat)
    requires Ordered(t) && i < |Preorder(t, id)|
    ensures StandsAt(Preorder(t, id), Preorder(t, Preorder(t, id)[i]), i + 1)
    decreases Gap(t, id), 1, 0
  {
    KidsAreYounger(t, id);
    PreorderAllBlock(t, id, Kids(t, id), i);
  }

  lemma {:induction false} PreorderAllBlock(t: seq<Edge>, floor: int, kids: seq<int>, i: nat)
    requires Ordered(t) && Between(kids, floor, Top(t)) && i < |PreorderAll(t, floor, kids)|
    ensures StandsAt(PreorderAll(t, floor, kids), Preorder(t, PreorderAll(t, floor, kids)[i]), i + 1)
    decreases Gap(t, floor), 0, |kids|
  {
    var k, own, rest := kids[0], Preorder(t, kids[0]), PreorderAll(t, floor, kids[1..]);
    assert PreorderAll(t, floor, kids) == [k] + own + rest;
    hide StandsAt, Top;
    if i == 0 {
      StandsFirst(k, own, rest);
    } else if i <= |own| {
      PreorderBlock(t, k, i - 1);
      StandsInOwn(k, own, rest, i - 1, Preorder(t, own[i - 1]));
    } else {
      var l := i - 1 - |own|;
      PreorderAllBlock(t, floor, kids[1..], l);
      StandsInRest(k, own, rest, l, Preorder(t, rest[l]));
    }
  }

  /** The walk meets siblings in table order. */
  lemma SiblingsInOrder(t: seq<Edge>, id: int, a: nat, b: nat) returns (i: nat, j: nat)
    requires Ordered(t) && a < b < |Kids(t, id)|
    ensures i < j < |Preorder(t, id)|
    ensures Preorder(t, id)[i] == Kids(t, id)[a] && Preorder(t, id)[j] == Kids(t, id)[b]
  {
    KidsAreYounger(t, id);
    i, j := KidsInOrder(t, id, Kids(t, id), a, b);
  }

  lemma {:induction false} KidsInOrder(t: seq<Edge>, floor: int, kids: seq<int>, a: nat, b: nat)
    returns (i: nat, j: nat)
    requires Ordered(t) && Between(kids, floor, Top(t)) && a <= b < |kids|
    ensures i <= j < |PreorderAll(t, floor, kids)| && (a < b ==> i < j)
    ensures PreorderAll(t, floor, kids)[i] == kids[a] && PreorderAll(t, floor, kids)[j] == kids[b]
  {
    var first := [kids[0]] + Preorder(t, kids[0]);
    var all := first + PreorderAll(t, floor, kids[1..]);
    assert PreorderAll(t, floor, kids) == all;
    if b == 0 {
      i, j := 0, 0;
    } else {
      var k, l := KidsInOrder(t, floor, kids[1..], if a == 0 then 0 else a - 1, b - 1);
      i, j := if a == 0 then 0 else |first| + k, |first| + l;
    }
  }

  // ----- Termination of the recursions that walk down -----

  /** A walk that visits the kids of `id` and goes on below each kid that has kids itself ends within `depth`
      nested calls. */
  predicate EndsWithin(t: seq<Edge>, id: int, depth: nat)
    decreases depth
  {
    && depth > 0
    && forall i :: 0 <= i < |Kids(t, id)| && Kids(t, Kids(t, id)[i]) != [] ==> EndsWithin(t, Kids(t, id)[i], depth - 1)
  }

  lemma {:induction false} OrderedWalkEnds(t: seq<Edge>, id: int, depth: nat)
    requires Ordered(t) && depth > Gap(t, id)
    ensures EndsWithin(t, id, depth)
    decreases depth
  {
    KidsAreYounger(t, id);
    forall i | 0 <= i < |Kids(t, id)|
      ensures EndsWithin(t, Kids(t, id)[i], depth - 1)
    {
      OrderedWalkEnds(t, Kids(t, id)[i], depth - 1);
    }
  }

  /** A node that is its own parent sends the walk round for ever: this is the zero root that stands in for a
      missing root row. */
  lemma {:induction false} OwnParentNeverEnds(t: seq<Edge>, id: int, depth: nat)
    requires Edge(id, id) in t
    ensures !EndsWithin(t, id, depth)
  {
    KidsMember(t, id, id);
    if depth > 0 {
      var i :| 0 <= i < |Kids(t, id)| && Kids(t, id)[i] == id;
      OwnParentNeverEnds(t, id, depth - 1);
    }
  }
}
