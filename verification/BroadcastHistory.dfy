/** The websocket manager seen from outside: who is registered, since when and until when, and what each client's
    writer has put out, read off the list of actions alone (pkg/app/server/network/websocket/client_manager.go:63-106,
    client.go:41-72). */
module BroadcastHistory {
  import opened Sequences
  import opened Broadcast

  // ----- What a list of actions says -----

  function Count(actions: seq<Action>, a: Action): nat {
    if actions == [] then 0
    else Count(actions[..|actions| - 1], a) + if actions[|actions| - 1] == a then 1 else 0
  }

  /** The clients that connected, in order. */
  function Connects(actions: seq<Action>): seq<Client> {
    if actions == [] then []
    else
      var a := actions[|actions| - 1];
      Connects(actions[..|actions| - 1]) + if a.Connect? then [a.c] else []
  }

  /** The clients whose readers failed, in order. */
  function Disconnects(actions: seq<Action>): seq<Client> {
    if actions == [] then []
    else
      var a := actions[|actions| - 1];
      Disconnects(actions[..|actions| - 1]) + if a.Disconnect? then [a.c] else []
  }

  /** The messages submitted, in order. */
  function Submissions(actions: seq<Action>): seq<Message> {
    if actions == [] then []
    else
      var a := actions[|actions| - 1];
      Submissions(actions[..|actions| - 1]) + if a.Submit? then [a.m] else []
  }

  /** Action `i` registers `c`: it is the k-th registration processed, and `c` was the k-th to connect. */
  predicate Registers(actions: seq<Action>, i: nat, c: Client) {
    && i < |actions| && actions[i] == TakeRegister
    && var k := Count(actions[..i], TakeRegister);
       k < |Connects(actions[..i])| && Connects(actions[..i])[k] == c
  }

  predicate Unregisters(actions: seq<Action>, i: nat, c: Client) {
    && i < |actions| && actions[i] == TakeUnregister
    && var k := Count(actions[..i], TakeUnregister);
       k < |Disconnects(actions[..i])| && Disconnects(actions[..i])[k] == c
  }

  /** Action `i` registers `c` and nothing up to action `n` unregisters it. */
  predicate Stays(actions: seq<Action>, i: nat, n: nat, c: Client) {
    Registers(actions, i, c) && forall j :: i < j < n ==> !Unregisters(actions, j, c)
  }

  /** By action `n`, `c` was registered and has not been unregistered since. */
  predicate Registered(actions: seq<Action>, n: nat, c: Client) {
    exists i :: 0 <= i < n && Stays(actions, i, n, c)
  }

  /** Action `j` unregisters `c` while it is registered. */
  predicate Leaves(actions: seq<Action>, j: nat, c: Client) {
    Registered(actions, j, c) && Unregisters(actions, j, c)
  }

  // ----- Prefixes -----

  lemma PrefixSame(actions: seq<Action>, n: nat, i: nat, c: Client)
    requires i < n <= |actions|
    ensures Registers(actions[..n], i, c) <==> Registers(actions, i, c)
    ensures Unregisters(actions[..n], i, c) <==> Unregisters(actions, i, c)
  {
    assert actions[..n][..i] == actions[..i];
  }

  lemma PrefixStays(actions: seq<Action>, n: nat, i: nat, j: nat, c: Client)
    requires i < n <= |actions| && j <= n
    ensures Stays(actions[..n], i, j, c) <==> Stays(actions, i, j, c)
  {
    PrefixSame(actions, n, i, c);
    forall k | i < k < j
      ensures Unregisters(actions[..n], k, c) <==> Unregisters(actions, k, c)
    {
      PrefixSame(actions, n, k, c);
    }
  }

  lemma PrefixLeaves(actions: seq<Action>, n: nat, j: nat, c: Client)
    requires j < n <= |actions|
    ensures Leaves(actions[..n], j, c) <==> Leaves(actions, j, c)
  {
    PrefixSame(actions, n, j, c);
    hide Stays, Unregisters;
    forall i | 0 <= i < j
      ensures Stays(actions[..n], i, j, c) <==> Stays(actions, i, j, c)
    {
      PrefixStays(actions, n, i, j, c);
    }
  }

  lemma PrefixReached(actions: seq<Action>)
    requires actions != [] && Run(actions).Reached?
    ensures Run(actions[..|actions| - 1]).Reached?
    ensures var s, a := Run(actions[..|actions| - 1]).state, actions[|actions| - 1];
            Enabled(s, a) && Run(actions).state == Step(s, a)
  {
  }

  // ----- The channels are queues -----

  /** A channel holds what was sent and is not among the first `taken`, oldest first. */
  predicate Holds<T(==)>(channel: seq<T>, sent: seq<T>, taken: nat) {
    taken <= |sent| && channel == sent[taken..]
  }

  predicate EventsAgree(actions: seq<Action>, s: State) {
    && Holds(s.register, Connects(actions), Count(actions, TakeRegister))
    && Holds(s.unregister, Disconnects(actions), Count(actions, TakeUnregister))
  }

  predicate MessagesAgree(actions: seq<Action>, s: State) {
    && s.submitted == Submissions(actions)
    && |s.log| + (if s.crashed then 1 else 0) == Count(actions, TakeBroadcast) <= |Submissions(actions)|
    && s.log <= Submissions(actions)
    && Holds(s.broadcast, Submissions(actions), |s.log|)
  }

  predicate WriterAgrees(actions: seq<Action>, s: State, c: Client) {
    && (c in s.written <==> c in Connects(actions))
    && Count(actions, WriteOut(c)) == if c in s.written then |s.written[c]| else 0
  }

  lemma CountAppended(actions: seq<Action>, a: Action, b: Action)
    ensures Count(actions + [a], b) == Count(actions, b) + if a == b then 1 else 0
  {
    assert (actions + [a])[..|actions + [a]| - 1] == actions;
  }

  lemma Appended(actions: seq<Action>, a: Action)
    ensures Connects(actions + [a]) == Connects(actions) + if a.Connect? then [a.c] else []
    ensures Disconnects(actions + [a]) == Disconnects(actions) + if a.Disconnect? then [a.c] else []
    ensures Submissions(actions + [a]) == Submissions(actions) + if a.Submit? then [a.m] else []
  {
    assert (actions + [a])[..|actions + [a]| - 1] == actions;
  }

  lemma HoldsMore<T>(channel: seq<T>, sent: seq<T>, taken: nat, x: T)
    requires Holds(channel, sent, taken)
    ensures Holds(channel + [x], sent + [x], taken)
  {
  }

  lemma HoldsLess<T>(channel: seq<T>, sent: seq<T>, taken: nat)
    requires Holds(channel, sent, taken) && channel != []
    ensures Holds(channel[1..], sent, taken + 1)
    ensures taken < |sent| && channel[0] == sent[taken]
  {
  }

  lemma StepEvents(s: State, a: Action)
    requires Enabled(s, a)
    ensures a == TakeRegister ==> s.register != []
    ensures a == TakeUnregister ==> s.unregister != []
    ensures Step(s, a).register
         == if a.Connect? then s.register + [a.c] else if a == TakeRegister then s.register[1..] else s.register
    ensures Step(s, a).unregister
         == if a.Disconnect? then s.unregister + [a.c]
            else if a == TakeUnregister then s.unregister[1..] else s.unregister
  {
    hide Offered, Full;
  }

  lemma RegisterStep(actions: seq<Action>, s: State, a: Action)
    requires Enabled(s, a) && Holds(s.register, Connects(actions), Count(actions, TakeRegister))
    ensures Holds(Step(s, a).register, Connects(actions + [a]), Count(actions + [a], TakeRegister))
  {
    StepEvents(s, a);
    Appended(actions, a);
    CountAppended(actions, a, TakeRegister);
    hide Connects, Disconnects, Submissions, Count, Holds, Step, Enabled;
    var came, i := Connects(actions), Count(actions, TakeRegister);
    if a.Connect? {
      HoldsMore(s.register, came, i, a.c);
    } else {
      assert came + [] == came;
      if a == TakeRegister {
        HoldsLess(s.register, came, i);
      }
    }
  }

  lemma UnregisterStep(actions: seq<Action>, s: State, a: Action)
    requires Enabled(s, a) && Holds(s.unregister, Disconnects(actions), Count(actions, TakeUnregister))
    ensures Holds(Step(s, a).unregister, Disconnects(actions + [a]), Count(actions + [a], TakeUnregister))
  {
    StepEvents(s, a);
    Appended(actions, a);
    CountAppended(actions, a, TakeUnregister);
    hide Connects, Disconnects, Submissions, Count, Holds, Step, Enabled;
    var left, j := Disconnects(actions), Count(actions, TakeUnregister);
    if a.Disconnect? {
      HoldsMore(s.unregister, left, j, a.c);
    } else {
      assert left + [] == left;
      if a == TakeUnregister {
        HoldsLess(s.unregister, left, j);
      }
    }
  }

  lemma StepMessages(s: State, a: Action)
    requires Enabled(s, a)
    ensures var s' := Step(s, a);
            && !s.crashed && (s'.crashed ==> a == TakeBroadcast) && (a == TakeBroadcast ==> s.broadcast != [])
            && s'.submitted == s.submitted + (if a.Submit? then [a.m] else [])
            && (a == TakeBroadcast && !s'.crashed ==>
                  s'.log == s.log + [s.broadcast[0]] && s'.broadcast == s.broadcast[1..])
            && (a != TakeBroadcast || s'.crashed ==>
                  s'.log == s.log && s'.broadcast == s.broadcast + (if a.Submit? then [a.m] else []))
  {
    hide Offered, Full;
  }

  lemma MessagesAgreeStep(actions: seq<Action>, s: State, a: Action)
    requires Enabled(s, a) && MessagesAgree(actions, s)
    ensures MessagesAgree(actions + [a], Step(s, a))
  {
    StepMessages(s, a);
    Appended(actions, a);
    CountAppended(actions, a, TakeBroadcast);
    hide Submissions, Count, Holds, Step, Enabled;
    var all, s' := Submissions(actions), Step(s, a);
    assert all + [] == all && s.broadcast + [] == s.broadcast;
    if a == TakeBroadcast {
      HoldsLess(s.broadcast, all, |s.log|);
    } else if a.Submit? {
      HoldsMore(s.broadcast, all, |s.log|, a.m);
    }
  }

  lemma StepWriter(s: State, a: Action, c: Client)
    requires s.queue.Keys == s.written.Keys && Enabled(s, a)
    ensures var s' := Step(s, a);
            && (c in s'.written <==> c in s.written || a == Connect(c))
            && (a == Connect(c) ==> c !in s.written && s'.written[c] == [])
            && (a == WriteOut(c) ==> c in s.written)
            && (c in s.written ==> |s'.written[c]| == |s.written[c]| + if a == WriteOut(c) then 1 else 0)
  {
    hide Offered, Full;
  }

  lemma WriterAgreesStep(actions: seq<Action>, s: State, a: Action, c: Client)
    requires s.queue.Keys == s.written.Keys && Enabled(s, a) && WriterAgrees(actions, s, c)
    ensures WriterAgrees(actions + [a], Step(s, a), c)
  {
    StepWriter(s, a, c);
    Appended(actions, a);
    CountAppended(actions, a, WriteOut(c));
    hide Connects, Count, Step, Enabled;
  }

  /** Over every run, the three channels hold what was sent to them and not yet taken, oldest first; the history of
      broadcasts is the front of the submissions, one for each broadcast processed (the one that panicked is not in
      it); and each client has written out one message for each turn of its writer. */
  lemma {:induction false} ChannelsAreQueues(actions: seq<Action>)
    requires Run(actions).Reached?
    ensures EventsAgree(actions, Run(actions).state) && MessagesAgree(actions, Run(actions).state)
    ensures forall c :: WriterAgrees(actions, Run(actions).state, c)
  {
    if actions == [] {
    } else {
      var n := |actions| - 1;
      PrefixReached(actions);
      var s := Run(actions[..n]).state;
      ChannelsAreQueues(actions[..n]);
      RunInv(actions[..n]);
      assert s.queue.Keys == s.written.Keys;
      hide Run, Inv, Holds, MessagesAgree, WriterAgrees, Step, Enabled;
      assert actions == actions[..n] + [actions[n]];
      RegisterStep(actions[..n], s, actions[n]);
      UnregisterStep(actions[..n], s, actions[n]);
      MessagesAgreeStep(actions[..n], s, actions[n]);
      forall c
        ensures WriterAgrees(actions, Step(s, actions[n]), c)
      {
        WriterAgreesStep(actions[..n], s, actions[n], c);
      }
    }
  }

  // ----- Who is registered -----

  /** The action after a run registers, or unregisters, the client at the head of the channel. */
  lemma NextTaken(actions: seq<Action>, a: Action, c: Client)
    requires Run(actions).Reached? && Enabled(Run(actions).state, a)
    ensures var s, n := Run(actions).state, |actions|;
            && (a == TakeRegister ==> s.register != []) && (a == TakeUnregister ==> s.unregister != [])
            && (Registers(actions + [a], n, c) <==> a == TakeRegister && s.register[0] == c)
            && (Unregisters(actions + [a], n, c) <==> a == TakeUnregister && s.unregister[0] == c)
            && |s.log| == Count(actions, TakeBroadcast)
  {
    ChannelsAreQueues(actions);
    assert (actions + [a])[..|actions|] == actions;
    hide Run, Count, Connects, Disconnects, Submissions, WriterAgrees;
  }

  lemma StaysAppended(actions: seq<Action>, a: Action, c: Client)
    ensures Registered(actions + [a], |actions| + 1, c)
       <==> Registers(actions + [a], |actions|, c)
            || (!Unregisters(actions + [a], |actions|, c) && Registered(actions, |actions|, c))
  {
    var next, n := actions + [a], |actions|;
    assert next[..n] == actions;
    forall i | 0 <= i < n
      ensures Stays(next, i, n, c) <==> Stays(actions, i, n, c)
    {
      PrefixStays(next, n, i, n, c);
    }
    hide Registers, Unregisters;
    if Registers(next, n, c) {
      assert Stays(next, n, n + 1, c);
    }
    if Registered(actions, n, c) && !Unregisters(next, n, c) {
      var i :| 0 <= i < n && Stays(actions, i, n, c);
      assert Stays(next, i, n + 1, c);
    }
    if Registered(next, n + 1, c) && !Registers(next, n, c) {
      var i :| 0 <= i < n + 1 && Stays(next, i, n + 1, c);
      assert i < n && Stays(next, i, n, c);
    }
  }

  lemma StepClients(s: State, a: Action, c: Client)
    requires Enabled(s, a)
    ensures a == TakeRegister ==> s.register != []
    ensures a == TakeUnregister ==> s.unregister != []
    ensures c in Step(s, a).clients
       <==> (a == TakeRegister && s.register[0] == c)
            || (c in s.clients && !(a == TakeUnregister && s.unregister[0] == c))
  {
    hide Offered, Full;
  }

  /** Over every run, a client is registered exactly when it was registered and not unregistered since: what the
      manager processes in each case is the oldest connection, or disconnection, not yet processed. */
  lemma {:induction false} RegisteredIff(actions: seq<Action>, c: Client)
    requires Run(actions).Reached?
    ensures c in Run(actions).state.clients <==> Registered(actions, |actions|, c)
  {
    if actions == [] {
    } else {
      var n := |actions| - 1;
      var p, a := actions[..n], actions[n];
      PrefixReached(actions);
      RegisteredIff(p, c);
      NextTaken(p, a, c);
      assert actions == p + [a];
      hide Run, Registered, Registers, Unregisters, Step, Enabled;
      StaysAppended(p, a, c);
      StepClients(Run(p).state, a, c);
    }
  }

  // ----- Since when and until when -----

  lemma StepMarks(s: State, a: Action, c: Client)
    requires Enabled(s, a)
    ensures a == TakeRegister ==> s.register != []
    ensures a == TakeUnregister ==> s.unregister != []
    ensures var s', comes, leaves := Step(s, a), a == TakeRegister && s.register[0] == c,
              a == TakeUnregister && s.unregister[0] == c && c in s.clients;
            && (c in s'.since <==> comes || c in s.since)
            && (comes ==> s'.since[c] == |s.log|)
            && (!comes && c in s.since ==> s'.since[c] == s.since[c])
            && (c in s'.until <==> leaves || c in s.until)
            && (leaves ==> s'.until[c] == |s.log|)
            && (!leaves && c in s.until ==> s'.until[c] == s.until[c])
  {
    hide Offered, Full;
  }

  /** Over every run, a client's messages start with the broadcasts processed when it was registered and end with
      those processed when it was unregistered. */
  lemma {:induction false} Marks(actions: seq<Action>, i: nat, c: Client)
    requires Run(actions).Reached? && i < |actions|
    ensures var s := Run(actions).state;
            && (Registers(actions, i, c) ==> c in s.since && s.since[c] == Count(actions[..i], TakeBroadcast))
            && (Leaves(actions, i, c) ==> c in s.until && s.until[c] == Count(actions[..i], TakeBroadcast))
  {
    var n := |actions| - 1;
    var p, a := actions[..n], actions[n];
    PrefixReached(actions);
    NextTaken(p, a, c);
    RunInv(p);
    var s := Run(p).state;
    NotTwice(s, a, c);
    StepMarks(s, a, c);
    assert actions == p + [a];
    hide Step, Enabled, Inv, Count;
    if i == n {
      RegisteredIff(p, c);
      RegisteredHere(actions, n, c);
    } else {
      Marks(p, i, c);
      PrefixSame(actions, n, i, c);
      PrefixLeaves(actions, n, i, c);
      assert p[..i] == actions[..i];
    }
  }

  lemma NotTwice(s: State, a: Action, c: Client)
    requires Inv(s) && Enabled(s, a)
    ensures a == TakeRegister ==> s.register != []
    ensures c in s.since ==> !(a == TakeRegister && s.register[0] == c)
    ensures c in s.until ==> c !in s.clients
  {
  }

  lemma RegisteredHere(actions: seq<Action>, n: nat, c: Client)
    requires n <= |actions|
    ensures Registered(actions[..n], n, c) <==> Registered(actions, n, c)
  {
    forall i | 0 <= i < n
      ensures Stays(actions[..n], i, n, c) <==> Stays(actions, i, n, c)
    {
      PrefixStays(actions, n, i, n, c);
    }
  }

  // ----- What a client gets -----

  /** Over every run, a client that was registered has written out one message for every turn of its writer, the
      first of the broadcasts processed since, in order; the next ones, at most 100, are queued. As long as its
      queue is open, these are all the broadcasts processed, or, if it was unregistered, all those processed before
      that: nothing is queued for it afterwards. */
  lemma Delivered(actions: seq<Action>, i: nat, c: Client)
    requires Run(actions).Reached? && Registers(actions, i, c)
    ensures var s, all := Run(actions).state, Submissions(actions);
            var from, k := Count(actions[..i], TakeBroadcast), Count(actions, WriteOut(c));
            && c in s.written && c in s.queue && from + k + |s.queue[c]| <= |s.log| <= |all|
            && s.written[c] == all[from..from + k]
            && s.queue[c] == all[from + k..from + k + |s.queue[c]|] && |s.queue[c]| <= 100
            && (Registered(actions, |actions|, c) && c !in s.closed ==> from + k + |s.queue[c]| == |s.log|)
            && (forall j :: 0 <= j < |actions| && Leaves(actions, j, c) ==>
                  var to := Count(actions[..j], TakeBroadcast);
                  from + k + |s.queue[c]| <= to && (c !in s.closed ==> from + k + |s.queue[c]| == to))
  {
    var s := Run(actions).state;
    QueuedAndWritten(actions, i, c);
    RegisteredIff(actions, c);
    EndsByLeaving(actions, c);
    forall j | 0 <= j < |actions| && Leaves(actions, j, c)
      ensures c in s.until && s.until[c] == Count(actions[..j], TakeBroadcast)
    {
      Marks(actions, j, c);
    }
    hide Run, Leaves, Registers, Registered, Count, Submissions, End;
  }

  lemma QueuedAndWritten(actions: seq<Action>, i: nat, c: Client)
    requires Run(actions).Reached? && Registers(actions, i, c)
    ensures var s, all := Run(actions).state, Submissions(actions);
            var from, k := Count(actions[..i], TakeBroadcast), Count(actions, WriteOut(c));
            && c in s.written && c in s.queue && from + k + |s.queue[c]| == End(s, c) <= |s.log| <= |all|
            && s.written[c] == all[from..from + k]
            && s.queue[c] == all[from + k..from + k + |s.queue[c]|] && |s.queue[c]| <= 100
  {
    assert i < |actions|;
    hide *;
    var s := Run(actions).state;
    Marks(actions, i, c);
    WrittenSoFar(actions, c);
    ConsecutiveBroadcasts(actions, c);
    Parts(s.written[c], s.queue[c], Submissions(actions), s.log, s.since[c], End(s, c));
  }

  lemma WrittenSoFar(actions: seq<Action>, c: Client)
    requires Run(actions).Reached?
    ensures var s := Run(actions).state;
            && s.log <= Submissions(actions)
            && (c in s.written ==> |s.written[c]| == Count(actions, WriteOut(c)))
  {
    ChannelsAreQueues(actions);
    assert WriterAgrees(actions, Run(actions).state, c);
  }

  /** The end of a client's messages is not after its leaving, and is there, or at the end, if its queue is open. */
  lemma EndsByLeaving(actions: seq<Action>, c: Client)
    requires Run(actions).Reached?
    ensures var s := Run(actions).state;
            && (c in s.until ==> c !in s.clients && End(s, c) <= s.until[c])
            && (c !in s.closed ==> End(s, c) == if c in s.until then s.until[c] else |s.log|)
            && (c in s.clients ==> c !in s.until)
  {
    RunInv(actions);
    hide Run, Distinct;
    assert c in Run(actions).state.queue ==> ClientOk(Run(actions).state, c);
  }

  lemma Parts(w: seq<Message>, q: seq<Message>, all: seq<Message>, log: seq<Message>, from: nat, to: nat)
    requires from <= to <= |log| && log <= all && w + q == log[from..to]
    ensures to == from + |w| + |q| && w == all[from..from + |w|]
    ensures q == all[from + |w|..from + |w| + |q|]
  {
    assert log[from..to] == all[from..to];
    assert w == (w + q)[..|w|] && q == (w + q)[|w|..];
  }

  // ----- Which lists of actions are runs -----

  /** A run goes on with an action, unless it has panicked, exactly if there is room in the channel or something in
      it. */
  lemma CanFollow(actions: seq<Action>, a: Action)
    requires Run(actions).Reached?
    ensures var s := Run(actions).state;
            Run(actions + [a]).Reached? <==>
            && !s.crashed
            && match a
               case Connect(c) =>
                 c !in Connects(actions) && |Connects(actions)| < Count(actions, TakeRegister) + 1000
               case Disconnect(c) => |Disconnects(actions)| < Count(actions, TakeUnregister) + 1000
               case Submit(m) => |Submissions(actions)| < Count(actions, TakeBroadcast) + 1000
               case TakeRegister => Count(actions, TakeRegister) < |Connects(actions)|
               case TakeUnregister => Count(actions, TakeUnregister) < |Disconnects(actions)|
               case TakeBroadcast => Count(actions, TakeBroadcast) < |Submissions(actions)|
               case WriteOut(c) => c in Connects(actions) && c in s.queue && s.queue[c] != []
  {
    var s, next := Run(actions).state, actions + [a];
    assert next[..|next| - 1] == actions;
    assert Run(next).Reached? <==> Enabled(s, a);
    ChannelsAreQueues(actions);
    RunInv(actions);
    assert s.queue.Keys == s.written.Keys;
    if a.Connect? || a.WriteOut? {
      assert WriterAgrees(actions, s, a.c);
    }
    hide Run, Step, Inv, Count, Connects, Disconnects, Submissions;
  }

  /** A client whose disconnection is processed before its registration stays registered: everything sent has been
      processed, and it is still there. */
  lemma LeftTooEarly(c: Client)
    ensures exists actions ::
              && Run(actions).Reached? && Disconnect(c) in actions && c in Run(actions).state.clients
              && Run(actions).state.register == [] && Run(actions).state.unregister == []
  {
    var some := [Connect(c), Disconnect(c), TakeUnregister];
    var all := some + [TakeRegister];
    assert [Connect(c)][..0] == [] && Run([Connect(c)]) == Reached(Step(START, Connect(c)));
    assert [Connect(c), Disconnect(c)][..1] == [Connect(c)] && some[..2] == [Connect(c), Disconnect(c)];
    assert Run(some).Reached? && Run(some).state.register == [c];
    assert all[..3] == some;
    assert Run(all) == Reached(Step(Run(some).state, TakeRegister));
    assert all[1] == Disconnect(c);
  }
}
