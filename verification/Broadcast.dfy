/** The websocket manager: one event loop, a bounded queue per client, and a goroutine per client that writes its
    queue out (pkg/app/server/network/websocket/client_manager.go:30-106, client.go:26-72,
    pkg/app/server/controller/push_alarm.go:35-41). */
module Broadcast {
  import opened Sequences

  type Client = int
  type Message = string

  const QUEUE_CAPACITY := 100
  const EVENT_CAPACITY := 1000

  /** The manager's channels and client map, every client's queue and output, and the history the properties
      speak of: broadcasts processed, and for each client where in that history it came, left and overflowed. */
  datatype State = State(
    register: seq<Client>, unregister: seq<Client>, broadcast: seq<Message>,
    clients: set<Client>,
    queue: map<Client, seq<Message>>, closed: set<Client>,
    written: map<Client, seq<Message>>,
    submitted: seq<Message>, log: seq<Message>,
    since: map<Client, nat>, until: map<Client, nat>, overflowed: map<Client, nat>,
    crashed: bool)

  const START := State([], [], [], {}, map[], {}, map[], [], [], map[], map[], map[], false)

  datatype Action =
    | Connect(c: Client)       // a new connection asks to be registered
    | Disconnect(c: Client)    // its reader, which is started first, fails and asks for it to be unregistered
    | Submit(m: Message)       // CliManager.Broadcast <- m
    | TakeRegister
    | TakeUnregister
    | TakeBroadcast
    | WriteOut(c: Client)      // the client's writer takes one message from its queue

  predicate Enabled(s: State, a: Action) {
    && !s.crashed
    && match a
       case Connect(c) => c !in s.queue && |s.register| < EVENT_CAPACITY
       case Disconnect(c) => |s.unregister| < EVENT_CAPACITY
       case Submit(m) => |s.broadcast| < EVENT_CAPACITY
       case TakeRegister => s.register != []
       case TakeUnregister => s.unregister != []
       case TakeBroadcast => s.broadcast != []
       case WriteOut(c) => c in s.queue && c in s.written && s.queue[c] != []
  }

  /** The queues after the manager offered `m` to every registered client: full queues are left alone. */
  function Offered(clients: set<Client>, queue: map<Client, seq<Message>>, m: Message): map<Client, seq<Message>> {
    map c | c in queue :: if c in clients && |queue[c]| < QUEUE_CAPACITY then queue[c] + [m] else queue[c]
  }

  /** The clients whose queue had no room: their queue is closed. */
  function Full(clients: set<Client>, queue: map<Client, seq<Message>>): set<Client> {
    set c | c in clients && c in queue && |queue[c]| >= QUEUE_CAPACITY
  }

  function Step(s: State, a: Action): State
    requires Enabled(s, a)
  {
    match a
    case Connect(c) =>
      s.(register := s.register + [c], queue := s.queue[c := []], written := s.written[c := []])
    case Disconnect(c) =>
      s.(unregister := s.unregister + [c])
    case Submit(m) =>
      s.(broadcast := s.broadcast + [m], submitted := s.submitted + [m])
    case TakeRegister =>
      var c := s.register[0];
      s.(register := s.register[1..], clients := s.clients + {c}, since := s.since[c := |s.log|])
    case TakeUnregister =>
      var c := s.unregister[0];
      s.(unregister := s.unregister[1..], clients := s.clients - {c},
         until := if c in s.clients then s.until[c := |s.log|] else s.until)
    case TakeBroadcast =>
      if exists c :: c in s.clients && c in s.closed then s.(crashed := true)  // a send on a closed channel panics
      else
        var m := s.broadcast[0];
        var full := Full(s.clients, s.queue);
        s.(broadcast := s.broadcast[1..], log := s.log + [m],
           queue := Offered(s.clients, s.queue, m), closed := s.closed + full,
           overflowed := map c | c in s.overflowed.Keys + full :: if c in full then |s.log| else s.overflowed[c])
    case WriteOut(c) =>
      s.(queue := s.queue[c := s.queue[c][1..]], written := s.written[c := s.written[c] + [s.queue[c][0]]])
  }

  datatype Outcome = Stuck | Reached(state: State)

  function Run(actions: seq<Action>): Outcome {
    if actions == [] then Reached(START)
    else
      match Run(actions[..|actions| - 1])
      case Stuck => Stuck
      case Reached(s) =>
        if Enabled(s, actions[|actions| - 1]) then Reached(Step(s, actions[|actions| - 1])) else Stuck
  }

  // ----- The invariant -----

  /** Where in the history a client's messages end: where it overflowed, where it left, or now. */
  function End(s: State, c: Client): nat {
    if c in s.overflowed then s.overflowed[c] else if c in s.until then s.until[c] else |s.log|
  }

  predicate ClientOk(s: State, c: Client) {
    && c in s.queue && c in s.written && |s.queue[c]| <= QUEUE_CAPACITY
    && (c in s.since ==>
          s.since[c] <= End(s, c) <= |s.log| && s.written[c] + s.queue[c] == s.log[s.since[c]..End(s, c)])
    && (c !in s.since ==> s.written[c] + s.queue[c] == [])
  }

  /** The three histories per client fit together. */
  predicate Marked(s: State) {
    && s.clients <= s.since.Keys && s.since.Keys <= s.queue.Keys
    && s.until.Keys == s.since.Keys - s.clients
    && s.closed == s.overflowed.Keys && s.closed <= s.since.Keys
    && (forall c :: c in s.overflowed ==> s.overflowed[c] < |s.log|)
    && (forall c :: c in s.overflowed && c in s.until ==> s.overflowed[c] < s.until[c])
  }

  predicate Inv(s: State) {
    && s.queue.Keys == s.written.Keys
    && (forall c :: c in s.queue ==> ClientOk(s, c))
    && Marked(s)
    && Distinct(s.register)
    && (forall i :: 0 <= i < |s.register| ==> s.register[i] in s.queue && s.register[i] !in s.since)
    && s.log + s.broadcast == s.submitted
  }

  lemma StartInv()
    ensures Inv(START)
  {
  }

  lemma ConnectInv(s: State, c: Client)
    requires Inv(s) && Enabled(s, Connect(c))
    ensures Inv(Step(s, Connect(c)))
  {
    var s' := Step(s, Connect(c));
    forall d | d in s'.queue
      ensures ClientOk(s', d)
    {
      if d != c { assert ClientOk(s, d); }
    }
  }

  lemma TakeRegisterInv(s: State)
    requires Inv(s) && Enabled(s, TakeRegister)
    ensures Inv(Step(s, TakeRegister))
  {
  }

  lemma TakeUnregisterInv(s: State)
    requires Inv(s) && Enabled(s, TakeUnregister)
    ensures Inv(Step(s, TakeUnregister))
  {
  }

  lemma WriteOutInv(s: State, c: Client)
    requires Inv(s) && Enabled(s, WriteOut(c))
    ensures Inv(Step(s, WriteOut(c)))
  {
    var s' := Step(s, WriteOut(c));
    assert (s.written[c] + [s.queue[c][0]]) + s.queue[c][1..] == s.written[c] + s.queue[c];
    forall d | d in s'.queue
      ensures ClientOk(s', d)
    {
    }
  }

  lemma TakeBroadcastInv(s: State)
    requires Inv(s) && Enabled(s, TakeBroadcast)
    ensures Inv(Step(s, TakeBroadcast))
  {
    var s' := Step(s, TakeBroadcast);
    if !(exists c :: c in s.clients && c in s.closed) {
      forall d | d in s'.queue
        ensures ClientOk(s', d)
      {
        OfferedOk(s, d);
      }
      OfferedMarked(s);
      OfferedLog(s);
      hide ClientOk, Distinct, Marked, Step, Enabled;
    } else {
      CrashedInv(s);
    }
  }

  lemma CrashedInv(s: State)
    requires Inv(s)
    ensures Inv(s.(crashed := true))
  {
  }

  lemma OfferedMarked(s: State)
    requires Inv(s) && Enabled(s, TakeBroadcast) && !(exists c :: c in s.clients && c in s.closed)
    ensures Marked(Step(s, TakeBroadcast))
  {
    hide ClientOk, Distinct;
  }

  lemma OfferedLog(s: State)
    requires Inv(s) && Enabled(s, TakeBroadcast) && !(exists c :: c in s.clients && c in s.closed)
    ensures var s' := Step(s, TakeBroadcast);
            && s'.queue.Keys == s'.written.Keys == s.queue.Keys && s'.log + s'.broadcast == s'.submitted
            && s'.register == s.register && s'.since == s.since
  {
    hide ClientOk, Distinct;
    assert s.log + s.broadcast == (s.log + [s.broadcast[0]]) + s.broadcast[1..];
  }

  lemma OfferedOk(s: State, d: Client)
    requires Inv(s) && Enabled(s, TakeBroadcast) && !(exists c :: c in s.clients && c in s.closed) && d in s.queue
    ensures ClientOk(Step(s, TakeBroadcast), d)
  {
    assert ClientOk(s, d);
    AfterOffer(s, d);
    if d in s.since {
      EndAfter(s, d);
      SliceOfAppend(s.log, s.broadcast[0], s.since[d], End(s, d));
    }
    hide Step, Inv, End, Enabled;
  }

  /** What a broadcast does to one client. */
  lemma AfterOffer(s: State, d: Client)
    requires Inv(s) && Enabled(s, TakeBroadcast) && !(exists c :: c in s.clients && c in s.closed) && d in s.queue
    ensures var s', m := Step(s, TakeBroadcast), s.broadcast[0];
            && d in s'.queue && s'.log == s.log + [m] && s'.written == s.written && s'.since == s.since
            && s'.queue[d] == if d in s.clients && |s.queue[d]| < QUEUE_CAPACITY then s.queue[d] + [m] else s.queue[d]
  {
  }

  lemma SliceOfAppend(log: seq<Message>, m: Message, from: nat, to: nat)
    requires from <= to <= |log|
    ensures (log + [m])[from..to] == log[from..to]
    ensures (log + [m])[from..|log| + 1] == log[from..|log|] + [m]
  {
  }

  /** A client that takes the message has it as its last; one that does not, or is gone, ends where it ended. */
  lemma EndAfter(s: State, d: Client)
    requires Inv(s) && Enabled(s, TakeBroadcast) && !(exists c :: c in s.clients && c in s.closed)
    requires d in s.since
    ensures d in s.queue
    ensures End(Step(s, TakeBroadcast), d)
         == if d in s.clients && |s.queue[d]| < QUEUE_CAPACITY then |s.log| + 1 else End(s, d)
    ensures d in s.clients ==> End(s, d) == |s.log|
  {
    assert ClientOk(s, d);
  }

  lemma StepInv(s: State, a: Action)
    requires Inv(s) && Enabled(s, a)
    ensures Inv(Step(s, a))
  {
    match a
    case Connect(c) => ConnectInv(s, c);
    case Disconnect(c) => SameClients(s, Step(s, a));
    case Submit(m) =>
      SameClients(s, Step(s, a));
    case TakeRegister => TakeRegisterInv(s);
    case TakeUnregister => TakeUnregisterInv(s);
    case TakeBroadcast => TakeBroadcastInv(s);
    case WriteOut(c) => WriteOutInv(s, c);
  }

  lemma SameClients(s: State, s': State)
    requires Inv(s) && s'.log + s'.broadcast == s'.submitted
    requires s' == s.(unregister := s'.unregister, broadcast := s'.broadcast, submitted := s'.submitted)
    ensures Inv(s')
  {
  }

  lemma {:induction false} RunInv(actions: seq<Action>)
    requires Run(actions).Reached?
    ensures Inv(Run(actions).state)
  {
    hide Inv, Enabled, Step;
    if actions == [] {
      StartInv();
    } else {
      var n := |actions| - 1;
      RunInv(actions[..n]);
      StepInv(Run(actions[..n]).state, actions[n]);
    }
  }

  // ----- What every run guarantees -----

  /** Over every interleaving, what a client's writer has put out followed by what is still queued is exactly the
      consecutive broadcasts processed from its registration to the moment it overflowed, left, or now, with
      at most 100 queued: none is skipped, repeated or reordered. */
  lemma ConsecutiveBroadcasts(actions: seq<Action>, c: Client)
    requires Run(actions).Reached? && c in Run(actions).state.since
    ensures var s := Run(actions).state;
            && c in s.queue && c in s.written && |s.queue[c]| <= 100
            && s.since[c] <= End(s, c) <= |s.log|
            && s.written[c] + s.queue[c] == s.log[s.since[c]..End(s, c)]
            && s.log <= s.submitted
  {
    RunInv(actions);
  }

  /** A queue is closed by a step only if its client is registered and its queue is full; the message that did
      not fit is the first one that client misses. */
  lemma ClosedOnlyWhenFull(actions: seq<Action>, a: Action, c: Client)
    requires Run(actions).Reached? && Enabled(Run(actions).state, a)
    ensures var s, s' := Run(actions).state, Step(Run(actions).state, a);
            c in s'.closed && c !in s.closed ==>
              c in s.clients && c in s.queue && |s.queue[c]| == 100
              && c in s'.overflowed && s'.overflowed[c] == |s.log|
  {
    RunInv(actions);
    var s := Run(actions).state;
  }

  /** Fewer messages have been written or queued for the client than were broadcast since it registered. */
  predicate Behind(s: State, c: Client) {
    c in s.since && c in s.written && c in s.queue && |s.log| - s.since[c] > |s.written[c]| + |s.queue[c]|
  }

  /** A registered client's queue is closed exactly when the client has missed a broadcast. */
  lemma ClosedIffBehind(actions: seq<Action>, c: Client)
    requires Run(actions).Reached? && c in Run(actions).state.clients
    ensures c in Run(actions).state.closed <==> Behind(Run(actions).state, c)
  {
    RunInv(actions);
    var s := Run(actions).state;
    assert ClientOk(s, c);
    assert |s.written[c] + s.queue[c]| == End(s, c) - s.since[c];
  }

  /** The manager panics in processing a broadcast exactly when some registered client has missed an earlier one:
      closing the queue does not take the client out of the map. */
  lemma CrashIff(actions: seq<Action>, a: Action)
    requires Run(actions).Reached? && Enabled(Run(actions).state, a)
    ensures Step(Run(actions).state, a).crashed
       <==> a == TakeBroadcast && exists c :: c in Run(actions).state.clients && Behind(Run(actions).state, c)
  {
    var s := Run(actions).state;
    forall c | c in s.clients
      ensures c in s.closed <==> Behind(s, c)
    {
      ClosedIffBehind(actions, c);
    }
  }

  // ----- A run that panics -----

  ghost predicate Reachable(s: State) {
    exists actions :: Run(actions) == Reached(s)
  }

  lemma StepReachable(s: State, a: Action)
    requires Reachable(s) && Enabled(s, a)
    ensures Reachable(Step(s, a))
  {
    hide Enabled, Step;
    var actions :| Run(actions) == Reached(s);
    assert (actions + [a])[..|actions + [a]| - 1] == actions;
    assert Run(actions + [a]) == Reached(Step(s, a));
  }

  function Copies(m: Message, k: nat): (r: seq<Message>)
    ensures |r| == k
  {
    seq(k, i requires 0 <= i < k => m)
  }

  /** One client that writes nothing out, after `k` broadcasts. */
  function Flooded(c: Client, m: Message, k: nat): State {
    var all := Copies(m, k);
    START.(clients := {c}, since := map[c := 0], written := map[c := []], submitted := all, log := all,
           queue := map[c := Copies(m, if k < QUEUE_CAPACITY then k else QUEUE_CAPACITY)],
           closed := if k > QUEUE_CAPACITY then {c} else {},
           overflowed := if k > QUEUE_CAPACITY then map[c := QUEUE_CAPACITY] else map[])
  }

  lemma StartReachable()
    ensures Reachable(START)
  {
    assert Run([]) == Reached(START);
  }

  lemma ConnectedReachable(c: Client, m: Message)
    ensures Reachable(Flooded(c, m, 0))
  {
    hide Reachable;
    StartReachable();
    var s := Step(START, Connect(c));
    StepReachable(START, Connect(c));
    StepReachable(s, TakeRegister);
    assert Step(s, TakeRegister) == Flooded(c, m, 0);
  }

  lemma OfferedToOne(c: Client, q: seq<Message>, m: Message)
    ensures Offered({c}, map[c := q], m) == map[c := if |q| < QUEUE_CAPACITY then q + [m] else q]
    ensures Full({c}, map[c := q]) == if |q| < QUEUE_CAPACITY then {} else {c}
  {
  }

  lemma NextFlood(c: Client, m: Message, k: nat)
    requires k <= QUEUE_CAPACITY
    ensures Enabled(Flooded(c, m, k), Submit(m)) && Enabled(Step(Flooded(c, m, k), Submit(m)), TakeBroadcast)
    ensures Step(Step(Flooded(c, m, k), Submit(m)), TakeBroadcast) == Flooded(c, m, k + 1)
  {
    var s, s' := Flooded(c, m, k), Flooded(c, m, k + 1);
    OfferedToOne(c, s.queue[c], m);
    hide Offered, Full;
    var r := Step(Step(s, Submit(m)), TakeBroadcast);
    assert Copies(m, k) + [m] == Copies(m, k + 1) && [] + [m] == [m] && [m][1..] == [];
    assert r.queue == s'.queue && r.closed == s'.closed && r.overflowed == s'.overflowed;
  }

  lemma {:induction false} FloodedReachable(c: Client, m: Message, k: nat)
    requires k <= QUEUE_CAPACITY + 1
    ensures Reachable(Flooded(c, m, k))
  {
    hide Reachable, Flooded, Enabled, Step;
    if k == 0 {
      ConnectedReachable(c, m);
    } else {
      FloodedReachable(c, m, k - 1);
      NextFlood(c, m, k - 1);
      StepReachable(Flooded(c, m, k - 1), Submit(m));
      StepReachable(Step(Flooded(c, m, k - 1), Submit(m)), TakeBroadcast);
    }
  }

  /** A client that writes nothing out is enough: the hundred and first broadcast closes its queue, the next one
      panics. */
  lemma OneSlowClientCrashes(c: Client, m: Message)
    ensures exists s :: Reachable(s) && s.crashed && s.submitted == Copies(m, QUEUE_CAPACITY + 2)
  {
    hide Reachable;
    var s := Flooded(c, m, QUEUE_CAPACITY + 1);
    FloodedReachable(c, m, QUEUE_CAPACITY + 1);
    StepReachable(s, Submit(m));
    var s' := Step(s, Submit(m));
    assert s.submitted + [m] == Copies(m, QUEUE_CAPACITY + 2);
    assert c in s'.clients && c in s'.closed;
    StepReachable(s', TakeBroadcast);
  }

  // ----- The broadcast loop -----

  /** The queues and closed queues when the clients in `done` have been offered the message. */
  predicate Partly(done: set<Client>, m: Message, queue: map<Client, seq<Message>>, closed: set<Client>,
                   queue': map<Client, seq<Message>>, closed': set<Client>) {
    && queue'.Keys == queue.Keys
    && forall c :: c in queue ==>
         && queue'[c] == (if c in done && |queue[c]| < QUEUE_CAPACITY then queue[c] + [m] else queue[c])
         && (c in closed' <==> c in closed || (c in done && |queue[c]| >= QUEUE_CAPACITY))
  }

  lemma OneMore(done: set<Client>, m: Message, queue: map<Client, seq<Message>>, closed: set<Client>,
                queue': map<Client, seq<Message>>, closed': set<Client>, c: Client)
    requires Partly(done, m, queue, closed, queue', closed') && c in queue && c !in done && c !in closed
    ensures |queue[c]| < QUEUE_CAPACITY ==>
              Partly(done + {c}, m, queue, closed, queue'[c := queue'[c] + [m]], closed')
    ensures |queue[c]| >= QUEUE_CAPACITY ==> Partly(done + {c}, m, queue, closed, queue', closed' + {c})
    ensures queue'[c] == queue[c] && c !in closed'
  {
  }

  class ClientManager {
    var clients: set<Client>
    var queue: map<Client, seq<Message>>
    var closed: set<Client>

    /** One broadcast: the clients are visited in some order; sending to a closed queue panics. Otherwise the
        new queues and closed queues are those of the step that processes a broadcast. */
    method OnBroadcast(message: Message, order: seq<Client>) returns (panicked: bool)
      requires clients <= queue.Keys && Distinct(order) && forall c :: c in order <==> c in clients
      modifies this`queue, this`closed
      ensures panicked <==> exists c :: c in clients && c in old(closed)
      ensures !panicked ==> queue.Keys == old(queue).Keys && forall c :: c in queue ==>
                queue[c] == Offered(clients, old(queue), message)[c]
                && (c in closed <==> c in old(closed) || c in Full(clients, old(queue)))
    {
      ghost var done: set<Client> := {};
      for i := 0 to |order|
        invariant forall c :: c in done <==> c in order[..i]
        invariant forall c :: c in done ==> c !in old(closed)
        invariant Partly(done, message, old(queue), old(closed), queue, closed)
      {
        hide Partly, Distinct;
        var conn := order[i];
        NextInOrder(order, i);
        ClosedBefore(done, message, old(queue), old(closed), queue, closed, conn);
        if conn in closed {
          return true;
        }
        OneMore(done, message, old(queue), old(closed), queue, closed, conn);
        done := done + {conn};
        if |queue[conn]| < QUEUE_CAPACITY {
          queue := queue[conn := queue[conn] + [message]];
        } else {
          closed := closed + {conn};
        }
      }
      assert order[..|order|] == order;
      return false;
    }
  }

  lemma NextInOrder(order: seq<Client>, i: nat)
    requires Distinct(order) && i < |order|
    ensures order[i] in order && order[..i + 1] == order[..i] + [order[i]] && order[i] !in order[..i]
  {
  }

  lemma ClosedBefore(done: set<Client>, m: Message, queue: map<Client, seq<Message>>, closed: set<Client>,
                     queue': map<Client, seq<Message>>, closed': set<Client>, c: Client)
    requires Partly(done, m, queue, closed, queue', closed') && c in queue && c !in done
    ensures c in closed' <==> c in closed
    ensures c in queue'
  {
  }
}
