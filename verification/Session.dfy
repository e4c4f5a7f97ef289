/** Requests and replies between the server and one agent, as an interleaving of the callers of `sendMessage`,
    the sender goroutine, the agent, the read loops and the goroutines that run `ProcessMessage`
    (pkg/app/server/agentmanager/agent.go:46-115, 211-232, pkg/app/agent/network/client.go:69-119,
    pkg/utils/message/protocol/message.go:219-237). The connection carries bytes. */
module Session {
  import opened Tlv
  import opened Framing
  import opened Links
  import Sender

  const SERVER_CAPACITY := 50
  const AGENT_CAPACITY := 100
  const READ_SIZE := 1024

  /** A call of `sendMessage`: it has stored its channel in `WaitMap`; it has put its request into the message
      channel (and waits for the reply, if it is a waiting call); it has returned. */
  datatype Phase = Registered | Sent | Returned(reply: Message)

  datatype Call = Call(request: Message, waits: bool, phase: Phase)

  datatype State = State(
    calls: map<string, Call>,      // every call of sendMessage ever made, by UUID
    waitMap: set<string>,          // the keys of WaitMap
    outbox: seq<Message>,          // the server's messageChan
    down: Link,                    // server to agent
    processing: seq<Message>,      // agent goroutines running a handler
    made: map<string, Message>,    // every message the agent ever made, by UUID
    served: map<string, Message>,  // the request each reply was made for
    agentOutbox: seq<Message>,     // the agent's messageChan
    up: Link,                      // agent to server
    arrived: seq<Message>,         // server goroutines about to load WaitMap
    delivering: seq<Message>,      // server goroutines blocked on `waitChan <- msg`
    handled: seq<Message>)         // messages given to handlerMap

  const START := State(map[], {}, [], IDLE, [], map[], map[], [], IDLE, [], [], [])

  datatype Action =
    | Begin(message: Message, waits: bool)   // sendMessage up to and including WaitMap.Store
    | Enqueue(uuid: string)                  // a.messageChan <- msg
    | ServerSend(answers: seq<Sender.Answer>)  // SendBytes over a connection that answers its writes like this
    | DownRead(n: nat)
    | AgentReply(i: nat, reply: Message)     // a handler answers with a message that echoes the UUID
    | AgentNotify(message: Message)          // a message the agent sends on its own account
    | AgentSend(answers: seq<Sender.Answer>)
    | UpRead(n: nat)
    | Load(i: nat)                           // ProcessMessage looks the UUID up in WaitMap
    | Hand(i: nat)                           // the channel operation that ends a waiting call

  /** What a step needs. UUIDs are never generated twice. */
  predicate Enabled(c: Codec, s: State, a: Action) {
    match a
    case Begin(m, _) => c.fits(m) && m.uuid !in s.calls && m.uuid !in s.made
    case Enqueue(u) => u in s.calls && s.calls[u].phase == Registered && |s.outbox| < SERVER_CAPACITY
    case ServerSend(answers) => s.outbox != [] && Carried(c, s.outbox[0], answers)
    case DownRead(n) => n <= |s.down.flight| && n <= READ_SIZE
    case AgentReply(i, reply) =>
      && i < |s.processing| && c.fits(reply) && reply.uuid == s.processing[i].uuid
      && |s.agentOutbox| < AGENT_CAPACITY
    case AgentNotify(m) => c.fits(m) && m.uuid !in s.calls && m.uuid !in s.made && |s.agentOutbox| < AGENT_CAPACITY
    case AgentSend(answers) => s.agentOutbox != [] && Carried(c, s.agentOutbox[0], answers)
    case UpRead(n) => n <= |s.up.flight| && n <= READ_SIZE
    case Load(i) => i < |s.arrived|
    case Hand(i) =>
      && i < |s.delivering| && s.delivering[i].uuid in s.calls
      && s.calls[s.delivering[i].uuid].waits && s.calls[s.delivering[i].uuid].phase == Sent
  }

  function Without<T>(s: seq<T>, i: nat): seq<T>
    requires i < |s|
  {
    s[..i] + s[i + 1..]
  }

  lemma WithoutIsPart<T>(s: seq<T>, i: nat)
    requires i < |s|
    ensures forall x :: x in Without(s, i) ==> x in s
  {
  }

  function Step(c: Codec, s: State, a: Action): State
    requires Enabled(c, s, a)
  {
    match a
    case Begin(m, waits) =>
      s.(calls := s.calls[m.uuid := Call(m, waits, Registered)],
         waitMap := if waits then s.waitMap + {m.uuid} else s.waitMap)
    case Enqueue(u) =>
      s.(calls := s.calls[u := s.calls[u].(phase := Sent)], outbox := s.outbox + [s.calls[u].request])
    case ServerSend(answers) =>
      s.(outbox := s.outbox[1..], down := Transmit(c, s.down, s.outbox[0], answers))
    case DownRead(n) =>
      var down := ReadByAgent(s.down, n);
      s.(down := down, processing := s.processing + CutBy(c, s.down, down))
    case AgentReply(i, reply) =>
      s.(processing := Without(s.processing, i), made := s.made[reply.uuid := reply],
         served := s.served[reply.uuid := s.processing[i]], agentOutbox := s.agentOutbox + [reply])
    case AgentNotify(m) =>
      s.(made := s.made[m.uuid := m], agentOutbox := s.agentOutbox + [m])
    case AgentSend(answers) =>
      s.(agentOutbox := s.agentOutbox[1..], up := Transmit(c, s.up, s.agentOutbox[0], answers))
    case UpRead(n) =>
      var up := ReadByServer(s.up, n);
      s.(up := up, arrived := s.arrived + CutBy(c, s.up, up))
    case Load(i) =>
      var m := s.arrived[i];
      if m.uuid in s.waitMap
      then s.(arrived := Without(s.arrived, i), delivering := s.delivering + [m])
      else s.(arrived := Without(s.arrived, i), handled := s.handled + [m])
    case Hand(i) =>
      var m := s.delivering[i];
      s.(delivering := Without(s.delivering, i), calls := s.calls[m.uuid := s.calls[m.uuid].(phase := Returned(m))])
  }

  datatype Outcome = Stuck | Reached(state: State)

  function Run(c: Codec, actions: seq<Action>): Outcome {
    if actions == [] then Reached(START)
    else
      match Run(c, actions[..|actions| - 1])
      case Stuck => Stuck
      case Reached(s) =>
        var a := actions[|actions| - 1];
        if Enabled(c, s, a) then Reached(Step(c, s, a)) else Stuck
  }

  // ----- Counting messages by UUID -----

  function Count(messages: seq<Message>, u: string): nat {
    if messages == [] then 0 else (if messages[0].uuid == u then 1 else 0) + Count(messages[1..], u)
  }

  lemma {:induction false} CountConcat(a: seq<Message>, b: seq<Message>, u: string)
    ensures Count(a + b, u) == Count(a, u) + Count(b, u)
  {
    if a == [] {
      assert a + b == b;
    } else {
      assert (a + b)[1..] == a[1..] + b;
      CountConcat(a[1..], b, u);
    }
  }

  lemma CountAppend(a: seq<Message>, m: Message, u: string)
    ensures Count(a + [m], u) == Count(a, u) + if m.uuid == u then 1 else 0
  {
    CountConcat(a, [m], u);
  }

  lemma CountWithout(a: seq<Message>, i: nat, u: string)
    requires i < |a|
    ensures Count(a, u) == Count(Without(a, i), u) + if a[i].uuid == u then 1 else 0
  {
    assert a == (a[..i] + [a[i]]) + a[i + 1..];
    CountConcat(a[..i] + [a[i]], a[i + 1..], u);
    CountAppend(a[..i], a[i], u);
    CountConcat(a[..i], a[i + 1..], u);
  }

  lemma CountFirst(a: seq<Message>, u: string)
    requires a != []
    ensures Count(a, u) == Count(a[1..], u) + if a[0].uuid == u then 1 else 0
  {
  }

  lemma {:induction false} CountMember(a: seq<Message>, m: Message)
    requires m in a
    ensures Count(a, m.uuid) >= 1
  {
    if m != a[0] {
      CountMember(a[1..], m);
    }
  }

  /** The messages with UUID `u` anywhere between the server's message channel and a handler or caller. */
  function InTransit(s: State, u: string): nat {
    Count(s.outbox, u) + Count(Pending(s.down), u) + Count(s.processing, u) + Count(s.agentOutbox, u)
    + Count(Pending(s.up), u) + Count(s.arrived, u) + Count(s.delivering, u) + Count(s.handled, u)
  }

  /** The UUIDs that must be in transit: of calls sent and not returned, and of what the agent sent unasked. */
  predicate Outstanding(s: State, u: string) {
    if u in s.calls then s.calls[u].phase == Sent else u in s.made
  }

  // ----- The invariant -----

  ghost predicate IsRequest(s: State, m: Message) {
    && m.uuid in s.calls && s.calls[m.uuid].request == m && s.calls[m.uuid].phase == Sent
    && m.uuid !in s.made
  }

  ghost predicate IsMade(s: State, m: Message) {
    m.uuid in s.made && s.made[m.uuid] == m
  }

  ghost predicate Connected(c: Codec, s: State) {
    && Consistent(c, s.down) && Consistent(c, s.up) && Decode(s.down.reader.buffer) == NoFrame
    && Fitting(c, s)
  }

  /** Only messages the codec carries are ever sent. */
  ghost predicate Fitting(c: Codec, s: State) {
    && (forall u :: u in s.calls ==> c.fits(s.calls[u].request))
    && (forall m :: m in s.outbox ==> c.fits(m))
    && (forall m :: m in s.agentOutbox ==> c.fits(m))
  }

  /** Every outstanding message is in exactly one place. */
  ghost predicate Conserved(s: State) {
    forall u :: InTransit(s, u) == if Outstanding(s, u) then 1 else 0
  }

  lemma FirstFits(c: Codec, s: State)
    requires Fitting(c, s)
    ensures s.outbox != [] ==> c.fits(s.outbox[0])
    ensures s.agentOutbox != [] ==> c.fits(s.agentOutbox[0])
  {
  }

  ghost predicate Downward(s: State) {
    && (forall m :: m in s.outbox ==> IsRequest(s, m))
    && (forall m :: m in Pending(s.down) ==> IsRequest(s, m))
    && (forall m :: m in s.processing ==> IsRequest(s, m))
  }

  ghost predicate Upward(s: State) {
    && (forall m :: m in s.agentOutbox ==> IsMade(s, m))
    && (forall m :: m in Pending(s.up) ==> IsMade(s, m))
    && (forall m :: m in s.arrived ==> IsMade(s, m))
    && (forall m :: m in s.delivering ==> IsMade(s, m) && m.uuid in s.waitMap)
    && (forall m :: m in s.handled ==> IsMade(s, m) && m.uuid !in s.waitMap)
  }

  ghost predicate CallOk(s: State, u: string)
    requires u in s.calls
  {
    var call := s.calls[u];
    && call.request.uuid == u
    && (call.phase == Registered ==> u !in s.made)
    && (u in s.made ==> u in s.served && s.served[u] == call.request)
    && (call.phase.Returned? ==> call.waits && u in s.made && call.phase.reply == s.made[u])
  }

  ghost predicate Callers(s: State) {
    && s.waitMap == (set u | u in s.calls && s.calls[u].waits)
    && (forall u :: u in s.calls ==> CallOk(s, u))
    && (forall u :: u in s.made ==> s.made[u].uuid == u)
  }

  ghost predicate Inv(c: Codec, s: State) {
    Connected(c, s) && Conserved(s) && Downward(s) && Upward(s) && Callers(s)
  }

  lemma StartInv(c: Codec)
    ensures Inv(c, START)
  {
  }

  // ----- Every step keeps the invariant -----

  lemma ConnectedKept(c: Codec, s: State, a: Action)
    requires c.Lawful() && Connected(c, s) && Enabled(c, s, a)
    ensures Connected(c, Step(c, s, a))
  {
    FittingKept(c, s, a);
    LinksTouched(c, s, a);
    hide Decode, Encode, Consistent, Pending, Fitting, Carried, Transmit, ReadByAgent, ReadByServer, CutBy, Without;
    hide Step, Enabled;
    if a.ServerSend? || a.AgentSend? {
      ConnectedSend(c, s, a);
    } else if a.DownRead? || a.UpRead? {
      ConnectedRead(c, s, a);
    }
  }

  lemma LinksTouched(c: Codec, s: State, a: Action)
    requires Enabled(c, s, a)
    ensures !a.ServerSend? && !a.DownRead? ==> Step(c, s, a).down == s.down
    ensures !a.AgentSend? && !a.UpRead? ==> Step(c, s, a).up == s.up
  {
    hide Decode, Encode, Consistent, Pending, Fitting, Carried, Transmit, ReadByAgent, ReadByServer, CutBy, Without;
  }

  lemma ConnectedSend(c: Codec, s: State, a: Action)
    requires c.Lawful() && Connected(c, s) && Enabled(c, s, a) && (a.ServerSend? || a.AgentSend?)
    ensures var s' := Step(c, s, a);
            Consistent(c, s'.down) && Consistent(c, s'.up) && Decode(s'.down.reader.buffer) == NoFrame
  {
    FirstFits(c, s);
    hide Decode, Encode, Consistent, Pending, Fitting, Carried, Transmit, ReadByAgent, ReadByServer, CutBy, Without;
    match a
    case ServerSend(answers) =>
      TransmitKeepsConsistent(c, s.down, s.outbox[0], answers);
      SameReader(c, s.down, s.outbox[0], answers);
    case AgentSend(answers) =>
      TransmitKeepsConsistent(c, s.up, s.agentOutbox[0], answers);
  }

  lemma ConnectedRead(c: Codec, s: State, a: Action)
    requires c.Lawful() && Connected(c, s) && Enabled(c, s, a) && (a.DownRead? || a.UpRead?)
    ensures var s' := Step(c, s, a);
            Consistent(c, s'.down) && Consistent(c, s'.up) && Decode(s'.down.reader.buffer) == NoFrame
  {
    hide Decode, Encode, Consistent, Pending, Fitting, Carried, Transmit, ReadByAgent, ReadByServer, CutBy, Without;
    match a
    case DownRead(n) =>
      ReadByAgentKeepsConsistent(c, s.down, n);
    case UpRead(n) =>
      ReadByServerKeepsConsistent(c, s.up, n);
  }

  lemma SameReader(c: Codec, l: Link, m: Message, answers: seq<Sender.Answer>)
    ensures Transmit(c, l, m, answers).reader == l.reader
  {
  }

  lemma FittingKept(c: Codec, s: State, a: Action)
    requires Fitting(c, s) && Enabled(c, s, a)
    ensures Fitting(c, Step(c, s, a))
  {
    hide Decode, Encode, Consistent, Pending, Carried, Transmit, ReadByAgent, ReadByServer, CutBy, Without;
  }

  /** What a step adds to or takes from the messages with UUID `u` in transit. */
  function Change(s: State, a: Action, u: string): int {
    match a
    case Enqueue(v) => if v == u then 1 else 0
    case AgentNotify(m) => if m.uuid == u then 1 else 0
    case Hand(i) => if i < |s.delivering| && s.delivering[i].uuid == u then -1 else 0
    case _ => 0
  }

  lemma InTransitStep(c: Codec, s: State, a: Action, u: string)
    requires c.Lawful() && Connected(c, s) && Enabled(c, s, a)
    requires forall m :: m in s.calls ==> s.calls[m].request.uuid == m
    ensures InTransit(Step(c, s, a), u) == InTransit(s, u) + Change(s, a, u)
  {
    FirstFits(c, s);
    hide Enabled, Step, InTransit, Change, Connected, Consistent, Decode;
    if a.ServerSend? || a.AgentSend? {
      InTransitSend(c, s, a, u);
    } else if a.DownRead? || a.UpRead? {
      InTransitRead(c, s, a, u);
    } else if a.Begin? || a.Enqueue? || a.AgentReply? || a.AgentNotify? {
      InTransitCall(c, s, a, u);
    } else {
      InTransitArrival(c, s, a, u);
    }
  }

  lemma InTransitSend(c: Codec, s: State, a: Action, u: string)
    requires c.Lawful() && Connected(c, s) && Enabled(c, s, a) && (a.ServerSend? || a.AgentSend?)
    ensures InTransit(Step(c, s, a), u) == InTransit(s, u) + Change(s, a, u)
  {
    FirstFits(c, s);
    hide Decode, Encode, Consistent, Pending, Count, Transmit, ReadByAgent, ReadByServer, CutBy, Without;
    hide Carried, Fitting;
    match a
    case ServerSend(answers) =>
      TransmitKeepsConsistent(c, s.down, s.outbox[0], answers);
      CountAppend(Pending(s.down), s.outbox[0], u);
      CountFirst(s.outbox, u);
    case AgentSend(answers) =>
      TransmitKeepsConsistent(c, s.up, s.agentOutbox[0], answers);
      CountAppend(Pending(s.up), s.agentOutbox[0], u);
      CountFirst(s.agentOutbox, u);
  }

  lemma InTransitRead(c: Codec, s: State, a: Action, u: string)
    requires c.Lawful() && Connected(c, s) && Enabled(c, s, a) && (a.DownRead? || a.UpRead?)
    ensures InTransit(Step(c, s, a), u) == InTransit(s, u) + Change(s, a, u)
  {
    hide Decode, Encode, Consistent, Pending, Count, Transmit, ReadByAgent, ReadByServer, CutBy, Without;
    hide Carried, Fitting;
    match a
    case DownRead(n) =>
      ReadByAgentKeepsConsistent(c, s.down, n);
      var down := ReadByAgent(s.down, n);
      CountConcat(CutBy(c, s.down, down), Pending(down), u);
      CountConcat(s.processing, CutBy(c, s.down, down), u);
    case UpRead(n) =>
      ReadByServerKeepsConsistent(c, s.up, n);
      var up := ReadByServer(s.up, n);
      CountConcat(CutBy(c, s.up, up), Pending(up), u);
      CountConcat(s.arrived, CutBy(c, s.up, up), u);
  }

  lemma InTransitCall(c: Codec, s: State, a: Action, u: string)
    requires Enabled(c, s, a) && (a.Begin? || a.Enqueue? || a.AgentReply? || a.AgentNotify?)
    requires forall m :: m in s.calls ==> s.calls[m].request.uuid == m
    ensures InTransit(Step(c, s, a), u) == InTransit(s, u) + Change(s, a, u)
  {
    hide Decode, Encode, Consistent, Pending, Count, Transmit, ReadByAgent, ReadByServer, CutBy, Without;
    hide Carried, Fitting;
    match a
    case Begin(m, waits) =>
    case Enqueue(v) =>
      CountAppend(s.outbox, s.calls[v].request, u);
    case AgentReply(i, reply) =>
      CountWithout(s.processing, i, u);
      CountAppend(s.agentOutbox, reply, u);
    case AgentNotify(m) =>
      CountAppend(s.agentOutbox, m, u);
  }

  lemma InTransitArrival(c: Codec, s: State, a: Action, u: string)
    requires Enabled(c, s, a) && (a.Load? || a.Hand?)
    ensures InTransit(Step(c, s, a), u) == InTransit(s, u) + Change(s, a, u)
  {
    hide Decode, Encode, Consistent, Pending, Count, Transmit, ReadByAgent, ReadByServer, CutBy, Without;
    hide Carried, Fitting;
    match a
    case Load(i) =>
      CountWithout(s.arrived, i, u);
      CountAppend(s.delivering, s.arrived[i], u);
      CountAppend(s.handled, s.arrived[i], u);
    case Hand(i) =>
      CountWithout(s.delivering, i, u);
  }

  lemma ConservedKept(c: Codec, s: State, a: Action)
    requires c.Lawful() && Inv(c, s) && Enabled(c, s, a)
    ensures Conserved(Step(c, s, a))
  {
    hide Step, Enabled, Consistent, Decode, InTransit, Outstanding, Change, Downward, Upward;
    forall u
      ensures InTransit(Step(c, s, a), u) == if Outstanding(Step(c, s, a), u) then 1 else 0
    {
      OutstandingStep(c, s, a, u);
      InTransitStep(c, s, a, u);
    }
  }

  lemma OutstandingStep(c: Codec, s: State, a: Action, u: string)
    requires Downward(s) && Callers(s) && Enabled(c, s, a)
    ensures (if Outstanding(Step(c, s, a), u) then 1 else 0) == (if Outstanding(s, u) then 1 else 0) + Change(s, a, u)
  {
    hide Decode, Encode, Consistent, Pending, Transmit, ReadByAgent, ReadByServer, CutBy, Without, Carried;
    assert a.AgentReply? ==> IsRequest(s, s.processing[a.i]);
  }

  /** While a request is being processed no other copy of it is anywhere. */
  lemma OnlyCopy(s: State, i: nat, m: Message)
    requires Conserved(s) && i < |s.processing|
    requires m in s.outbox || m in Pending(s.down) || m in Without(s.processing, i)
    ensures m.uuid != s.processing[i].uuid
  {
    hide Count, Pending, Outstanding;
    var u := s.processing[i].uuid;
    CountWithout(s.processing, i, u);
    assert InTransit(s, u) <= 1;
    if m in s.outbox {
      CountMember(s.outbox, m);
    } else if m in Pending(s.down) {
      CountMember(Pending(s.down), m);
    } else {
      CountMember(Without(s.processing, i), m);
    }
  }

  lemma DownwardReply(c: Codec, s: State, i: nat, reply: Message)
    requires Conserved(s) && Downward(s) && Enabled(c, s, AgentReply(i, reply))
    ensures Downward(Step(c, s, AgentReply(i, reply)))
  {
    hide Decode, Encode, Pending, Count, Conserved;
    var s' := Step(c, s, AgentReply(i, reply));
    forall m | m in s'.outbox || m in Pending(s'.down) || m in s'.processing
      ensures IsRequest(s', m)
    {
      OnlyCopy(s, i, m);
      assert IsRequest(s, m);
    }
  }

  lemma DownwardLink(c: Codec, s: State, a: Action)
    requires c.Lawful() && Connected(c, s) && Downward(s) && Enabled(c, s, a) && (a.ServerSend? || a.DownRead?)
    ensures Downward(Step(c, s, a))
  {
    hide Decode, Encode, Consistent, Pending, ReadByAgent, CutBy, Transmit;
    var s' := Step(c, s, a);
    match a
    case ServerSend(answers) =>
      TransmitKeepsConsistent(c, s.down, s.outbox[0], answers);
      assert forall m :: m in s'.outbox || m in Pending(s'.down) ==> m in s.outbox || m in Pending(s.down);
    case DownRead(n) =>
      ReadByAgentKeepsConsistent(c, s.down, n);
      assert forall m :: m in CutBy(c, s.down, s'.down) || m in Pending(s'.down) ==> m in Pending(s.down);
  }

  lemma DownwardKept(c: Codec, s: State, a: Action)
    requires c.Lawful() && Inv(c, s) && Enabled(c, s, a)
    ensures Downward(Step(c, s, a))
  {
    hide Decode, Pending, Connected, Conserved, Upward, ReadByAgent, ReadByServer, CutBy, Transmit, Without;
    var s' := Step(c, s, a);
    if a.ServerSend? || a.DownRead? {
      DownwardLink(c, s, a);
    } else if a.AgentReply? {
      DownwardReply(c, s, a.i, a.reply);
    } else {
      if a.Enqueue? {
      } else if a.Hand? {
        HandMade(s, a.i);
      }
      assert forall m :: IsRequest(s, m) ==> IsRequest(s', m);
    }
  }

  lemma HandMade(s: State, i: nat)
    requires Upward(s) && i < |s.delivering|
    ensures IsMade(s, s.delivering[i])
  {
  }

  lemma UpwardLoad(c: Codec, s: State, i: nat)
    requires Upward(s) && Enabled(c, s, Load(i))
    ensures Upward(Step(c, s, Load(i)))
  {
    hide Decode, Encode, Pending, Without;
    WithoutIsPart(s.arrived, i);
    assert s.arrived[i] in s.arrived;
  }

  lemma UpwardLink(c: Codec, s: State, a: Action)
    requires c.Lawful() && Connected(c, s) && Upward(s) && Enabled(c, s, a) && (a.AgentSend? || a.UpRead?)
    ensures Upward(Step(c, s, a))
  {
    hide Decode, Encode, Consistent, Pending, ReadByServer, CutBy, Transmit;
    var s' := Step(c, s, a);
    match a
    case AgentSend(answers) =>
      TransmitKeepsConsistent(c, s.up, s.agentOutbox[0], answers);
      assert forall m :: m in s'.agentOutbox || m in Pending(s'.up) ==> m in s.agentOutbox || m in Pending(s.up);
    case UpRead(n) =>
      ReadByServerKeepsConsistent(c, s.up, n);
      assert forall m :: m in CutBy(c, s.up, s'.up) || m in Pending(s'.up) ==> m in Pending(s.up);
  }

  lemma UpwardKept(c: Codec, s: State, a: Action)
    requires c.Lawful() && Inv(c, s) && Enabled(c, s, a)
    ensures Upward(Step(c, s, a))
  {
    hide Decode, Pending, Connected, Conserved, ReadByAgent, ReadByServer, CutBy, Transmit, Without;
    var s' := Step(c, s, a);
    if a.AgentSend? || a.UpRead? {
      UpwardLink(c, s, a);
    } else if a.Load? {
      UpwardLoad(c, s, a.i);
    } else {
      if a.AgentReply? {
        assert IsRequest(s, s.processing[a.i]);
      } else if a.Hand? {
        WithoutIsPart(s.delivering, a.i);
      }
      UpwardByPools(s, s');
    }
  }

  /** Pools that hold no new message, over a record of messages made that only grows. */
  lemma UpwardByPools(s: State, s': State)
    requires Upward(s)
    requires forall m :: IsMade(s, m) ==> IsMade(s', m) && (m.uuid in s.waitMap <==> m.uuid in s'.waitMap)
    requires forall m :: m in s'.agentOutbox ==> m in s.agentOutbox || IsMade(s', m)
    requires Pending(s'.up) == Pending(s.up) && s'.arrived == s.arrived && s'.handled == s.handled
    requires forall m :: m in s'.delivering ==> m in s.delivering
    ensures Upward(s')
  {
  }

  lemma CallersKept(c: Codec, s: State, a: Action)
    requires c.Lawful() && Inv(c, s) && Enabled(c, s, a)
    ensures Callers(Step(c, s, a))
  {
    hide Connected, Conserved, Downward, Upward, Callers, Step, Enabled;
    match a
    case Begin(m, waits) => CallersBegin(c, s, m, waits);
    case Enqueue(u) => CallersEnqueue(c, s, u);
    case AgentReply(i, reply) => CallersReply(c, s, i, reply);
    case AgentNotify(m) => CallersNotify(c, s, m);
    case Hand(i) => CallersHand(c, s, i);
    case _ =>
      SameRecords(c, s, a);
  }

  lemma SameRecords(c: Codec, s: State, a: Action)
    requires Callers(s) && Enabled(c, s, a)
    requires a.ServerSend? || a.DownRead? || a.AgentSend? || a.UpRead? || a.Load?
    ensures Callers(Step(c, s, a))
  {
    hide Decode, Encode, Pending, Consistent, ReadByAgent, ReadByServer, CutBy, Transmit, Without, Carried;
    var s' := Step(c, s, a);
    assert s'.calls == s.calls && s'.made == s.made && s'.served == s.served && s'.waitMap == s.waitMap;
    forall u | u in s.calls
      ensures CallOk(s', u)
    {
      assert CallOk(s, u);
    }
  }

  lemma CallersBegin(c: Codec, s: State, m: Message, waits: bool)
    requires Callers(s) && Enabled(c, s, Begin(m, waits))
    ensures Callers(Step(c, s, Begin(m, waits)))
  {
    hide Decode, Encode, Pending, Consistent, ReadByAgent, ReadByServer, CutBy, Transmit, Without, Carried;
    var s' := Step(c, s, Begin(m, waits));
    forall u | u in s'.calls
      ensures CallOk(s', u)
    {
      if u != m.uuid { assert CallOk(s, u); }
    }
  }

  lemma CallersEnqueue(c: Codec, s: State, u: string)
    requires Callers(s) && Enabled(c, s, Enqueue(u))
    ensures Callers(Step(c, s, Enqueue(u)))
  {
    hide Decode, Encode, Pending, Consistent, ReadByAgent, ReadByServer, CutBy, Transmit, Without, Carried;
    var s' := Step(c, s, Enqueue(u));
    forall v | v in s'.calls
      ensures CallOk(s', v)
    {
      assert CallOk(s, v);
    }
  }

  lemma CallersReply(c: Codec, s: State, i: nat, reply: Message)
    requires Downward(s) && Callers(s) && Enabled(c, s, AgentReply(i, reply))
    ensures Callers(Step(c, s, AgentReply(i, reply)))
  {
    hide Decode, Encode, Pending, Consistent, ReadByAgent, ReadByServer, CutBy, Transmit, Without, Carried;
    var s' := Step(c, s, AgentReply(i, reply));
    assert IsRequest(s, s.processing[i]);
    forall u | u in s'.calls
      ensures CallOk(s', u)
    {
      assert CallOk(s, u);
    }
  }

  lemma CallersNotify(c: Codec, s: State, m: Message)
    requires Callers(s) && Enabled(c, s, AgentNotify(m))
    ensures Callers(Step(c, s, AgentNotify(m)))
  {
    hide Decode, Encode, Pending, Consistent, ReadByAgent, ReadByServer, CutBy, Transmit, Without, Carried;
    var s' := Step(c, s, AgentNotify(m));
    forall u | u in s'.calls
      ensures CallOk(s', u)
    {
      assert CallOk(s, u);
    }
  }

  lemma CallersHand(c: Codec, s: State, i: nat)
    requires Upward(s) && Callers(s) && Enabled(c, s, Hand(i))
    ensures Callers(Step(c, s, Hand(i)))
  {
    hide Decode, Encode, Pending, Consistent, ReadByAgent, ReadByServer, CutBy, Transmit, Without, Carried;
    var s' := Step(c, s, Hand(i));
    HandMade(s, i);
    forall u | u in s'.calls
      ensures CallOk(s', u)
    {
      assert CallOk(s, u);
    }
  }

  lemma {:induction false} RunInv(c: Codec, actions: seq<Action>)
    requires c.Lawful() && Run(c, actions).Reached?
    ensures Inv(c, Run(c, actions).state)
  {
    if actions == [] {
      StartInv(c);
    } else {
      var n := |actions| - 1;
      RunInv(c, actions[..n]);
      StepInv(c, Run(c, actions[..n]).state, actions[n]);
    }
  }

  lemma StepInv(c: Codec, s: State, a: Action)
    requires c.Lawful() && Inv(c, s) && Enabled(c, s, a)
    ensures Inv(c, Step(c, s, a))
  {
    hide Decode, Connected, Conserved, Downward, Upward, Callers, Enabled, Step;
    ConnectedKept(c, s, a);
    ConservedKept(c, s, a);
    DownwardKept(c, s, a);
    UpwardKept(c, s, a);
    CallersKept(c, s, a);
  }

  // ----- What every run guarantees -----

  /** A call that returned holds the message with its own UUID that the agent made while processing the
      call's own request. */
  lemma ReturnedCallHoldsItsReply(c: Codec, actions: seq<Action>, u: string)
    requires c.Lawful() && Run(c, actions).Reached?
    requires u in Run(c, actions).state.calls && Run(c, actions).state.calls[u].phase.Returned?
    ensures var s := Run(c, actions).state;
            && s.calls[u].waits
            && s.calls[u].phase.reply.uuid == u
            && u in s.made && s.made[u] == s.calls[u].phase.reply
            && u in s.served && s.served[u] == s.calls[u].request
  {
    RunInv(c, actions);
  }

  /** `WaitMap` holds exactly the UUIDs of the waiting calls ever made, and since a call is registered before
      its request is enqueued, no message with such a UUID is ever given to `handlerMap`. */
  lemma RepliesNeverReachHandlers(c: Codec, actions: seq<Action>)
    requires c.Lawful() && Run(c, actions).Reached?
    ensures var s := Run(c, actions).state;
            && s.waitMap == (set u | u in s.calls && s.calls[u].waits)
            && forall m :: m in s.handled ==> !(m.uuid in s.calls && s.calls[m.uuid].waits)
  {
    RunInv(c, actions);
  }

  /** No message is lost or duplicated: one copy of each call's request or reply is somewhere between the
      server's message channel and its destination from the moment it is enqueued until the call returns. */
  lemma EveryMessageInOnePlace(c: Codec, actions: seq<Action>, u: string)
    requires c.Lawful() && Run(c, actions).Reached?
    ensures var s := Run(c, actions).state;
            InTransit(s, u) == if Outstanding(s, u) then 1 else 0
  {
    RunInv(c, actions);
  }

  /** What is not the protocol's own doing: a new call, an unasked message of the agent, a read of nothing. */
  predicate Spontaneous(a: Action) {
    a.Begin? || a.AgentNotify? || a == DownRead(0) || a == UpRead(0)
  }

  /** Nothing can move any more of its own accord. */
  ghost predicate Quiet(c: Codec, s: State) {
    forall a :: Enabled(c, s, a) ==> Spontaneous(a)
  }

  lemma SendPossible(c: Codec, s: State)
    ensures s.outbox != [] ==> exists answers :: Enabled(c, s, ServerSend(answers))
    ensures s.agentOutbox != [] ==> exists answers :: Enabled(c, s, AgentSend(answers))
  {
    if s.outbox != [] {
      OneWriteCarries(c, s.outbox[0]);
      assert Enabled(c, s, ServerSend([Sender.Answer(|Encode(c.encode(s.outbox[0]))|, false)]));
    }
    if s.agentOutbox != [] {
      OneWriteCarries(c, s.agentOutbox[0]);
      assert Enabled(c, s, AgentSend([Sender.Answer(|Encode(c.encode(s.agentOutbox[0]))|, false)]));
    }
  }

  lemma ReplyPossible(c: Codec, s: State)
    requires Inv(c, s) && s.processing != [] && s.agentOutbox == []
    ensures Enabled(c, s, AgentReply(0, s.processing[0]))
  {
    hide Decode, Consistent, Conserved, Upward, Callers;
    assert IsRequest(s, s.processing[0]);
  }

  /** A goroutine blocked on a waiting call's channel finds the call still waiting. */
  lemma HandPossible(c: Codec, s: State)
    requires Inv(c, s) && s.delivering != []
    ensures Enabled(c, s, Hand(0))
  {
    hide Decode, Count, Consistent;
    var m := s.delivering[0];
    assert InTransit(s, m.uuid) >= 1 by { CountMember(s.delivering, m); }
  }

  lemma QuietIsDrained(c: Codec, s: State)
    requires Inv(c, s) && Quiet(c, s)
    ensures s.outbox == [] && s.processing == [] && s.agentOutbox == [] && s.arrived == [] && s.delivering == []
    ensures s.down.flight == [] && s.up.flight == []
    ensures forall u :: u in s.calls ==> s.calls[u].phase != Registered
  {
    hide Decode, Inv;
    SendPossible(c, s);
    assert !Enabled(c, s, Load(0));
    assert !Enabled(c, s, DownRead(1)) && !Enabled(c, s, UpRead(1));
    if s.processing != [] && s.agentOutbox == [] {
      ReplyPossible(c, s);
    }
    if s.delivering != [] {
      HandPossible(c, s);
    }
    forall u | u in s.calls
      ensures s.calls[u].phase != Registered
    {
      assert !Enabled(c, s, Enqueue(u));
    }
  }

  lemma {:induction false} CountNone(a: seq<Message>, u: string)
    requires forall m :: m in a ==> m.uuid != u
    ensures Count(a, u) == 0
  {
    if a != [] {
      CountNone(a[1..], u);
    }
  }

  /** Deadlock characterised: when nothing can move, a waiting call has returned if and only if no whole
      frame left in the server's read buffer carries its UUID. The read loop, which cuts one frame per
      read, is the only place where a reply can be left behind. */
  lemma QuietCallReturnedIff(c: Codec, actions: seq<Action>, u: string)
    requires c.Lawful() && Run(c, actions).Reached? && Quiet(c, Run(c, actions).state)
    requires u in Run(c, actions).state.calls && Run(c, actions).state.calls[u].waits
    ensures Run(c, actions).state.calls[u].phase.Returned?
       <==> forall m :: m in ParseAll(c, Drain(Run(c, actions).state.up.reader.buffer).payloads) ==> m.uuid != u
  {
    hide Decode, Encode, Drain, Count, Enabled, Quiet;
    var s := Run(c, actions).state;
    RunInv(c, actions);
    QuietIsDrained(c, s);
    AllRead(c, s.down);
    AllRead(c, s.up);
    ParsePayloads(c, Pending(s.up));
    CountNone(s.handled, u);
    assert InTransit(s, u) == Count(Pending(s.up), u);
    if m :| m in Pending(s.up) && m.uuid == u {
      CountMember(Pending(s.up), m);
    } else {
      CountNone(Pending(s.up), u);
    }
  }

  lemma ParsePayloads(c: Codec, messages: seq<Message>)
    requires c.Lawful() && forall m :: m in messages ==> c.fits(m)
    ensures ParseAll(c, Payloads(c, messages)) == messages
  {
  }

  /** Two replies that arrive in one read: the first is dispatched, the second stays in the buffer. */
  lemma OneReadHoldsBackSecondReply(c: Codec, s: State, a: Message, b: Message)
    requires c.Lawful() && Connected(c, s)
    requires s.up.reader.buffer == [] && Pending(s.up) == [a, b] && |s.up.flight| <= READ_SIZE
    ensures Step(c, s, UpRead(|s.up.flight|)).arrived == s.arrived + [a]
    ensures Pending(Step(c, s, UpRead(|s.up.flight|)).up) == [b]
    ensures Step(c, s, UpRead(|s.up.flight|)).up.flight == []
  {
    hide Encode, Decode;
    var n := |s.up.flight|;
    var s' := Step(c, s, UpRead(n));
    var payloads := Payloads(c, [a, b]);
    assert s.up.reader.buffer + s.up.flight == s.up.flight == s.up.flight[..n];
    DecodeFirst(c.encode(a), EncodeAll(payloads[1..]));
    ReadByServerKeepsConsistent(c, s.up, n);
    var dispatched := s'.up.reader.dispatched[|s.up.reader.dispatched|..];
    assert CutBy(c, s.up, s'.up) == [a];
    assert [a, b] == [a] + Pending(s'.up);
    assert Pending(s'.up) == [a, b][1..];
  }
}
