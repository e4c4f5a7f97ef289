/** The two channels of the protocol as queues over whole runs, and the bounds they keep
    (pkg/app/server/agentmanager/agent.go:46-86, 211-232, pkg/app/agent/network/client.go:35-69). */
module SessionHistory {
  import opened Tlv
  import opened Framing
  import opened Links
  import opened Session

  // ----- What a list of actions says -----

  /** The requests of the calls made. */
  function Begun(actions: seq<Action>): seq<Message> {
    if actions == [] then []
    else
      var a := actions[|actions| - 1];
      Begun(actions[..|actions| - 1]) + if a.Begin? then [a.message] else []
  }

  /** The UUIDs of the requests put into the server's message channel, in order. */
  function Enqueued(actions: seq<Action>): seq<string> {
    if actions == [] then []
    else
      var a := actions[|actions| - 1];
      Enqueued(actions[..|actions| - 1]) + if a.Enqueue? then [a.uuid] else []
  }

  /** The messages the agent made, in order. */
  function Made(actions: seq<Action>): seq<Message> {
    if actions == [] then []
    else
      var a := actions[|actions| - 1];
      Made(actions[..|actions| - 1])
      + if a.AgentReply? then [a.reply] else if a.AgentNotify? then [a.message] else []
  }

  lemma Appended(actions: seq<Action>, a: Action)
    ensures Begun(actions + [a]) == Begun(actions) + if a.Begin? then [a.message] else []
    ensures Enqueued(actions + [a]) == Enqueued(actions) + if a.Enqueue? then [a.uuid] else []
    ensures Made(actions + [a])
         == Made(actions) + if a.AgentReply? then [a.reply] else if a.AgentNotify? then [a.message] else []
  {
    assert (actions + [a])[..|actions + [a]| - 1] == actions;
  }

  // ----- The channels -----

  predicate RequestOf(begun: seq<Message>, uuid: string, m: Message) {
    m in begun && m.uuid == uuid
  }

  /** Every call holds the request it was made with. */
  predicate CallsKeep(begun: seq<Message>, s: State) {
    forall u :: u in s.calls ==> RequestOf(begun, u, s.calls[u].request)
  }

  /** What was sent and what is still queued are the requests with these UUIDs. */
  predicate Requests(begun: seq<Message>, enqueued: seq<string>, messages: seq<Message>) {
    |messages| == |enqueued| && forall i :: 0 <= i < |messages| ==> RequestOf(begun, enqueued[i], messages[i])
  }

  /** What a step does to what each side has sent and still queues. */
  lemma StepChannels(c: Codec, s: State, a: Action)
    requires Enabled(c, s, a)
    ensures a.Enqueue? ==> a.uuid in s.calls
    ensures var s' := Step(c, s, a);
            && s'.down.sent + s'.outbox
               == (s.down.sent + s.outbox) + (if a.Enqueue? then [s.calls[a.uuid].request] else [])
            && s'.up.sent + s'.agentOutbox
               == (s.up.sent + s.agentOutbox)
                  + (if a.AgentReply? then [a.reply] else if a.AgentNotify? then [a.message] else [])
            && |s'.outbox| <= (if |s.outbox| < 50 then 50 else |s.outbox|)
            && |s'.agentOutbox| <= (if |s.agentOutbox| < 100 then 100 else |s.agentOutbox|)
  {
    hide Decode, Encode, Pending, AgentRead, ServerRead, CutBy, Without, Carried;
    if a.ServerSend? {
      Associate(s.down.sent, s.outbox);
    } else if a.AgentSend? {
      Associate(s.up.sent, s.agentOutbox);
    } else if a.Enqueue? {
      Extend(s.down.sent, s.outbox, s.calls[a.uuid].request);
    } else if a.AgentReply? {
      Extend(s.up.sent, s.agentOutbox, a.reply);
    } else if a.AgentNotify? {
      Extend(s.up.sent, s.agentOutbox, a.message);
    }
  }

  lemma Associate(sent: seq<Message>, queue: seq<Message>)
    requires queue != []
    ensures (sent + [queue[0]]) + queue[1..] == sent + queue
  {
  }

  lemma Extend(sent: seq<Message>, queue: seq<Message>, m: Message)
    ensures sent + (queue + [m]) == (sent + queue) + [m]
  {
  }

  lemma StepCalls(c: Codec, s: State, a: Action, begun: seq<Message>)
    requires Enabled(c, s, a) && CallsKeep(begun, s)
    ensures CallsKeep(begun + if a.Begin? then [a.message] else [], Step(c, s, a))
  {
    hide Decode, Encode, Pending, AgentRead, ServerRead, CutBy, Without, Carried, Transmit;
  }

  lemma RequestsLonger(begun: seq<Message>, more: seq<Message>, enqueued: seq<string>, messages: seq<Message>)
    requires Requests(begun, enqueued, messages)
    ensures Requests(begun + more, enqueued, messages)
  {
  }

  /** Over every run, what the server has sent followed by what it still queues are the requests enqueued, in that
      order, and what the agent has sent followed by what it still queues are the messages it made, in that order; at
      most 50 and 100 messages are queued. */
  lemma {:induction false} ChannelsAreQueues(c: Codec, actions: seq<Action>)
    requires Run(c, actions).Reached?
    ensures var s := Run(c, actions).state;
            && CallsKeep(Begun(actions), s)
            && Requests(Begun(actions), Enqueued(actions), s.down.sent + s.outbox)
            && s.up.sent + s.agentOutbox == Made(actions)
            && |s.outbox| <= 50 && |s.agentOutbox| <= 100
  {
    if actions == [] {
    } else {
      var n := |actions| - 1;
      var p, a := actions[..n], actions[n];
      var s := Run(c, p).state;
      ChannelsAreQueues(c, p);
      StepChannels(c, s, a);
      StepCalls(c, s, a, Begun(p));
      assert actions == p + [a];
      Appended(p, a);
      hide Enabled, Step, Begun, Enqueued, Made;
      RequestsLonger(Begun(p), if a.Begin? then [a.message] else [], Enqueued(p), s.down.sent + s.outbox);
      assert a.Enqueue? ==> RequestOf(Begun(p), a.uuid, s.calls[a.uuid].request);
    }
  }

  /** A run goes on with an enqueueing, an answer, an unasked message or a read exactly if there is room in the channel,
      or are that many bytes; any request being processed may be answered next. */
  lemma CanFollow(c: Codec, actions: seq<Action>, a: Action)
    requires Run(c, actions).Reached? && (a.Enqueue? || a.AgentReply? || a.AgentNotify? || a.DownRead? || a.UpRead?)
    ensures var s := Run(c, actions).state;
            Run(c, actions + [a]).Reached? <==>
            match a
            case Enqueue(u) => u in s.calls && s.calls[u].phase == Registered && |s.outbox| < 50
            case AgentReply(i, reply) =>
              && i < |s.processing| && s.processing[i].uuid == reply.uuid && c.fits(reply) && |s.agentOutbox| < 100
            case AgentNotify(m) => m.uuid !in s.calls && m.uuid !in s.made && c.fits(m) && |s.agentOutbox| < 100
            case DownRead(n) => n <= 1024 && n <= |s.down.flight|
            case UpRead(n) => n <= 1024 && n <= |s.up.flight|
            case _ => true
  {
    var next := actions + [a];
    assert next[..|next| - 1] == actions;
    hide Step, Decode, Encode, Carried;
  }

  // ----- The connections -----

  /** The reader has handed on the first of the messages sent, in order. */
  ghost predicate InOrder(c: Codec, l: Link) {
    && |l.reader.dispatched| <= |l.sent|
    && ParseAll(c, l.reader.dispatched) == l.sent[..|l.reader.dispatched|]
  }

  lemma ReadInOrder(c: Codec, l: Link, l': Link)
    requires InOrder(c, l) && l'.sent == l.sent && l.reader.dispatched <= l'.reader.dispatched
    requires |l'.reader.dispatched| <= |l'.sent| && Pending(l) == CutBy(c, l, l') + Pending(l')
    ensures InOrder(c, l')
  {
    var d, d', k := l.reader.dispatched, l'.reader.dispatched, |l'.reader.dispatched|;
    assert CutBy(c, l, l') == Pending(l)[..k - |d|];
    assert l.sent[..k] == l.sent[..|d|] + l.sent[|d|..][..k - |d|];
    assert d' == d + d'[|d|..];
    assert ParseAll(c, d') == ParseAll(c, d) + ParseAll(c, d'[|d|..]);
  }

  lemma ReadsExtend(l: Link, n: nat)
    requires n <= |l.flight|
    ensures l.reader.dispatched <= ReadByAgent(l, n).reader.dispatched
    ensures l.reader.dispatched <= ReadByServer(l, n).reader.dispatched
  {
    hide Decode, Drain;
  }

  lemma StepInOrder(c: Codec, s: State, a: Action)
    requires c.Lawful() && Connected(c, s) && Enabled(c, s, a) && InOrder(c, s.down) && InOrder(c, s.up)
    ensures InOrder(c, Step(c, s, a).down) && InOrder(c, Step(c, s, a).up)
  {
    LinksTouched(c, s, a);
    hide Decode, Encode, Pending, AgentRead, ServerRead, CutBy, Without, Carried, Fitting, InOrder, EncodeAll;
    match a
    case ServerSend(answers) => SendInOrder(c, s.down, s.outbox[0], answers);
    case AgentSend(answers) => SendInOrder(c, s.up, s.agentOutbox[0], answers);
    case DownRead(n) =>
      ReadByAgentKeepsConsistent(c, s.down, n);
      ReadsExtend(s.down, n);
      ReadInOrder(c, s.down, ReadByAgent(s.down, n));
    case UpRead(n) =>
      ReadByServerKeepsConsistent(c, s.up, n);
      ReadsExtend(s.up, n);
      ReadInOrder(c, s.up, ReadByServer(s.up, n));
    case _ =>
  }

  lemma SendInOrder(c: Codec, l: Link, m: Message, answers: seq<Sender.Answer>)
    requires InOrder(c, l)
    ensures InOrder(c, Transmit(c, l, m, answers))
  {
  }

  /** Over every run, each side has handed on the first of the messages sent to it, unchanged and in order. */
  lemma {:induction false} DispatchedInOrder(c: Codec, actions: seq<Action>)
    requires c.Lawful() && Run(c, actions).Reached?
    ensures var s := Run(c, actions).state;
            InOrder(c, s.down) && InOrder(c, s.up)
  {
    if actions == [] {
    } else {
      var n := |actions| - 1;
      DispatchedInOrder(c, actions[..n]);
      RunInv(c, actions[..n]);
      hide Enabled, Step, InOrder, Conserved, Downward, Upward, Callers, Connected;
      StepInOrder(c, Run(c, actions[..n]).state, actions[n]);
    }
  }
}
