/** Left to itself the protocol comes to rest, whatever order its parts run in, and where it rests tells which calls
    have returned. */
module SessionProgress {
  import opened Tlv
  import opened Framing
  import opened Links
  import opened Session

  /** The calls whose request has not been enqueued. */
  function Unsent(s: State): set<string> {
    set u | u in s.calls && s.calls[u].phase == Registered
  }

  /** How far the messages still have to go. */
  function Distance(s: State): nat {
    8 * |Unsent(s)| + 7 * |s.outbox| + 6 * |Pending(s.down)| + 5 * |s.processing| + 4 * |s.agentOutbox|
    + 3 * |Pending(s.up)| + 2 * |s.arrived| + |s.delivering|
  }

  function Unread(s: State): nat {
    |s.down.flight| + |s.up.flight|
  }

  predicate Closer(s': State, s: State) {
    Distance(s') < Distance(s) || (Distance(s') == Distance(s) && Unread(s') < Unread(s))
  }

  /** Every step that is not spontaneous brings the protocol closer to rest, so no run goes on without new calls
      or unasked messages. */
  lemma StepIsCloser(c: Codec, s: State, a: Action)
    requires c.Lawful() && Connected(c, s) && Enabled(c, s, a) && !Spontaneous(a)
    ensures Closer(Step(c, s, a), s)
  {
    hide Enabled, Step, Closer, Connected, Consistent, Decode;
    if a.ServerSend? || a.AgentSend? {
      SendIsCloser(c, s, a);
    } else if a.DownRead? || a.UpRead? {
      ReadIsCloser(c, s, a);
    } else {
      HandlingIsCloser(c, s, a);
    }
  }

  lemma SendIsCloser(c: Codec, s: State, a: Action)
    requires c.Lawful() && Connected(c, s) && Enabled(c, s, a) && (a.ServerSend? || a.AgentSend?)
    ensures Closer(Step(c, s, a), s)
  {
    FirstFits(c, s);
    hide Decode, Encode, Consistent, Pending, Transmit, Carried, Fitting, Unsent, Unread;
    SameUnsent(s, Step(c, s, a));
    match a
    case ServerSend(answers) =>
      TransmitKeepsConsistent(c, s.down, s.outbox[0], answers);
    case AgentSend(answers) =>
      TransmitKeepsConsistent(c, s.up, s.agentOutbox[0], answers);
  }

  lemma ReadIsCloser(c: Codec, s: State, a: Action)
    requires c.Lawful() && Connected(c, s) && Enabled(c, s, a) && !Spontaneous(a) && (a.DownRead? || a.UpRead?)
    ensures Closer(Step(c, s, a), s)
  {
    hide Decode, Encode, Consistent, Pending, ReadByAgent, ReadByServer, CutBy, Fitting, Unsent;
    SameUnsent(s, Step(c, s, a));
    match a
    case DownRead(n) =>
      ReadByAgentKeepsConsistent(c, s.down, n);
      ReadShortens(s.down, n);
    case UpRead(n) =>
      ReadByServerKeepsConsistent(c, s.up, n);
      ReadShortens(s.up, n);
  }

  lemma HandlingIsCloser(c: Codec, s: State, a: Action)
    requires Enabled(c, s, a) && (a.Enqueue? || a.AgentReply? || a.Load? || a.Hand?)
    ensures Closer(Step(c, s, a), s)
  {
    hide Decode, Encode, Pending, Unsent, Unread;
    if a.Enqueue? {
      OneLessUnsent(c, s, a.uuid);
    } else if a.Hand? {
      HandKeepsUnsent(c, s, a.i);
    } else {
      SameUnsent(s, Step(c, s, a));
    }
  }

  lemma SameUnsent(s: State, s': State)
    ensures s'.calls == s.calls ==> Unsent(s') == Unsent(s)
  {
  }

  lemma OneLessUnsent(c: Codec, s: State, u: string)
    requires Enabled(c, s, Enqueue(u))
    ensures |Unsent(Step(c, s, Enqueue(u)))| == |Unsent(s)| - 1
  {
    assert Unsent(Step(c, s, Enqueue(u))) == Unsent(s) - {u};
  }

  lemma HandKeepsUnsent(c: Codec, s: State, i: nat)
    requires Enabled(c, s, Hand(i))
    ensures Unsent(Step(c, s, Hand(i))) == Unsent(s)
  {
  }

  lemma ReadShortens(l: Link, n: nat)
    requires n <= |l.flight|
    ensures |ReadByAgent(l, n).flight| == |ReadByServer(l, n).flight| == |l.flight| - n
  {
  }

  lemma RunNext(c: Codec, actions: seq<Action>, a: Action)
    requires Run(c, actions).Reached? && Enabled(c, Run(c, actions).state, a)
    ensures Run(c, actions + [a]) == Reached(Step(c, Run(c, actions).state, a))
  {
    assert (actions + [a])[..|actions + [a]| - 1] == actions;
  }

  /** The run goes on with `more`, none of it spontaneous, and ends in a quiet state. */
  ghost predicate Rests(c: Codec, actions: seq<Action>, more: seq<Action>) {
    && Run(c, actions + more).Reached? && Quiet(c, Run(c, actions + more).state)
    && forall i :: 0 <= i < |more| ==> !Spontaneous(more[i])
  }

  /** From every reachable state the protocol gets to a quiet one without any new call or unasked message. */
  lemma ComesToRest(c: Codec, actions: seq<Action>)
    requires c.Lawful() && Run(c, actions).Reached?
    ensures exists more :: Rests(c, actions, more)
  {
    RunInv(c, actions);
    var more := RestsFrom(c, actions, Run(c, actions).state);
  }

  lemma SomethingMoves(c: Codec, s: State) returns (a: Action)
    requires !Quiet(c, s)
    ensures Enabled(c, s, a) && !Spontaneous(a)
  {
    hide Enabled, Spontaneous;
    a :| Enabled(c, s, a) && !Spontaneous(a);
  }

  lemma RestsNow(c: Codec, actions: seq<Action>, s: State)
    requires Run(c, actions) == Reached(s) && Quiet(c, s)
    ensures Rests(c, actions, [])
  {
    hide Quiet, Run;
    assert actions + [] == actions;
  }

  lemma RestsLater(c: Codec, actions: seq<Action>, a: Action, rest: seq<Action>)
    requires Rests(c, actions + [a], rest) && !Spontaneous(a)
    ensures Rests(c, actions, [a] + rest)
  {
    hide Quiet, Run;
    assert actions + ([a] + rest) == (actions + [a]) + rest;
  }

  lemma {:induction false} RestsFrom(c: Codec, actions: seq<Action>, s: State) returns (more: seq<Action>)
    requires c.Lawful() && Inv(c, s) && Run(c, actions) == Reached(s)
    ensures Rests(c, actions, more)
    decreases Distance(s), Unread(s)
  {
    assert Connected(c, s);
    hide Enabled, Step, Distance, Unread, Run, Spontaneous, Inv, Connected, Quiet, Rests, Codec.Lawful;
    if Quiet(c, s) {
      more := [];
      RestsNow(c, actions, s);
    } else {
      var a := SomethingMoves(c, s);
      StepIsCloser(c, s, a);
      StepInv(c, s, a);
      RunNext(c, actions, a);
      more := RestsFrom(c, actions + [a], Step(c, s, a));
      RestsLater(c, actions, a, more);
      more := [a] + more;
    }
  }

  /** At rest, all waiting calls have returned if the last read left no whole frame in the server's buffer. Where
      every message of the agent is an answer to a waiting call, the converse holds too. */
  lemma AllReturnedIff(c: Codec, actions: seq<Action>)
    requires c.Lawful() && Run(c, actions).Reached? && Quiet(c, Run(c, actions).state)
    ensures Decode(Run(c, actions).state.up.reader.buffer) == NoFrame ==> AllReturned(Run(c, actions).state)
    ensures OnlyAnswers(Run(c, actions).state) ==>
              (AllReturned(Run(c, actions).state) <==> Decode(Run(c, actions).state.up.reader.buffer) == NoFrame)
  {
    var s := Run(c, actions).state;
    RunInv(c, actions);
    QuietIsDrained(c, s);
    AllRead(c, s.up);
    ParsePayloads(c, Pending(s.up));
    hide Run, Decode, Encode, Consistent, Quiet, Conserved, Downward, Callers;
    forall u | u in s.calls && s.calls[u].waits
      ensures s.calls[u].phase.Returned? <==> forall m :: m in Pending(s.up) ==> m.uuid != u
    {
      QuietCallReturnedIff(c, actions, u);
    }
    if Pending(s.up) != [] {
      assert Pending(s.up)[0] in Pending(s.up);
    }
  }

  predicate AllReturned(s: State) {
    forall u :: u in s.calls && s.calls[u].waits ==> s.calls[u].phase.Returned?
  }

  /** Every message the agent has made answers a waiting call. */
  predicate OnlyAnswers(s: State) {
    forall u :: u in s.made ==> u in s.calls && s.calls[u].waits
  }
}
