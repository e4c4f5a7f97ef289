/** Runs of the protocol that exist: a lawful codec, and a run in which one call returns while the reply to
    another is left in the server's buffer for ever. */
module SessionRuns {
  import opened Tlv
  import opened Framing
  import opened Links
  import opened Session
  import opened Sender

  // ----- A lawful codec: numbers in one byte, texts behind their length -----

  predicate Narrow(s: string) {
    forall i :: 0 <= i < |s| ==> s[i] as int < 256
  }

  function Field(s: string): seq<Byte> {
    BigEndian(|s|, 4) + seq(|s|, i requires 0 <= i < |s| => s[i] as int % 256)
  }

  datatype Parsed = Parsed(text: string, rest: seq<Byte>)

  function ReadField(bytes: seq<Byte>): Parsed {
    if |bytes| < 4 || |bytes| < 4 + Unsigned(bytes[..4]) then Parsed("", [])
    else
      var end := 4 + Unsigned(bytes[..4]);
      Parsed(seq(end - 4, i requires 0 <= i < end - 4 => bytes[4 + i] as char), bytes[end..])
  }

  function Texts(m: Message): seq<Byte> {
    Field(m.uuid) + (Field(m.data) + Field(m.error))
  }

  function ParseTexts(bytes: seq<Byte>, kind: int, status: int): Message {
    var uuid := ReadField(bytes);
    var data := ReadField(uuid.rest);
    Message(uuid.text, kind, status, data.text, ReadField(data.rest).text)
  }

  function EncodeFields(m: Message): seq<Byte> {
    [m.kind % 256, m.status % 256] + Texts(m)
  }

  function ParseFields(bytes: seq<Byte>): Message {
    if |bytes| < 2 then Message("", 0, 0, "", "") else ParseTexts(bytes[2..], bytes[0], bytes[1])
  }

  predicate FitsFields(m: Message) {
    && 0 <= m.kind < 256 && 0 <= m.status < 256 && Narrow(m.uuid) && Narrow(m.data) && Narrow(m.error)
    && |EncodeFields(m)| < TWO_31
  }

  const FIELDS := Codec(EncodeFields, ParseFields, FitsFields)

  /** The codec carries every message whose numbers are bytes, whose texts are made of bytes and whose encoding is
      short enough for a frame. */
  lemma FieldsAreLawful()
    ensures FIELDS.Lawful()
  {
    forall m | FitsFields(m)
      ensures Sendable(EncodeFields(m)) && ParseFields(EncodeFields(m)) == m
    {
      FieldsRoundTrip(m);
    }
  }

  lemma FieldsRoundTrip(m: Message)
    requires FitsFields(m)
    ensures Sendable(EncodeFields(m)) && ParseFields(EncodeFields(m)) == m
  {
    assert |EncodeFields(m)| == 2 + |Texts(m)|;
    hide Texts, ParseTexts, Narrow, ParseFields, EncodeFields;
    TextsRoundTrip(m);
    HeaderKept(m.kind, m.status, m);
    ParseAfterTwo(m.kind, m.status, Texts(m));
  }

  lemma HeaderKept(kind: Byte, status: Byte, m: Message)
    requires m.kind == kind && m.status == status
    ensures EncodeFields(m) == [kind, status] + Texts(m)
  {
    hide Texts;
  }

  lemma ParseAfterTwo(kind: Byte, status: Byte, rest: seq<Byte>)
    ensures ParseFields([kind, status] + rest) == ParseTexts(rest, kind, status)
  {
    hide ParseTexts;
    assert ([kind, status] + rest)[2..] == rest;
  }

  lemma TextsRoundTrip(m: Message)
    requires Narrow(m.uuid) && Narrow(m.data) && Narrow(m.error) && |Texts(m)| < TWO_31
    ensures ParseTexts(Texts(m), m.kind, m.status) == m
  {
    assert |m.uuid| < TWO_32 && |m.data| < TWO_32 && |m.error| < TWO_32;
    hide Field, ReadField, Narrow;
    var data, error := Field(m.data), Field(m.error);
    FieldRoundTrip(m.uuid, data + error);
    FieldRoundTrip(m.data, error);
    assert error + [] == error;
    FieldRoundTrip(m.error, []);
  }

  lemma FieldRoundTrip(s: string, rest: seq<Byte>)
    requires Narrow(s) && |s| < TWO_32
    ensures ReadField(Field(s) + rest) == Parsed(s, rest)
  {
    hide BigEndian, Unsigned;
    LengthRoundTrip(|s|);
    assert (Field(s) + rest)[..4] == BigEndian(|s|, 4);
  }

  // ----- Runs -----

  ghost predicate Reachable(c: Codec, s: State) {
    exists actions :: Run(c, actions) == Reached(s)
  }

  lemma StartReachable(c: Codec)
    ensures Reachable(c, START)
  {
    assert Run(c, []) == Reached(START);
  }

  lemma StepReachable(c: Codec, s: State, a: Action)
    requires Reachable(c, s) && Enabled(c, s, a)
    ensures Reachable(c, Step(c, s, a))
  {
    hide Enabled, Step;
    var actions :| Run(c, actions) == Reached(s);
    assert (actions + [a])[..|actions + [a]| - 1] == actions;
    assert Run(c, actions + [a]) == Reached(Step(c, s, a));
  }

  function OneWrite(c: Codec, m: Message): seq<Answer> {
    [Answer(|Encode(c.encode(m))|, false)]
  }

  function Frames(c: Codec, a: Message, b: Message): seq<Byte> {
    Encode(c.encode(a)) + Encode(c.encode(b))
  }

  /** Two callers, their requests and the replies to them. */
  predicate TwoCalls(c: Codec, a: Message, b: Message, ra: Message, rb: Message) {
    && c.fits(a) && c.fits(b) && c.fits(ra) && c.fits(rb)
    && a.uuid != b.uuid && ra.uuid == a.uuid && rb.uuid == b.uuid
    && |Frames(c, a, b)| <= READ_SIZE && |Frames(c, ra, rb)| <= READ_SIZE
  }

  function Asked(a: Message, b: Message): State {
    START.(calls := map[a.uuid := Call(a, true, Phase.Sent), b.uuid := Call(b, true, Phase.Sent)],
           waitMap := {a.uuid, b.uuid}, outbox := [a, b])
  }

  function Processing(c: Codec, a: Message, b: Message): State {
    Asked(a, b).(outbox := [], down := Link([a, b], [], Reader([c.encode(a), c.encode(b)], [], false)),
                 processing := [a, b])
  }

  function Answered(c: Codec, a: Message, b: Message, ra: Message, rb: Message): State {
    Processing(c, a, b).(processing := [], made := map[a.uuid := ra, b.uuid := rb],
                         served := map[a.uuid := a, b.uuid := b], agentOutbox := [ra, rb])
  }

  lemma ReachAsked(c: Codec, a: Message, b: Message, ra: Message, rb: Message)
    requires TwoCalls(c, a, b, ra, rb)
    ensures Reachable(c, Asked(a, b))
  {
    hide Reachable, Encode;
    StartReachable(c);
    var s1 := Step(c, START, Begin(a, true));
    StepReachable(c, START, Begin(a, true));
    var s2 := Step(c, s1, Begin(b, true));
    StepReachable(c, s1, Begin(b, true));
    var s3 := Step(c, s2, Enqueue(a.uuid));
    StepReachable(c, s2, Enqueue(a.uuid));
    StepReachable(c, s3, Enqueue(b.uuid));
    assert Step(c, s3, Enqueue(b.uuid)) == Asked(a, b);
  }

  lemma OneWriteSends(c: Codec, l: Link, m: Message)
    ensures Carried(c, m, OneWrite(c, m))
    ensures Transmit(c, l, m, OneWrite(c, m)) == l.(sent := l.sent + [m], flight := l.flight + Encode(c.encode(m)))
  {
    OneWriteCarries(c, m);
    ContractCarriesData(OneWrite(c, m), Encode(c.encode(m)));
  }

  lemma TwoFramesDrain(p: seq<Byte>, q: seq<Byte>)
    requires Sendable(p) && Sendable(q)
    ensures Drain(Encode(p) + Encode(q)) == Drained([p, q], [], false)
    ensures Decode(Encode(p) + Encode(q)) == Frame(|Encode(p)|, p)
  {
    hide Encode, Decode;
    DecodeNothing();
    assert EncodeAll([q]) == Encode(q);
    assert EncodeAll([p, q]) + [] == Encode(p) + Encode(q);
    DrainEncoded([p, q], []);
    DecodeFirst(p, Encode(q));
  }

  /** Both requests are on their way. */
  function BothAsked(c: Codec, a: Message, b: Message): State {
    Asked(a, b).(outbox := [], down := Link([a, b], Frames(c, a, b), FRESH))
  }

  lemma ReachBothAsked(c: Codec, a: Message, b: Message, ra: Message, rb: Message)
    requires c.Lawful() && TwoCalls(c, a, b, ra, rb)
    ensures Reachable(c, BothAsked(c, a, b))
  {
    hide Reachable, Encode, Decode, Sends, WriterContract, Carried;
    ReachAsked(c, a, b, ra, rb);
    var s0 := Asked(a, b);
    OneWriteSends(c, s0.down, a);
    var s1 := Step(c, s0, ServerSend(OneWrite(c, a)));
    StepReachable(c, s0, ServerSend(OneWrite(c, a)));
    OneWriteSends(c, s1.down, b);
    StepReachable(c, s1, ServerSend(OneWrite(c, b)));
    assert Step(c, s1, ServerSend(OneWrite(c, b))) == BothAsked(c, a, b);
  }

  lemma ReachProcessing(c: Codec, a: Message, b: Message, ra: Message, rb: Message)
    requires c.Lawful() && TwoCalls(c, a, b, ra, rb)
    ensures Reachable(c, Processing(c, a, b))
  {
    hide Reachable, Encode, Decode;
    ReachBothAsked(c, a, b, ra, rb);
    var s := BothAsked(c, a, b);
    var n := |s.down.flight|;
    assert s.down.flight == FRESH.buffer + s.down.flight[..n];
    TwoFramesDrain(c.encode(a), c.encode(b));
    StepReachable(c, s, DownRead(n));
    assert Step(c, s, DownRead(n)) == Processing(c, a, b);
  }

  lemma ReachAnswered(c: Codec, a: Message, b: Message, ra: Message, rb: Message)
    requires c.Lawful() && TwoCalls(c, a, b, ra, rb)
    ensures Reachable(c, Answered(c, a, b, ra, rb))
  {
    hide Reachable, Encode;
    ReachProcessing(c, a, b, ra, rb);
    var s0 := Processing(c, a, b);
    var s1 := Step(c, s0, AgentReply(0, ra));
    StepReachable(c, s0, AgentReply(0, ra));
    assert s1.processing == [b];
    StepReachable(c, s1, AgentReply(0, rb));
    assert Step(c, s1, AgentReply(0, rb)) == Answered(c, a, b, ra, rb);
  }

  /** The server's one read has cut the first reply and left the second in the buffer. */
  function ReadOnce(c: Codec, a: Message, b: Message, ra: Message, rb: Message): State {
    Answered(c, a, b, ra, rb).(agentOutbox := [], arrived := [ra],
                               up := Link([ra, rb], [], Reader([c.encode(ra)], Encode(c.encode(rb)), false)))
  }

  /** Both replies are on their way. */
  function BothSent(c: Codec, a: Message, b: Message, ra: Message, rb: Message): State {
    Answered(c, a, b, ra, rb).(agentOutbox := [], up := Link([ra, rb], Frames(c, ra, rb), FRESH))
  }

  lemma ReachBothSent(c: Codec, a: Message, b: Message, ra: Message, rb: Message)
    requires c.Lawful() && TwoCalls(c, a, b, ra, rb)
    ensures Reachable(c, BothSent(c, a, b, ra, rb))
  {
    hide Reachable, Encode, Decode, Sends, WriterContract, Carried;
    ReachAnswered(c, a, b, ra, rb);
    var s0 := Answered(c, a, b, ra, rb);
    OneWriteSends(c, s0.up, ra);
    var s1 := Step(c, s0, AgentSend(OneWrite(c, ra)));
    StepReachable(c, s0, AgentSend(OneWrite(c, ra)));
    OneWriteSends(c, s1.up, rb);
    StepReachable(c, s1, AgentSend(OneWrite(c, rb)));
    assert Step(c, s1, AgentSend(OneWrite(c, rb))) == BothSent(c, a, b, ra, rb);
  }

  lemma ReachReadOnce(c: Codec, a: Message, b: Message, ra: Message, rb: Message)
    requires c.Lawful() && TwoCalls(c, a, b, ra, rb)
    ensures Reachable(c, ReadOnce(c, a, b, ra, rb))
  {
    hide Reachable, Encode, Decode;
    ReachBothSent(c, a, b, ra, rb);
    var s := BothSent(c, a, b, ra, rb);
    var n := |s.up.flight|;
    assert s.up.flight == FRESH.buffer + s.up.flight[..n];
    TwoFramesDrain(c.encode(ra), c.encode(rb));
    StepReachable(c, s, UpRead(n));
    assert Step(c, s, UpRead(n)) == ReadOnce(c, a, b, ra, rb);
  }

  /** The first call has returned; the reply to the second is a whole frame in the server's buffer. */
  function HeldBack(c: Codec, a: Message, b: Message, ra: Message, rb: Message): State {
    var s := Answered(c, a, b, ra, rb);
    s.(agentOutbox := [], up := Link([ra, rb], [], Reader([c.encode(ra)], Encode(c.encode(rb)), false)),
       calls := s.calls[a.uuid := Call(a, true, Returned(ra))])
  }

  lemma ReachHeldBack(c: Codec, a: Message, b: Message, ra: Message, rb: Message)
    requires c.Lawful() && TwoCalls(c, a, b, ra, rb)
    ensures Reachable(c, HeldBack(c, a, b, ra, rb))
  {
    hide Reachable, Encode, Decode;
    ReachReadOnce(c, a, b, ra, rb);
    var s0 := ReadOnce(c, a, b, ra, rb);
    var s1 := Step(c, s0, Load(0));
    StepReachable(c, s0, Load(0));
    StepReachable(c, s1, Hand(0));
    assert Step(c, s1, Hand(0)) == HeldBack(c, a, b, ra, rb);
  }

  /** For every lawful codec and any two short calls there is a run that ends with nothing left to do, the first
      call returned with its reply and the second, whose reply has arrived in full, waiting for ever. */
  lemma SecondCallWaitsForEver(c: Codec, a: Message, b: Message, ra: Message, rb: Message)
    requires c.Lawful() && TwoCalls(c, a, b, ra, rb)
    ensures exists actions ::
              && Run(c, actions).Reached? && Quiet(c, Run(c, actions).state)
              && a.uuid in Run(c, actions).state.calls && Run(c, actions).state.calls[a.uuid].phase == Returned(ra)
              && b.uuid in Run(c, actions).state.calls && Run(c, actions).state.calls[b.uuid].phase == Phase.Sent
              && Run(c, actions).state.up.reader.buffer == Encode(c.encode(rb))
  {
    hide Encode, Decode, Step;
    ReachHeldBack(c, a, b, ra, rb);
    var s := HeldBack(c, a, b, ra, rb);
    var actions :| Run(c, actions) == Reached(s);
    forall x | Enabled(c, s, x)
      ensures Spontaneous(x)
    {
    }
    assert Quiet(c, Run(c, actions).state);
  }

  // ----- Replies out of order -----

  /** The agent answered the second request first, and both replies are on their way. */
  function SentSwapped(c: Codec, a: Message, b: Message, ra: Message, rb: Message): State {
    Answered(c, a, b, ra, rb).(agentOutbox := [], up := Link([rb, ra], Frames(c, rb, ra), FRESH))
  }

  lemma ReachSentSwapped(c: Codec, a: Message, b: Message, ra: Message, rb: Message)
    requires c.Lawful() && TwoCalls(c, a, b, ra, rb)
    ensures Reachable(c, SentSwapped(c, a, b, ra, rb))
  {
    hide Reachable, Encode, Decode, Sends, WriterContract, Carried;
    ReachProcessing(c, a, b, ra, rb);
    var s0 := Processing(c, a, b);
    var s1 := Step(c, s0, AgentReply(1, rb));
    StepReachable(c, s0, AgentReply(1, rb));
    assert s1.processing == [a];
    var s2 := Step(c, s1, AgentReply(0, ra));
    StepReachable(c, s1, AgentReply(0, ra));
    assert s2 == Answered(c, a, b, ra, rb).(agentOutbox := [rb, ra]);
    OneWriteSends(c, s2.up, rb);
    var s3 := Step(c, s2, AgentSend(OneWrite(c, rb)));
    StepReachable(c, s2, AgentSend(OneWrite(c, rb)));
    OneWriteSends(c, s3.up, ra);
    StepReachable(c, s3, AgentSend(OneWrite(c, ra)));
    assert Step(c, s3, AgentSend(OneWrite(c, ra))) == SentSwapped(c, a, b, ra, rb);
  }

  /** Each reply came in a read of its own. */
  function ReadSwapped(c: Codec, a: Message, b: Message, ra: Message, rb: Message): State {
    Answered(c, a, b, ra, rb).(agentOutbox := [], arrived := [rb, ra],
                               up := Link([rb, ra], [], Reader([c.encode(rb), c.encode(ra)], [], false)))
  }

  /** A read of exactly one frame. */
  lemma ReadOneFrame(c: Codec, l: Link, m: Message, rest: seq<Byte>)
    requires c.Lawful() && c.fits(m) && !l.reader.panicked && l.reader.buffer == []
    requires l.flight == Encode(c.encode(m)) + rest
    ensures var l' := ReadByServer(l, |Encode(c.encode(m))|);
            && l' == l.(flight := rest, reader := Reader(l.reader.dispatched + [c.encode(m)], [], false))
            && CutBy(c, l, l') == [m]
  {
    hide Encode, Decode;
    var frame := Encode(c.encode(m));
    assert l.flight[..|frame|] == frame && l.flight[|frame|..] == rest && [] + frame == frame;
    RoundTripIff(c.encode(m));
    assert frame[|frame|..] == [];
  }

  lemma ReachReadSwapped(c: Codec, a: Message, b: Message, ra: Message, rb: Message)
    requires c.Lawful() && TwoCalls(c, a, b, ra, rb)
    ensures Reachable(c, ReadSwapped(c, a, b, ra, rb))
  {
    hide Reachable, Encode, Decode, ReadByServer, CutBy;
    ReachSentSwapped(c, a, b, ra, rb);
    var s0 := SentSwapped(c, a, b, ra, rb);
    var n, k := |Encode(c.encode(rb))|, |Encode(c.encode(ra))|;
    ReadOneFrame(c, s0.up, rb, Encode(c.encode(ra)));
    var s1 := Step(c, s0, UpRead(n));
    StepReachable(c, s0, UpRead(n));
    assert s1.up.flight == Encode(c.encode(ra)) + [];
    ReadOneFrame(c, s1.up, ra, []);
    StepReachable(c, s1, UpRead(k));
    assert Step(c, s1, UpRead(k)) == ReadSwapped(c, a, b, ra, rb);
  }

  /** The second call has returned before the first. */
  function Overtaken(c: Codec, a: Message, b: Message, ra: Message, rb: Message): State {
    var s := ReadSwapped(c, a, b, ra, rb);
    s.(arrived := [], delivering := [ra], calls := s.calls[b.uuid := Call(b, true, Returned(rb))])
  }

  lemma ReachOvertaken(c: Codec, a: Message, b: Message, ra: Message, rb: Message)
    requires c.Lawful() && TwoCalls(c, a, b, ra, rb)
    ensures Reachable(c, Overtaken(c, a, b, ra, rb))
  {
    hide Reachable, Encode, Decode;
    ReachReadSwapped(c, a, b, ra, rb);
    var s0 := ReadSwapped(c, a, b, ra, rb);
    var s1 := Step(c, s0, Load(1));
    StepReachable(c, s0, Load(1));
    assert s1.arrived == [rb] && s1.delivering == [ra];
    var s2 := Step(c, s1, Load(0));
    StepReachable(c, s1, Load(0));
    assert s2.arrived == [] && s2.delivering == [ra, rb];
    StepReachable(c, s2, Hand(1));
    assert Step(c, s2, Hand(1)) == Overtaken(c, a, b, ra, rb);
  }

  /** Replies and the goroutines that deliver them may overtake each other: for any two short calls there is a run in
      which the second has returned while the first still waits, and one step later both have their own replies. */
  lemma SecondCallMayReturnFirst(c: Codec, a: Message, b: Message, ra: Message, rb: Message)
    requires c.Lawful() && TwoCalls(c, a, b, ra, rb)
    ensures exists s :: Reachable(c, s) && a.uuid in s.calls && b.uuid in s.calls
              && s.calls[a.uuid].phase == Phase.Sent && s.calls[b.uuid].phase == Returned(rb)
    ensures exists s :: Reachable(c, s) && a.uuid in s.calls && b.uuid in s.calls
              && s.calls[a.uuid].phase == Returned(ra) && s.calls[b.uuid].phase == Returned(rb)
  {
    hide Reachable, Encode, Decode;
    ReachOvertaken(c, a, b, ra, rb);
    var s := Overtaken(c, a, b, ra, rb);
    StepReachable(c, s, Hand(0));
    var s' := Step(c, s, Hand(0));
    assert s'.calls[a.uuid].phase == Returned(ra);
  }

  /** Such a run exists with the codec above: the results about runs speak of something. */
  lemma SuchARunExists()
    ensures exists actions, a: string, b: string ::
              && FIELDS.Lawful() && Run(FIELDS, actions).Reached? && Quiet(FIELDS, Run(FIELDS, actions).state)
              && a in Run(FIELDS, actions).state.calls && Run(FIELDS, actions).state.calls[a].phase.Returned?
              && b in Run(FIELDS, actions).state.calls && Run(FIELDS, actions).state.calls[b].phase == Phase.Sent
  {
    FieldsAreLawful();
    var a, b := Message("1", 1, 0, "", ""), Message("2", 1, 0, "", "");
    ShortCalls(a, b);
    hide Run, Quiet, Encode, TwoCalls;
    SecondCallWaitsForEver(FIELDS, a, b, a.(status := 1), b.(status := 1));
  }

  lemma ShortCalls(a: Message, b: Message)
    requires a == Message("1", 1, 0, "", "") && b == Message("2", 1, 0, "", "")
    ensures TwoCalls(FIELDS, a, b, a.(status := 1), b.(status := 1))
  {
    hide BigEndian, Tag;
  }
}
