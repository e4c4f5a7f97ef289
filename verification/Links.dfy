/** One direction of a connection: messages are encoded, framed, carried as bytes, read in chunks and cut
    again. The representation invariant says which messages are still on their way. */
module Links {
  import opened Tlv
  import opened Framing
  import opened Sender

  datatype Message = Message(uuid: string, kind: int, status: int, data: string, error: string)

  /** Message encoding and parsing, whose text format is not part of this model, and the messages they carry
      faithfully: there are finitely many byte strings a frame can hold, so not every message fits. */
  datatype Codec = Codec(encode: Message -> seq<Byte>, parse: seq<Byte> -> Message, fits: Message -> bool) {
    ghost predicate Lawful() {
      forall m :: fits(m) ==> Sendable(encode(m)) && parse(encode(m)) == m
    }
  }

  /** `sent` records every message written so far; `flight` is what has been written and not yet read. */
  datatype Link = Link(sent: seq<Message>, flight: seq<Byte>, reader: Reader)

  const IDLE := Link([], [], FRESH)

  function Payloads(c: Codec, messages: seq<Message>): (p: seq<seq<Byte>>)
    ensures |p| == |messages|
  {
    seq(|messages|, i requires 0 <= i < |messages| => c.encode(messages[i]))
  }

  function ParseAll(c: Codec, payloads: seq<seq<Byte>>): (m: seq<Message>)
    ensures |m| == |payloads|
  {
    seq(|payloads|, i requires 0 <= i < |payloads| => c.parse(payloads[i]))
  }

  /** The messages written and not yet dispatched by the reader. */
  function Pending(l: Link): seq<Message> {
    if |l.reader.dispatched| <= |l.sent| then l.sent[|l.reader.dispatched|..] else []
  }

  ghost predicate Consistent(c: Codec, l: Link) {
    && !l.reader.panicked
    && |l.reader.dispatched| <= |l.sent|
    && (forall m :: m in Pending(l) ==> c.fits(m))
    && EncodeAll(Payloads(c, Pending(l))) == l.reader.buffer + l.flight
  }

  /** `SendBytes(conn, TlvEncode(msg.Encode()))` on a connection that is going to answer its writes as given. */
  function Transmit(c: Codec, l: Link, m: Message, answers: seq<Answer>): Link {
    l.(sent := l.sent + [m], flight := l.flight + Sends(answers, Encode(c.encode(m))).bytes)
  }

  /** The connection keeps the io.Writer contract and the send reports success. */
  predicate Carried(c: Codec, m: Message, answers: seq<Answer>) {
    var frame := Encode(c.encode(m));
    WriterContract(answers, |frame|) && !Sends(answers, frame).failed
  }

  /** One write that takes the whole frame is such a send. */
  lemma OneWriteCarries(c: Codec, m: Message)
    ensures Carried(c, m, [Answer(|Encode(c.encode(m))|, false)])
  {
  }

  function ReadByAgent(l: Link, n: nat): Link
    requires n <= |l.flight|
  {
    l.(flight := l.flight[n..], reader := AgentRead(l.reader, l.flight[..n]))
  }

  function ReadByServer(l: Link, n: nat): Link
    requires n <= |l.flight|
  {
    l.(flight := l.flight[n..], reader := ServerRead(l.reader, l.flight[..n]))
  }

  /** The messages a read handed to goroutines. */
  function CutBy(c: Codec, before: Link, after: Link): seq<Message> {
    if |before.reader.dispatched| <= |after.reader.dispatched|
    then ParseAll(c, after.reader.dispatched[|before.reader.dispatched|..]) else []
  }

  lemma TransmitKeepsConsistent(c: Codec, l: Link, m: Message, answers: seq<Answer>)
    requires c.Lawful() && Consistent(c, l) && c.fits(m) && Carried(c, m, answers)
    ensures Consistent(c, Transmit(c, l, m, answers))
    ensures Pending(Transmit(c, l, m, answers)) == Pending(l) + [m]
  {
    hide Encode;
    var l' := Transmit(c, l, m, answers);
    ContractCarriesData(answers, Encode(c.encode(m)));
    assert Payloads(c, Pending(l')) == Payloads(c, Pending(l)) + [c.encode(m)];
    EncodeAllConcat(Payloads(c, Pending(l)), [c.encode(m)]);
  }

  /** Whatever a read dispatches is a front part of the pending messages, unchanged and in order. */
  lemma CutIsFront(c: Codec, l: Link, l': Link, k: nat)
    requires c.Lawful() && Consistent(c, l) && l'.sent == l.sent
    requires k <= |Pending(l)|
    requires l'.reader.dispatched == l.reader.dispatched + Payloads(c, Pending(l))[..k]
    ensures CutBy(c, l, l') == Pending(l)[..k]
    ensures Pending(l) == CutBy(c, l, l') + Pending(l')
    ensures Payloads(c, Pending(l')) == Payloads(c, Pending(l))[k..]
  {
    hide Encode, Decode, EncodeAll, Sendable;
    var p, n := Pending(l), |l.reader.dispatched|;
    assert l'.reader.dispatched[n..] == Payloads(c, p)[..k];
    ParsedPart(c, p, k);
    assert Pending(l') == p[k..];
  }

  lemma ParsedPart(c: Codec, messages: seq<Message>, k: nat)
    requires c.Lawful() && k <= |messages| && forall m :: m in messages ==> c.fits(m)
    ensures ParseAll(c, Payloads(c, messages)[..k]) == messages[..k]
    ensures Payloads(c, messages[k..]) == Payloads(c, messages)[k..]
  {
    hide Sendable;
    forall i | 0 <= i < k
      ensures ParseAll(c, Payloads(c, messages)[..k])[i] == messages[i]
    {
      assert messages[i] in messages;
    }
  }

  lemma ReadByAgentKeepsConsistent(c: Codec, l: Link, n: nat)
    requires c.Lawful() && Consistent(c, l) && n <= |l.flight|
    ensures Consistent(c, ReadByAgent(l, n))
    ensures Pending(l) == CutBy(c, l, ReadByAgent(l, n)) + Pending(ReadByAgent(l, n))
    ensures Decode(ReadByAgent(l, n).reader.buffer) == NoFrame
  {
    hide Encode, Decode;
    var bytes, unread, payloads := l.reader.buffer + l.flight[..n], l.flight[n..], Payloads(c, Pending(l));
    DrainCut(payloads, bytes, unread);
    CutIsFront(c, l, ReadByAgent(l, n), Complete(payloads, |bytes|));
    DrainLeavesNoFrame(bytes);
  }

  lemma {:induction false} DrainLeavesNoFrame(buffer: seq<Byte>)
    ensures !Drain(buffer).panicked ==> Decode(Drain(buffer).rest) == NoFrame
    decreases |buffer|
  {
    hide Decode;
    match Decode(buffer)
    case NoFrame =>
    case Panic =>
    case Frame(consumed, payload) => DrainLeavesNoFrame(buffer[consumed..]);
  }

  lemma ReadByServerKeepsConsistent(c: Codec, l: Link, n: nat)
    requires c.Lawful() && Consistent(c, l) && n <= |l.flight|
    ensures Consistent(c, ReadByServer(l, n))
    ensures Pending(l) == CutBy(c, l, ReadByServer(l, n)) + Pending(ReadByServer(l, n))
  {
    hide Encode, Decode;
    var bytes, unread, payloads := l.reader.buffer + l.flight[..n], l.flight[n..], Payloads(c, Pending(l));
    assert bytes + unread == l.reader.buffer + l.flight;
    match Decode(bytes)
    case NoFrame =>
      CutIsFront(c, l, ReadByServer(l, n), 0);
    case Panic =>
      DrainCut(payloads, bytes, unread);
    case Frame(consumed, payload) =>
      CutOne(payloads, bytes, unread);
      CutIsFront(c, l, ReadByServer(l, n), 1);
  }

  /** Once every byte written has been read, the agent has dispatched every message, while the messages the
      server has not dispatched are exactly the frames left in its buffer. */
  lemma AllRead(c: Codec, l: Link)
    requires c.Lawful() && Consistent(c, l) && l.flight == []
    ensures Drain(l.reader.buffer) == Drained(Payloads(c, Pending(l)), [], false)
    ensures Decode(l.reader.buffer) == NoFrame ==> Pending(l) == []
  {
    hide Encode, Decode;
    var payloads := Payloads(c, Pending(l));
    assert l.reader.buffer + [] == l.reader.buffer;
    DecodeNothing();
    DrainEncoded(payloads, []);
  }
}
