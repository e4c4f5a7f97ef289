/** What the two read loops compute, as functions of the bytes read so far: the agent's loop drains its
    buffer after every read (pkg/app/agent/network/client.go:86-112), the server's loop cuts at most one
    frame per read (pkg/app/server/agentmanager/agent.go:88-114). */
module Framing {
  import opened Tlv

  datatype Drained = Drained(payloads: seq<seq<Byte>>, rest: seq<Byte>, panicked: bool)

  /** Cutting frames off the front of a buffer until none is left. */
  function Drain(buffer: seq<Byte>): Drained
    decreases |buffer|
  {
    match Decode(buffer)
    case NoFrame => Drained([], buffer, false)
    case Panic => Drained([], buffer, true)
    case Frame(consumed, payload) => Then([payload], Drain(buffer[consumed..]))
  }

  function Then(earlier: seq<seq<Byte>>, d: Drained): Drained {
    d.(payloads := earlier + d.payloads)
  }

  /** A read loop: the payloads handed to `ProcessMessage` so far and the bytes still buffered. */
  datatype Reader = Reader(dispatched: seq<seq<Byte>>, buffer: seq<Byte>, panicked: bool)

  const FRESH := Reader([], [], false)

  function AgentRead(r: Reader, chunk: seq<Byte>): Reader {
    if r.panicked then r
    else
      var d := Drain(r.buffer + chunk);
      Reader(r.dispatched + d.payloads, d.rest, d.panicked)
  }

  function ServerRead(r: Reader, chunk: seq<Byte>): Reader {
    if r.panicked then r
    else
      var buffer := r.buffer + chunk;
      match Decode(buffer)
      case NoFrame => r.(buffer := buffer)
      case Panic => r.(buffer := buffer, panicked := true)
      case Frame(consumed, payload) => r.(dispatched := r.dispatched + [payload], buffer := buffer[consumed..])
  }

  /** The reads of a connection, oldest first. */
  function AgentRun(chunks: seq<seq<Byte>>): Reader {
    if chunks == [] then FRESH
    else AgentRead(AgentRun(chunks[..|chunks| - 1]), chunks[|chunks| - 1])
  }

  function ServerRun(chunks: seq<seq<Byte>>): Reader {
    if chunks == [] then FRESH
    else ServerRead(ServerRun(chunks[..|chunks| - 1]), chunks[|chunks| - 1])
  }

  function Received(chunks: seq<seq<Byte>>): seq<Byte> {
    if chunks == [] then [] else Received(chunks[..|chunks| - 1]) + chunks[|chunks| - 1]
  }

  /** Draining now and again after more bytes is draining once at the end. */
  lemma {:induction false} DrainInTwoSteps(a: seq<Byte>, b: seq<Byte>)
    requires !Drain(a).panicked
    ensures Drain(a + b) == Then(Drain(a).payloads, Drain(Drain(a).rest + b))
    decreases |a|
  {
    hide Decode;
    DecodeIsMonotone(a, b);
    match Decode(a)
    case NoFrame =>
    case Frame(consumed, payload) =>
      var later := a[consumed..];
      assert (a + b)[consumed..] == later + b;
      DrainInTwoSteps(later, b);
      ThenTwice([payload], Drain(later).payloads, Drain(Drain(later).rest + b));
  }

  lemma ThenTwice(first: seq<seq<Byte>>, second: seq<seq<Byte>>, d: Drained)
    ensures Then(first, Then(second, d)) == Then(first + second, d)
  {
  }

  lemma {:induction false} DrainPanicIsMonotone(a: seq<Byte>, b: seq<Byte>)
    requires Drain(a).panicked
    ensures Drain(a + b).panicked && Drain(a + b).payloads == Drain(a).payloads
    decreases |a|
  {
    hide Decode;
    DecodeIsMonotone(a, b);
    match Decode(a)
    case Panic =>
    case Frame(consumed, payload) =>
      assert (a + b)[consumed..] == a[consumed..] + b;
      DrainPanicIsMonotone(a[consumed..], b);
  }

  /** What the agent dispatches depends on the bytes received, never on how reads cut them: on every byte
      stream the loop does what one drain of the whole stream does. */
  lemma {:induction false} AgentIgnoresChunking(chunks: seq<seq<Byte>>)
    ensures var whole, r := Drain(Received(chunks)), AgentRun(chunks);
            && r.dispatched == whole.payloads
            && r.panicked == whole.panicked
            && (!r.panicked ==> r.buffer == whole.rest)
  {
    if chunks != [] {
      var n := |chunks| - 1;
      AgentIgnoresChunking(chunks[..n]);
      var before := Received(chunks[..n]);
      if Drain(before).panicked {
        DrainPanicIsMonotone(before, chunks[n]);
      } else {
        DrainInTwoSteps(before, chunks[n]);
      }
    }
  }

  /** The server's reader `s` against the agent's reader `a` after the same reads: what the server has
      dispatched, followed by the frames still decodable from its buffer, is what the agent has
      dispatched, and the bytes left after those are the same. */
  predicate Behind(s: Reader, a: Reader) {
    && !s.panicked && !a.panicked
    && Then(s.dispatched, Drain(s.buffer)) == Drained(a.dispatched, a.buffer, false)
  }

  /** One read of the server's loop moves at most the first frame of its backlog to the dispatched ones. */
  lemma ServerReadKeepsBacklog(s: Reader, chunk: seq<Byte>)
    requires !s.panicked && !Drain(s.buffer + chunk).panicked
    ensures !ServerRead(s, chunk).panicked
    ensures Then(ServerRead(s, chunk).dispatched, Drain(ServerRead(s, chunk).buffer))
         == Then(s.dispatched, Drain(s.buffer + chunk))
    ensures |ServerRead(s, chunk).dispatched|
         == |s.dispatched| + if Drain(s.buffer + chunk).payloads == [] then 0 else 1
  {
  }

  lemma ReadKeepsBehind(s: Reader, a: Reader, chunk: seq<Byte>)
    requires Behind(s, a) && !AgentRead(a, chunk).panicked
    ensures Behind(ServerRead(s, chunk), AgentRead(a, chunk))
  {
    hide Decode;
    var backlog := Drain(s.buffer).payloads;
    DrainInTwoSteps(s.buffer, chunk);
    ServerReadKeepsBacklog(s, chunk);
    ThenTwice(s.dispatched, backlog, Drain(a.buffer + chunk));
  }

  /** One frame per read loses nothing, on every byte stream that does not make the agent's loop panic. */
  lemma {:induction false} ServerLosesNothing(chunks: seq<seq<Byte>>)
    requires !AgentRun(chunks).panicked
    ensures Behind(ServerRun(chunks), AgentRun(chunks))
  {
    hide Decode, Behind, AgentRead, ServerRead;
    if chunks == [] {
      assert Behind(FRESH, FRESH) by { NothingInNothing(); }
    } else {
      var n := |chunks| - 1;
      AgentStaysDown(AgentRun(chunks[..n]), chunks[n]);
      ServerLosesNothing(chunks[..n]);
      ReadKeepsBehind(ServerRun(chunks[..n]), AgentRun(chunks[..n]), chunks[n]);
    }
  }

  lemma AgentStaysDown(r: Reader, chunk: seq<Byte>)
    ensures r.panicked ==> AgentRead(r, chunk).panicked
  {
  }

  lemma NothingInNothing()
    ensures Behind(FRESH, FRESH)
  {
  }

  /** After a read the server's loop is level with the agent's exactly when at most one whole frame was in
      its buffer before cutting. */
  lemma ServerLevelIff(chunks: seq<seq<Byte>>, chunk: seq<Byte>)
    requires !AgentRun(chunks + [chunk]).panicked
    ensures ServerRun(chunks + [chunk]).dispatched == AgentRun(chunks + [chunk]).dispatched
       <==> |Drain(ServerRun(chunks).buffer + chunk).payloads| <= 1
  {
    hide Decode;
    var all := chunks + [chunk];
    ServerLosesNothing(all);
  }

  // ----- Streams of encoded payloads -----

  function EncodeAll(payloads: seq<seq<Byte>>): seq<Byte> {
    if payloads == [] then [] else Encode(payloads[0]) + EncodeAll(payloads[1..])
  }

  predicate AllSendable(payloads: seq<seq<Byte>>) {
    forall i :: 0 <= i < |payloads| ==> Sendable(payloads[i])
  }

  /** How many of the frames lie wholly within the first `length` bytes of the stream. */
  function Complete(payloads: seq<seq<Byte>>, length: nat): (k: nat)
    ensures k <= |payloads|
  {
    if payloads == [] || length < |Encode(payloads[0])| then 0
    else 1 + Complete(payloads[1..], length - |Encode(payloads[0])|)
  }

  lemma {:induction false} EncodeAllConcat(a: seq<seq<Byte>>, b: seq<seq<Byte>>)
    ensures EncodeAll(a + b) == EncodeAll(a) + EncodeAll(b)
  {
    hide Encode;
    if a == [] {
      assert a + b == b;
    } else {
      assert (a + b)[1..] == a[1..] + b;
      EncodeAllConcat(a[1..], b);
    }
  }

  /** `Complete` is the number of whole frames: that many fit, and one more would not. */
  lemma {:induction false} CompleteCounts(payloads: seq<seq<Byte>>, length: nat)
    ensures var k := Complete(payloads, length);
            && |EncodeAll(payloads[..k])| <= length
            && (k < |payloads| ==> length < |EncodeAll(payloads[..k])| + |Encode(payloads[k])|)
  {
    hide Encode;
    var k := Complete(payloads, length);
    if k > 0 {
      CompleteCounts(payloads[1..], length - |Encode(payloads[0])|);
      assert payloads[..k][1..] == payloads[1..][..k - 1];
    }
  }

  /** The bytes accounted for by a drain: its payloads encoded again, then what is left. */
  function Bytes(d: Drained): seq<Byte> {
    EncodeAll(d.payloads) + d.rest
  }

  lemma BytesOfThen(earlier: seq<seq<Byte>>, d: Drained)
    ensures Bytes(Then(earlier, d)) == EncodeAll(earlier) + Bytes(d)
  {
    hide EncodeAll;
    EncodeAllConcat(earlier, d.payloads);
    var a, b := EncodeAll(earlier), EncodeAll(d.payloads);
    assert (a + b) + d.rest == a + (b + d.rest);
  }

  /** Draining gives back the very bytes it was given, on every byte stream. */
  lemma {:induction false} DrainKeepsBytes(buffer: seq<Byte>)
    ensures Bytes(Drain(buffer)) == buffer
    decreases |buffer|
  {
    hide Decode, Encode, Bytes, Then;
    match Decode(buffer)
    case NoFrame => NoFrames(buffer, false);
    case Panic => NoFrames(buffer, true);
    case Frame(consumed, payload) =>
      DecodedWasEncoded(buffer);
      DrainKeepsBytes(buffer[consumed..]);
      BytesOfThen([payload], Drain(buffer[consumed..]));
  }

  lemma NoFrames(buffer: seq<Byte>, panicked: bool)
    ensures Bytes(Drained([], buffer, panicked)) == buffer
  {
  }

  /** Draining encoded payloads gives them back, when what follows them is not a whole frame. */
  lemma {:induction false} DrainEncoded(payloads: seq<seq<Byte>>, rest: seq<Byte>)
    requires AllSendable(payloads) && Decode(rest) == NoFrame
    ensures Drain(EncodeAll(payloads) + rest) == Drained(payloads, rest, false)
  {
    hide Decode, Encode;
    if payloads == [] {
      assert EncodeAll(payloads) + rest == rest;
    } else {
      var later := EncodeAll(payloads[1..]) + rest;
      var all := EncodeAll(payloads) + rest;
      assert all == Encode(payloads[0]) + later;
      DecodeFirst(payloads[0], later);
      DrainEncoded(payloads[1..], rest);
    }
  }

  /** Cutting an encoded stream anywhere: whole frames, then part of the next one. */
  lemma CutStream(payloads: seq<seq<Byte>>, bytes: seq<Byte>, unread: seq<Byte>)
    requires EncodeAll(payloads) == bytes + unread
    ensures |EncodeAll(payloads[..Complete(payloads, |bytes|)])| <= |bytes|
    ensures var k, rest := Complete(payloads, |bytes|), bytes[|EncodeAll(payloads[..Complete(payloads, |bytes|)])|..];
            && bytes == EncodeAll(payloads[..k]) + rest
            && rest + unread == EncodeAll(payloads[k..])
            && (k == |payloads| ==> rest == [])
            && (k < |payloads| ==> |rest| < |Encode(payloads[k])| && rest == Encode(payloads[k])[..|rest|])
  {
    hide Encode;
    CompleteCounts(payloads, |bytes|);
    var k := Complete(payloads, |bytes|);
    var whole, later := EncodeAll(payloads[..k]), EncodeAll(payloads[k..]);
    assert payloads[..k] + payloads[k..] == payloads;
    EncodeAllConcat(payloads[..k], payloads[k..]);
    var rest := bytes[|whole|..];
    assert rest + unread == (bytes + unread)[|whole|..] == later;
    if k < |payloads| {
      assert payloads[k..][0] == payloads[k];
      var frame := Encode(payloads[k]);
      assert later == frame + EncodeAll(payloads[k..][1..]);
      assert rest == later[..|rest|] == frame[..|rest|];
    }
  }

  /** Draining what has arrived of an encoded stream: exactly the whole frames come out, in order. */
  lemma DrainCut(payloads: seq<seq<Byte>>, bytes: seq<Byte>, unread: seq<Byte>)
    requires AllSendable(payloads)
    requires EncodeAll(payloads) == bytes + unread
    ensures var k, d := Complete(payloads, |bytes|), Drain(bytes);
            && !d.panicked
            && d.payloads == payloads[..k]
            && bytes == EncodeAll(payloads[..k]) + d.rest
            && d.rest + unread == EncodeAll(payloads[k..])
            && (k == |payloads| ==> d.rest == [])
            && (k < |payloads| ==> |d.rest| < |Encode(payloads[k])| && d.rest == Encode(payloads[k])[..|d.rest|])
  {
    hide Decode, Encode;
    CutStream(payloads, bytes, unread);
    var k := Complete(payloads, |bytes|);
    var rest := bytes[|EncodeAll(payloads[..k])|..];
    if k < |payloads| {
      DecodeCut(payloads[k], rest);
    } else {
      DecodeNothing();
    }
    DrainEncoded(payloads[..k], rest);
  }

  /** The framing theorem: for every list of sendable payloads and every way of cutting what has arrived of
      their frames into reads, the agent has dispatched exactly the payloads completely received, in
      order, and its buffer is exactly the received part of the unfinished frame. */
  lemma AgentDispatchesCompletePayloads(payloads: seq<seq<Byte>>, chunks: seq<seq<Byte>>, unread: seq<Byte>)
    requires AllSendable(payloads)
    requires EncodeAll(payloads) == Received(chunks) + unread
    ensures var k, r := Complete(payloads, |Received(chunks)|), AgentRun(chunks);
            && !r.panicked
            && r.dispatched == payloads[..k]
            && Received(chunks) == EncodeAll(payloads[..k]) + r.buffer
            && (k == |payloads| ==> r.buffer == [])
            && (k < |payloads| ==> |r.buffer| < |Encode(payloads[k])| && r.buffer == Encode(payloads[k])[..|r.buffer|])
  {
    hide Decode, Encode, Drain;
    AgentIgnoresChunking(chunks);
    DrainCut(payloads, Received(chunks), unread);
  }

  /** Cutting one frame off an encoded stream takes its first payload and leaves the stream of the others. */
  lemma CutOne(payloads: seq<seq<Byte>>, bytes: seq<Byte>, unread: seq<Byte>)
    requires AllSendable(payloads)
    requires EncodeAll(payloads) == bytes + unread
    requires Decode(bytes).Frame?
    ensures payloads != [] && Decode(bytes).payload == payloads[0]
    ensures EncodeAll(payloads[1..]) == bytes[Decode(bytes).consumed..] + unread
  {
    hide Decode, Encode, Complete;
    DrainCut(payloads, bytes, unread);
    var frame := Encode(payloads[0]);
    assert (bytes + unread)[|frame|..] == bytes[|frame|..] + unread;
  }

  lemma DecodeNothing()
    ensures Decode([]) == NoFrame
  {
  }

  /** Over the same reads the server has dispatched a prefix of the payloads completely received, still
      holds every other one, and its buffer is what follows the dispatched frames. */
  lemma ServerDispatchesPrefix(payloads: seq<seq<Byte>>, chunks: seq<seq<Byte>>, unread: seq<Byte>)
    requires AllSendable(payloads)
    requires EncodeAll(payloads) == Received(chunks) + unread
    ensures var k, s := Complete(payloads, |Received(chunks)|), ServerRun(chunks);
            && !s.panicked
            && s.dispatched <= payloads[..k]
            && s.dispatched + Drain(s.buffer).payloads == payloads[..k]
            && Received(chunks) == EncodeAll(s.dispatched) + s.buffer
  {
    hide Decode, Encode, Bytes, EncodeAll;
    AgentDispatchesCompletePayloads(payloads, chunks, unread);
    ServerLosesNothing(chunks);
    var s, r := ServerRun(chunks), AgentRun(chunks);
    DrainKeepsBytes(s.buffer);
    BytesOfThen(s.dispatched, Drain(s.buffer));
    assert Bytes(Drained(r.dispatched, r.buffer, false)) == Received(chunks) by { BytesOf(r.dispatched, r.buffer); }
  }

  lemma BytesOf(payloads: seq<seq<Byte>>, rest: seq<Byte>)
    ensures Bytes(Drained(payloads, rest, false)) == EncodeAll(payloads) + rest
  {
  }

  /** Two frames arriving in one read, with nothing after them: the agent dispatches both, the server
      holds the second back although it is complete. */
  lemma SecondFrameWaits(p: seq<Byte>, q: seq<Byte>)
    requires Sendable(p) && Sendable(q)
    ensures AgentRun([Encode(p) + Encode(q)]).dispatched == [p, q]
    ensures ServerRun([Encode(p) + Encode(q)]).dispatched == [p]
  {
    hide Decode, Encode;
    var stream := Encode(p) + Encode(q);
    assert FRESH.buffer + stream == stream;
    DecodeNothing();
    DrainEncoded([p, q], []);
    assert EncodeAll([q]) == Encode(q);
    assert EncodeAll([p, q]) + [] == stream;
  }
}
