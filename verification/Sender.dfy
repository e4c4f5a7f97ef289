/** `SendBytes` (pkg/utils/message/net/tool.go:21-35) against a connection whose `Write` may answer anything:
    the loop re-sends from offset `send_count`, which it only advances on the last write. */
module Sender {
  import opened Sequences
  import opened Tlv

  /** One answer of `conn.Write`: how many bytes it took, and whether it reported an error. */
  datatype Answer = Answer(taken: nat, failed: bool) {
    function TakenOf(data: seq<Byte>): nat {
      if taken <= |data| then taken else |data|
    }
  }

  /** A connection: the bytes it has carried, and how it is going to answer writes; once the answers are
      used up it fails every write. */
  class Conn {
    var carried: seq<Byte>
    var answers: seq<Answer>

    constructor (answers: seq<Answer>)
      ensures carried == [] && this.answers == answers
    {
      carried := [];
      this.answers := answers;
    }

    method Write(data: seq<Byte>) returns (n: nat, failed: bool)
      modifies this
      ensures old(answers) == [] ==> failed && n == 0 && carried == old(carried) && answers == []
      ensures old(answers) != [] ==>
                && answers == old(answers)[1..]
                && n == old(answers)[0].TakenOf(data) && failed == old(answers)[0].failed
                && carried == old(carried) + data[..n]
    {
      if answers == [] {
        return 0, true;
      }
      n, failed := answers[0].TakenOf(data), answers[0].failed;
      carried := carried + data[..n];
      answers := answers[1..];
    }
  }

  datatype Sent = Sent(bytes: seq<Byte>, failed: bool)

  /** What a send puts on the connection: every write starts from the beginning of `data`. */
  function Sends(answers: seq<Answer>, data: seq<Byte>): Sent {
    if answers == [] then Sent([], true)
    else
      var n := answers[0].TakenOf(data);
      if answers[0].failed then Sent(data[..n], true)
      else if n >= |data| then Sent(data, false)
      else
        var later := Sends(answers[1..], data);
        Sent(data[..n] + later.bytes, later.failed)
  }

  method SendBytes(conn: Conn, data: seq<Byte>) returns (failed: bool)
    modifies conn
    ensures failed == Sends(old(conn.answers), data).failed
    ensures conn.carried == old(conn.carried) + Sends(old(conn.answers), data).bytes
  {
    var dataLength, sendCount := |data|, 0;
    ghost var whole := Sends(conn.answers, data);
    ghost var stream := conn.carried + whole.bytes;
    while true
      invariant sendCount == 0
      invariant Sends(conn.answers, data).failed == whole.failed
      invariant conn.carried + Sends(conn.answers, data).bytes == stream
      decreases |conn.answers|
    {
      ghost var carried, answers := conn.carried, conn.answers;
      assert data[0..] == data;
      var n, err := conn.Write(data[sendCount..]);
      Associative(carried, data[..n], Sends(conn.answers, data).bytes);
      if err {
        return true;
      }
      if n + sendCount >= dataLength {
        assert data[..n] == data;
        sendCount := sendCount + n;
        break;
      }
    }
    return false;
  }

  /** The io.Writer contract: a short write reports an error. */
  predicate WriterContract(answers: seq<Answer>, length: nat) {
    forall i :: 0 <= i < |answers| ==> answers[i].taken < length ==> answers[i].failed
  }

  /** The writes made before the one that ends a send. */
  function Retries(answers: seq<Answer>, length: nat): (k: nat)
    ensures k <= |answers|
  {
    if answers == [] || answers[0].failed || answers[0].taken >= length then 0
    else 1 + Retries(answers[1..], length)
  }

  /** A send fails exactly if the write that ends it, the first that takes everything or reports an error, reports one
      or never comes. */
  lemma {:induction false} FailedIff(answers: seq<Answer>, data: seq<Byte>)
    ensures var k := Retries(answers, |data|);
            Sends(answers, data).failed <==> k == |answers| || answers[k].failed
  {
    if Retries(answers, |data|) > 0 {
      FailedIff(answers[1..], data);
    }
  }

  /** A send that reports success carried exactly its data if and only if every short write before the last
      one took nothing; otherwise the connection has carried more bytes than were to be sent. */
  lemma {:induction false} SuccessCarriesDataIff(answers: seq<Answer>, data: seq<Byte>)
    requires !Sends(answers, data).failed
    ensures |Sends(answers, data).bytes| >= |data|
    ensures Sends(answers, data).bytes == data
       <==> forall i :: 0 <= i < Retries(answers, |data|) ==> answers[i].taken == 0
  {
    if Retries(answers, |data|) > 0 {
      var later := answers[1..];
      SuccessCarriesDataIff(later, data);
      assert (forall i :: 0 <= i < Retries(answers, |data|) ==> answers[i].taken == 0)
        <==> answers[0].taken == 0 && forall i :: 0 <= i < Retries(later, |data|) ==> later[i].taken == 0 by {
        if answers[0].taken == 0 && forall i :: 0 <= i < Retries(later, |data|) ==> later[i].taken == 0 {
          forall i | 0 <= i < Retries(answers, |data|) ensures answers[i].taken == 0 {
            if i > 0 { assert later[i - 1].taken == 0; }
          }
        }
      }
    }
  }

  /** A write that takes one byte of two and reports no error: the send succeeds and carries that byte twice. */
  lemma ShortWriteRepeats(x: Byte, y: Byte)
    ensures Sends([Answer(1, false), Answer(2, false)], [x, y]) == Sent([x, x, y], false)
  {
    assert [Answer(1, false), Answer(2, false)][1..] == [Answer(2, false)];
    assert Sends([Answer(2, false)], [x, y]) == Sent([x, y], false);
  }

  /** Under the io.Writer contract a send carries exactly its data when it reports success and a prefix of it
      when it fails, so the frames of successive sends stand one after the other on the connection. */
  lemma ContractCarriesData(answers: seq<Answer>, data: seq<Byte>)
    requires WriterContract(answers, |data|)
    ensures var s := Sends(answers, data);
            s.bytes <= data && (!s.failed ==> s.bytes == data)
  {
  }
}
