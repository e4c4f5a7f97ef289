/** The two read loops as they run: `readBuff` is a Go slice that grows by `append` and is resliced past
    every frame cut from it, and the payloads handed to goroutines are windows of the same memory. */
module Readers {
  import opened Tlv
  import opened Framing

  /** A window of a backing array; its capacity runs to the end of the array. */
  datatype Slice = Slice(base: array<Byte>, lo: nat, hi: nat) {
    predicate InBounds() {
      lo <= hi <= base.Length
    }

    function View(): seq<Byte>
      requires InBounds()
      reads base
    {
      base[lo..hi]
    }
  }

  class FrameReader {
    var readBuff: Slice
    var dispatched: seq<Slice>
    var panicked: bool
    ghost var payloads: seq<seq<Byte>>  // what each dispatched slice held when it was dispatched

    /** Dispatched slices still hold their payloads, and none reaches into the part of the backing array
        that `append` may write. */
    ghost predicate Valid()
      reads this, set s | s in dispatched :: s.base
    {
      && readBuff.InBounds()
      && |payloads| == |dispatched|
      && forall i :: 0 <= i < |dispatched| ==> Safe(dispatched[i], payloads[i], readBuff)
    }

    static ghost predicate Safe(s: Slice, payload: seq<Byte>, buff: Slice)
      reads s.base
    {
      s.InBounds() && s.View() == payload && (s.base == buff.base ==> s.hi <= buff.lo)
    }

    ghost function State(): Reader
      requires readBuff.InBounds()
      reads this, readBuff.base
    {
      Reader(payloads, readBuff.View(), panicked)
    }

    constructor ()
      ensures Valid() && fresh(readBuff.base)
      ensures State() == FRESH
    {
      var empty := new Byte[0];
      readBuff := Slice(empty, 0, 0);
      dispatched := [];
      payloads := [];
      panicked := false;
    }

    /** `readBuff = append(readBuff, chunk...)`: in place when the capacity allows it, else into a new array
        whose extra room `spare` is the allocator's choice. */
    method Append(chunk: seq<Byte>, spare: nat)
      requires Valid()
      modifies this`readBuff, readBuff.base
      ensures Valid() && (readBuff.base == old(readBuff.base) || fresh(readBuff.base))
      ensures readBuff.View() == old(readBuff.View()) + chunk
    {
      if readBuff.hi + |chunk| <= readBuff.base.Length {
        AppendInPlace(chunk);
      } else {
        AppendByMoving(chunk, spare);
      }
    }

    method AppendInPlace(chunk: seq<Byte>)
      requires Valid() && readBuff.hi + |chunk| <= readBuff.base.Length
      modifies this`readBuff, readBuff.base
      ensures Valid() && readBuff.base == old(readBuff.base)
      ensures readBuff.View() == old(readBuff.View()) + chunk
    {
      var base, lo, hi := readBuff.base, readBuff.lo, readBuff.hi;
      forall i | 0 <= i < |chunk| {
        base[hi + i] := chunk[i];
      }
      readBuff := Slice(base, lo, hi + |chunk|);
      forall i | 0 <= i < |dispatched|
        ensures Safe(dispatched[i], payloads[i], readBuff)
      {
        assert old(Safe(dispatched[i], payloads[i], readBuff));
        assert dispatched[i].View() == old(dispatched[i].View());
      }
    }

    method AppendByMoving(chunk: seq<Byte>, spare: nat)
      requires Valid()
      modifies this`readBuff
      ensures Valid() && fresh(readBuff.base)
      ensures readBuff.View() == old(readBuff.View()) + chunk
    {
      var view := readBuff.base[readBuff.lo..readBuff.hi] + chunk;
      var bigger := new Byte[|view| + spare];
      forall i | 0 <= i < |view| {
        bigger[i] := view[i];
      }
      readBuff := Slice(bigger, 0, |view|);
      assert bigger[0..|view|] == view;
      forall i | 0 <= i < |dispatched|
        ensures Safe(dispatched[i], payloads[i], readBuff)
      {
        assert old(Safe(dispatched[i], payloads[i], readBuff));
      }
    }

    /** One call of `TlvDecode` with what the loops do on success: reslice and dispatch the payload. */
    method CutFrame() returns (d: Decoded)
      requires Valid()
      modifies this
      ensures Valid() && readBuff.base == old(readBuff.base)
      ensures readBuff.hi == old(readBuff.hi)
      ensures d == Decode(old(readBuff.View()))
      ensures panicked == (old(panicked) || d == Panic)
      ensures !d.Frame? ==> readBuff == old(readBuff) && dispatched == old(dispatched) && payloads == old(payloads)
      ensures d.Frame? ==>
                && readBuff.lo == old(readBuff.lo) + d.consumed
                && readBuff.View() == old(readBuff.View())[d.consumed..]
                && payloads == old(payloads) + [d.payload]
                && |dispatched| == |old(dispatched)| + 1 && dispatched[..|old(dispatched)|] == old(dispatched)
                && dispatched[|old(dispatched)|].base == readBuff.base
    {
      hide Decode;
      var base, lo, hi := readBuff.base, readBuff.lo, readBuff.hi;
      var view := base[lo..hi];
      d := Decode(view);
      match d {
        case NoFrame =>
        case Panic =>
          panicked := true;
        case Frame(consumed, payload) =>
          var msg := Slice(base, lo + HEADER_LENGTH, lo + consumed);
          readBuff := Slice(base, lo + consumed, hi);
          dispatched := dispatched + [msg];
          payloads := payloads + [payload];
          assert base[lo + consumed..hi] == view[consumed..];
          assert base[lo + HEADER_LENGTH..lo + consumed] == view[HEADER_LENGTH..consumed];
          forall i | 0 <= i < |dispatched| - 1
            ensures Safe(dispatched[i], payloads[i], readBuff)
          {
            assert old(Safe(dispatched[i], payloads[i], readBuff));
          }
          assert Safe(msg, payload, readBuff);
      }
    }

    /** One turn of the agent's outer loop: append what was read, then cut until no frame is left. */
    method AgentOnRead(chunk: seq<Byte>, spare: nat)
      requires Valid() && !panicked
      modifies this, readBuff.base
      ensures Valid() && (readBuff.base == old(readBuff.base) || fresh(readBuff.base))
      ensures State() == AgentRead(old(State()), chunk)
      ensures old(dispatched) <= dispatched
      ensures forall i :: 0 <= i < |old(dispatched)| ==> dispatched[i].View() == old(dispatched[i].View())
    {
      hide Decode;
      Append(chunk, spare);
      ghost var start, buffer := payloads, readBuff.View();
      while true
        invariant Valid() && !panicked
        invariant readBuff.base == old(readBuff.base) || fresh(readBuff.base)
        invariant old(dispatched) <= dispatched
        invariant Then(payloads, Drain(readBuff.View())) == Then(start, Drain(buffer))
        decreases readBuff.hi - readBuff.lo
      {
        ghost var before := payloads;
        var d := CutFrame();
        if !d.Frame? {
          break;
        }
        ThenTwice(before, [d.payload], Drain(readBuff.View()));
      }
    }

    /** One turn of the server's loop: append what was read, then cut at most one frame. */
    method ServerOnRead(chunk: seq<Byte>, spare: nat)
      requires Valid() && !panicked
      modifies this, readBuff.base
      ensures Valid() && (readBuff.base == old(readBuff.base) || fresh(readBuff.base))
      ensures State() == ServerRead(old(State()), chunk)
      ensures old(dispatched) <= dispatched
      ensures forall i :: 0 <= i < |old(dispatched)| ==> dispatched[i].View() == old(dispatched[i].View())
    {
      hide Decode;
      Append(chunk, spare);
      var d := CutFrame();
    }
  }

  /** The agent's reader goroutine over the reads of one connection, up to a panic. */
  method AgentListen(chunks: seq<seq<Byte>>, spare: nat) returns (reader: FrameReader)
    ensures reader.Valid() && reader.State() == AgentRun(chunks)
  {
    reader := new FrameReader();
    var i := 0;
    while i < |chunks| && !reader.panicked
      invariant 0 <= i <= |chunks|
      invariant fresh(reader) && fresh(reader.readBuff.base)
      invariant reader.Valid() && reader.State() == AgentRun(chunks[..i])
    {
      reader.AgentOnRead(chunks[i], spare);
      assert chunks[..i + 1][..i] == chunks[..i];
      i := i + 1;
    }
    AgentStaysPanicked(chunks, i);
    assert chunks[..|chunks|] == chunks;
  }

  lemma {:induction false} AgentStaysPanicked(chunks: seq<seq<Byte>>, i: nat)
    requires i <= |chunks| && (AgentRun(chunks[..i]).panicked || i == |chunks|)
    ensures AgentRun(chunks) == AgentRun(chunks[..i])
  {
    if i == |chunks| {
      assert chunks[..i] == chunks;
    } else {
      assert chunks[..|chunks| - 1][..i] == chunks[..i];
      AgentStaysPanicked(chunks[..|chunks| - 1], i);
    }
  }

  /** The server's `startListen` over the reads of one connection, up to a panic. */
  method ServerListen(chunks: seq<seq<Byte>>, spare: nat) returns (reader: FrameReader)
    ensures reader.Valid() && reader.State() == ServerRun(chunks)
  {
    reader := new FrameReader();
    var i := 0;
    while i < |chunks| && !reader.panicked
      invariant 0 <= i <= |chunks|
      invariant fresh(reader) && fresh(reader.readBuff.base)
      invariant reader.Valid() && reader.State() == ServerRun(chunks[..i])
    {
      reader.ServerOnRead(chunks[i], spare);
      assert chunks[..i + 1][..i] == chunks[..i];
      i := i + 1;
    }
    ServerStaysPanicked(chunks, i);
    assert chunks[..|chunks|] == chunks;
  }

  lemma {:induction false} ServerStaysPanicked(chunks: seq<seq<Byte>>, i: nat)
    requires i <= |chunks| && (ServerRun(chunks[..i]).panicked || i == |chunks|)
    ensures ServerRun(chunks) == ServerRun(chunks[..i])
  {
    if i == |chunks| {
      assert chunks[..i] == chunks;
    } else {
      assert chunks[..|chunks| - 1][..i] == chunks[..i];
      ServerStaysPanicked(chunks[..|chunks| - 1], i);
    }
  }
}
