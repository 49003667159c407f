// The downlink of a Vision connection: the Vision branch of targetTask, writing to the client
// what the writer frames, while the uplink may change the shared TLS state between reads.
module VisionDownlink {
  import opened Bytes
  import opened Streams
  import opened VisionContext
  import opened VisionSession
  import U = VisionUplink

  /** The calls of the writer for a list of reads: the context each call finds, and its draw. */
  function Calls(chunks: seq<seq<byte>>, found: seq<Tls>, draws: seq<W.Draw>): seq<Packet>
    requires |found| == |draws| == |chunks|
    decreases |chunks|
  {
    if chunks == [] then []
    else [Packet(chunks[0], found[0], draws[0])] + Calls(chunks[1..], found[1..], draws[1..])
  }

  /** Reads are far below the 16-bit length of a frame, and draws are in the range asked for. */
  ghost predicate Fit(chunks: seq<seq<byte>>, draws: seq<W.Draw>) {
    && (forall i :: 0 <= i < |chunks| ==> |chunks[i]| < 0x1_0000)
    && (forall i :: 0 <= i < |draws| ==> draws[i].InRange())
  }

  lemma {:induction false} CallsAreSendable(chunks: seq<seq<byte>>, found: seq<Tls>, draws: seq<W.Draw>)
    requires |found| == |draws| == |chunks| && Fit(chunks, draws)
    ensures Sendable(Calls(chunks, found, draws))
    ensures Inputs(Calls(chunks, found, draws)) == chunks
    decreases |chunks|
  {
    if chunks != [] {
      CallsAreSendable(chunks[1..], found[1..], draws[1..]);
      var calls := Calls(chunks, found, draws);
      assert calls[1..] == Calls(chunks[1..], found[1..], draws[1..]);
      assert forall i :: 0 < i < |calls| ==> calls[i] == calls[1..][i - 1];
      assert chunks == [chunks[0]] + chunks[1..];
    }
  }

  /** What the relay puts on the client's stream for a list of reads. */
  ghost function Frames(uuid: seq<byte>, w: W.State, chunks: seq<seq<byte>>, found: seq<Tls>, draws: seq<W.Draw>)
    : seq<seq<byte>>
    requires |found| == |draws| == |chunks| && Fit(chunks, draws)
  {
    CallsAreSendable(chunks, found, draws);
    Emit(uuid, w, Calls(chunks, found, draws))
  }

  lemma FramesStep(uuid: seq<byte>, w: W.State, chunks: seq<seq<byte>>, found: seq<Tls>, draws: seq<W.Draw>)
    requires |found| == |draws| == |chunks| && Fit(chunks, draws)
    ensures chunks == [] ==> Frames(uuid, w, chunks, found, draws) == []
    ensures chunks != [] ==>
              var step := W.Write(uuid, w, found[0], chunks[0], draws[0]);
              Frames(uuid, w, chunks, found, draws) ==
              [step.output] + Frames(uuid, step.state, chunks[1..], found[1..], draws[1..])
  {
    if chunks != [] {
      var calls := Calls(chunks, found, draws);
      assert calls[1..] == Calls(chunks[1..], found[1..], draws[1..]);
      hide W.Write;
    }
  }

  /** In direct copy the frames are the reads. */
  lemma {:induction false} FramesDirect(uuid: seq<byte>, w: W.State, chunks: seq<seq<byte>>, found: seq<Tls>,
                                        draws: seq<W.Draw>)
    requires |found| == |draws| == |chunks| && Fit(chunks, draws) && w.directCopy
    ensures Frames(uuid, w, chunks, found, draws) == chunks
    decreases |chunks|
  {
    hide Frames;
    FramesStep(uuid, w, chunks, found, draws);
    if chunks != [] {
      FramesDirect(uuid, w, chunks[1..], found[1..], draws[1..]);
      assert chunks == [chunks[0]] + chunks[1..];
    }
  }

  /** What the other direction left in the shared context. */
  method Interfere(ctx: Context, t: Tls)
    modifies ctx
    ensures ctx.View() == t
  {
    ctx.packetsToFilter, ctx.isTLS, ctx.isTLS12orAbove := t.packetsToFilter, t.isTLS, t.isTLS12orAbove;
    ctx.enableXtls, ctx.cipher, ctx.remainingServerHello := t.enableXtls, t.cipher, t.remainingServerHello;
  }

  /** The relay: frame each read until the writer switches to direct copy, then copyStream. */
  method RelayTargetToClient(writer: W.Writer, target: Source, client: Sink, found: seq<Tls>, draws: seq<W.Draw>)
    returns (normalEnd: bool)
    requires |writer.uuid| == 16 && target.Valid()
    requires |found| == |draws| == |target.chunks| && Fit(target.chunks, draws)
    modifies writer, writer.ctx, target, client
    ensures var frames := Frames(writer.uuid, old(writer.View()), old(target.chunks), found, draws);
            var p := PushAll(frames, old(client.outcomes));
            && client.sent == old(client.sent) + p.sent
            && client.outcomes == p.rest
            && (normalEnd <==> p.done && target.ending == 0)
  {
    hide W.Write, WriteAll, PushAll, Pushed.Then, Frames, NoGap, NoFailure, IsPrefix, Flatten;
    ghost var all := PushAll(Frames(writer.uuid, writer.View(), target.chunks, found, draws), client.outcomes);
    ghost var soFar := NOTHING;
    var i := 0;
    ThenLaws(all, all, all);
    assert found[0..] == found && draws[0..] == draws;
    while true
      invariant target.Valid() && i + |target.chunks| == |found| && Fit(target.chunks, draws[i..])
      invariant client.sent == old(client.sent) + soFar.sent
      invariant all == soFar.Then(PushAll(Frames(writer.uuid, writer.View(), target.chunks, found[i..], draws[i..]),
                                          client.outcomes))
      decreases |target.chunks|
    {
      FramesStep(writer.uuid, writer.View(), target.chunks, found[i..], draws[i..]);
      PushAllStep([], client.outcomes);
      ThenLaws(soFar, PushAll([], client.outcomes), soFar);
      var rr := target.Read();
      if rr.Eof() {
        return true;
      }
      if rr.Error() {
        return false;
      }
      var data := rr.data;
      if !writer.directCopy {
        Interfere(writer.ctx, found[i]);
        data := writer.Process(data, draws[i]);
      } else {
        WriteDirect(writer.uuid, writer.View(), found[i], data, draws[i]);
      }
      assert found[i..][1..] == found[i + 1..] && draws[i..][1..] == draws[i + 1..];
      i := i + 1;
      ghost var more := Frames(writer.uuid, writer.View(), target.chunks, found[i..], draws[i..]);
      assert all == soFar.Then(PushAll([data] + more, client.outcomes));
      var written, pushed := U.PushPiece(client, data, more);
      ghost var next := PushAll(more, client.outcomes);
      if !written {
        ThenLaws(soFar, Pushed([], client.outcomes, false, 1), next);
        assert soFar.sent + [] == soFar.sent;
        return false;
      }
      ThenLaws(soFar, pushed, next);
      soFar := soFar.Then(pushed);
      if writer.directCopy {
        ThenLaws(soFar, next, next);
        FramesDirect(writer.uuid, writer.View(), target.chunks, found[i..], draws[i..]);
        normalEnd := CopyStream(client, target);
        return;
      }
    }
  }

  lemma WriteDirect(uuid: seq<byte>, w: W.State, t: Tls, data: seq<byte>, d: W.Draw)
    requires w.directCopy && d.InRange()
    ensures W.Write(uuid, w, t, data, d) == W.Step(w, t, data)
  {
  }

  /** The client's side of it: what was sent is a prefix of the framed stream as long as no gap
      opens behind a frame cut short; and when no send failed, any cutting of it that shows
      the first header unpads to exactly what the target sent, whatever the padding and
      whatever the uplink did to the TLS state. */
  lemma DownlinkMeaning(uuid: seq<byte>, chunks: seq<seq<byte>>, found: seq<Tls>, draws: seq<W.Draw>,
                        outcomes: seq<int>, pieces: seq<seq<byte>>)
    requires |uuid| == 16 && |found| == |draws| == |chunks| && Fit(chunks, draws)
    ensures var frames := Frames(uuid, W.INITIAL, chunks, found, draws);
            var p := PushAll(frames, outcomes);
            && (NoGap(frames, outcomes) ==> IsPrefix(p.sent, Flatten(frames)))
            && (p.sent == Flatten(frames) <==> NoFailure(frames, outcomes))
            && (NoFailure(frames, outcomes) && Flatten(pieces) == p.sent && |R.First(pieces)| >= W.FULL_HEADER ==>
                  Flatten(R.ReadAll(uuid, R.Start, pieces)) == Flatten(chunks))
  {
    CallsAreSendable(chunks, found, draws);
    var calls := Calls(chunks, found, draws);
    var frames := Frames(uuid, W.INITIAL, chunks, found, draws);
    assert frames == Emit(uuid, W.INITIAL, calls);
    hide Frames, Calls, Emit, PushAll, Fit, Flatten, R.ReadAll, R.First, IsPrefix, NoGap, NoFailure, WriteAll;
    AllSentExactly(frames, outcomes);
    if NoGap(frames, outcomes) {
      PushedIsPrefixOfAll(frames, outcomes);
    }
    if NoFailure(frames, outcomes) && Flatten(pieces) == PushAll(frames, outcomes).sent &&
       |R.First(pieces)| >= W.FULL_HEADER {
      RoundTrip(uuid, calls, pieces);
    }
  }
}
