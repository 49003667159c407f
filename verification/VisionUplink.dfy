// The uplink of a Vision connection: forwardHandshakeRemaining and the Vision branch of
// relayClientToTarget, writing to the target what the reader unpads.
module VisionUplink {
  import opened Bytes
  import opened Streams
  import opened VisionContext
  import R = VisionReader
  import W = VisionWriter

  /** `vision` is the connection's useVision_: without it what was left over is sent as it is. */
  method ForwardHandshakeRemaining(vision: bool, reader: R.Reader, leftover: seq<byte>, target: Sink)
    returns (ok: bool)
    requires reader.Valid() && (reader.directCopy ==> reader.View().Plain?)
    modifies reader, reader.ctx, target
    ensures reader.Valid() && (reader.directCopy ==> reader.View().Plain?)
    ensures reader.View() ==
            if vision then R.Read(reader.uuid, old(reader.View()), leftover).phase else old(reader.View())
    ensures var piece := if vision then R.Read(reader.uuid, old(reader.View()), leftover).output else leftover;
            var p := PushAll([piece], old(target.outcomes));
            target.sent == old(target.sent) + p.sent && target.outcomes == p.rest && ok == p.done
  {
    hide R.Read, WriteAll, PushAll;
    ghost var piece := if vision then R.Read(reader.uuid, reader.View(), leftover).output else leftover;
    PushAllStep([piece], target.outcomes);
    assert [piece] + [] == [piece];
    if |leftover| == 0 {
      ReadNothing(reader.uuid, reader.View());
      PushAllStep([piece][1..], target.outcomes);
      return true;
    }
    ghost var pushed;
    if vision {
      var unpadded := reader.Process(leftover);
      ok, pushed := PushPiece(target, unpadded, []);
    } else {
      ok, pushed := PushPiece(target, leftover, []);
    }
    PushAllStep([], target.outcomes);
  }

  lemma ReadNothing(uuid: seq<byte>, p: R.Phase)
    ensures R.Read(uuid, p, []) == R.Fed(p, [])
  {
  }

  /** The relay: process each chunk until the reader switches to direct copy, then copyStream. */
  method RelayClientToTarget(reader: R.Reader, client: Source, target: Sink) returns (normalEnd: bool)
    requires reader.Valid() && client.Valid() && (reader.directCopy ==> reader.View().Plain?)
    modifies reader, reader.ctx, client, target
    ensures var p := PushAll(R.ReadAll(reader.uuid, old(reader.View()), old(client.chunks)), old(target.outcomes));
            && target.sent == old(target.sent) + p.sent
            && target.outcomes == p.rest
            && (normalEnd <==> p.done && client.ending == 0)
  {
    hide R.Read, WriteAll, PushAll, R.ReadAll, R.Padded;
    hide R.Reader.View, R.Reader.Valid, Source.Valid, Noticed, Pushed.Then, NoGap, NoFailure, IsPrefix, Flatten;
    ghost var all := PushAll(R.ReadAll(reader.uuid, reader.View(), client.chunks), target.outcomes);
    ghost var soFar := NOTHING;
    ThenLaws(all, all, all);
    while true
      invariant reader.Valid() && client.Valid()
      invariant reader.directCopy ==> reader.View().Plain?
      invariant target.sent == old(target.sent) + soFar.sent
      invariant all == soFar.Then(PushAll(R.ReadAll(reader.uuid, reader.View(), client.chunks), target.outcomes))
      decreases |client.chunks|
    {
      R.ReadAllStep(reader.uuid, reader.View(), client.chunks);
      PushAllStep([], target.outcomes);
      ThenLaws(soFar, PushAll([], target.outcomes), soFar);
      var rr := client.Read();
      if rr.Eof() {
        return true;
      }
      if rr.Error() {
        return false;
      }
      var data := rr.data;
      if !reader.directCopy {
        data := reader.Process(data);
      } else {
        R.ReadPlain(reader.uuid, rr.data);
      }
      ghost var more := R.ReadAll(reader.uuid, reader.View(), client.chunks);
      assert all == soFar.Then(PushAll([data] + more, target.outcomes));
      var written, pushed := PushPiece(target, data, more);
      ghost var next := PushAll(more, target.outcomes);
      if !written {
        ThenLaws(soFar, Pushed([], target.outcomes, false, 1), next);
        assert soFar.sent + [] == soFar.sent;
        return false;
      }
      ThenLaws(soFar, pushed, next);
      soFar := soFar.Then(pushed);
      if reader.directCopy {
        ThenLaws(soFar, next, next);
        R.ReadAllPlain(reader.uuid, client.chunks);
        normalEnd := CopyStream(target, client);
        return;
      }
    }
  }

  /** Write one unpadded piece, if it is not empty, ahead of the pieces still to come. */
  method PushPiece(target: Sink, data: seq<byte>, ghost more: seq<seq<byte>>)
    returns (written: bool, ghost pushed: Pushed)
    modifies target
    ensures target.sent == old(target.sent) + pushed.sent
    ensures written ==>
              PushAll([data] + more, old(target.outcomes)) == pushed.Then(PushAll(more, target.outcomes))
    ensures !written ==>
              PushAll([data] + more, old(target.outcomes)) == Pushed([], target.outcomes, false, 1) && pushed.sent == []
  {
    hide WriteAll, PushAll;
    ghost var schedule := target.outcomes;
    PushAllStep([data] + more, schedule);
    assert ([data] + more)[1..] == more;
    pushed := Pushed([], [], true, 1);
    written := true;
    if |data| != 0 {
      var r := target.WriteFull(data);
      if r <= 0 {
        written := false;
        NothingTaken(data, schedule);
      } else {
        pushed := Pushed(data[..WriteAll(data, schedule).taken], [], true, 1);
      }
    }
  }

  /** The whole uplink: what is left over from the handshake, then every client chunk. */
  method Uplink(reader: R.Reader, leftover: seq<byte>, client: Source, target: Sink) returns (normalEnd: bool)
    requires reader.Valid() && client.Valid() && reader.View() == R.Start
    modifies reader, reader.ctx, client, target
    ensures var pieces := [leftover] + old(client.chunks);
            var expected := R.Unpad(reader.uuid, Flatten(pieces));
            var outputs := R.ReadAll(reader.uuid, R.Start, pieces);
            |R.First(pieces)| >= W.FULL_HEADER || !R.Padded(reader.uuid, Flatten(pieces)) ==>
              exists out ::
                && target.sent == old(target.sent) + out
                && (NoGap(outputs, old(target.outcomes)) ==> IsPrefix(out, expected))
                && (out == expected <==> NoFailure(outputs, old(target.outcomes)))
  {
    hide R.ReadAll, PushAll, WriteAll, R.Unpad, R.First, R.Padded, Flatten, IsPrefix, NoGap, NoFailure, R.Read;
    ghost var pieces := [leftover] + client.chunks;
    ghost var schedule := target.outcomes;
    ghost var first := R.Read(reader.uuid, R.Start, leftover);
    ghost var more := R.ReadAll(reader.uuid, first.phase, client.chunks);
    UplinkMeaning(reader.uuid, pieces, schedule);
    R.ReadAllStep(reader.uuid, R.Start, pieces);
    PushAllConcat([first.output], more, schedule);
    var ok := ForwardHandshakeRemaining(true, reader, leftover, target);
    ghost var p := PushAll([first.output] + more, schedule);
    assert pieces[1..] == client.chunks;
    if !ok {
      assert target.sent == old(target.sent) + p.sent;
      return false;
    }
    normalEnd := RelayClientToTarget(reader, client, target);
    assert target.sent == old(target.sent) + p.sent;
  }

  /** Pushing two lists one after the other. */
  lemma {:induction false} PushAllConcat(a: seq<seq<byte>>, b: seq<seq<byte>>, outcomes: seq<int>)
    ensures var p := PushAll(a, outcomes);
            var both := PushAll(a + b, outcomes);
            if p.done then both == p.Then(PushAll(b, p.rest))
            else both.sent == p.sent && both.rest == p.rest && !both.done
    decreases |a|
  {
    hide WriteAll, PushAll;
    PushAllStep(a, outcomes);
    PushAllStep(a + b, outcomes);
    if a == [] {
      assert a + b == b;
    } else {
      assert (a + b)[1..] == a[1..] + b;
      PushAllConcat(a[1..], b, outcomes);
      PushAllConcat(a[1..], b, WriteAll(a[0], outcomes).rest);
    }
  }

  /** What the uplink pushes is a prefix of the whole stream unpadded at once as long as no gap
      opens behind a piece cut short, and all of it exactly when no send failed: segmentation
      and the mid-stream switch to direct copy do not show. */
  lemma UplinkMeaning(uuid: seq<byte>, pieces: seq<seq<byte>>, outcomes: seq<int>)
    requires |uuid| == 16
    ensures |R.First(pieces)| >= W.FULL_HEADER || !R.Padded(uuid, Flatten(pieces)) ==>
              var outputs := R.ReadAll(uuid, R.Start, pieces);
              var p := PushAll(outputs, outcomes);
              && (NoGap(outputs, outcomes) ==> IsPrefix(p.sent, R.Unpad(uuid, Flatten(pieces))))
              && (p.sent == R.Unpad(uuid, Flatten(pieces)) <==> NoFailure(outputs, outcomes))
              && (NoFailure(outputs, outcomes) ==> p.done)
  {
    hide R.ReadAll, PushAll, WriteAll, R.Unpad, R.First, R.Padded, Flatten, IsPrefix, NoGap, NoFailure;
    var outputs := R.ReadAll(uuid, R.Start, pieces);
    R.CuttingDoesNotMatter(uuid, pieces);
    AllSentExactly(outputs, outcomes);
    if NoGap(outputs, outcomes) {
      PushedIsPrefixOfAll(outputs, outcomes);
    }
  }

  /** Two segmentations of one uplink send the same bytes when no send fails. */
  lemma SegmentationInvisible(uuid: seq<byte>, a: seq<seq<byte>>, b: seq<seq<byte>>,
                              outcomesA: seq<int>, outcomesB: seq<int>)
    requires |uuid| == 16 && Flatten(a) == Flatten(b)
    requires |R.First(a)| >= W.FULL_HEADER && |R.First(b)| >= W.FULL_HEADER
    requires NoFailure(R.ReadAll(uuid, R.Start, a), outcomesA)
    requires NoFailure(R.ReadAll(uuid, R.Start, b), outcomesB)
    ensures PushAll(R.ReadAll(uuid, R.Start, a), outcomesA).sent == PushAll(R.ReadAll(uuid, R.Start, b), outcomesB).sent
  {
    hide R.ReadAll, PushAll, NoFailure, R.Unpad, Flatten;
    UplinkMeaning(uuid, a, outcomesA);
    UplinkMeaning(uuid, b, outcomesB);
  }
}
