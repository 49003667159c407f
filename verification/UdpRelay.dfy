// The UDP relay of a connection: length-prefixed packets on the client's stream,
// datagrams at the target.
module UdpRelay {
  import opened Bytes
  import opened Streams

  /** A connected datagram socket: each write is one whole datagram or a failure. */
  class DatagramSink {
    var datagrams: seq<seq<byte>>
    var accepts: seq<bool>

    constructor (accepts: seq<bool>)
      ensures datagrams == [] && this.accepts == accepts
    {
      this.datagrams, this.accepts := [], accepts;
    }

    method WriteFull(d: seq<byte>) returns (written: int)
      requires d != []
      modifies this
      ensures written > 0 <==> old(accepts) != [] && old(accepts)[0]
      ensures datagrams == if written > 0 then old(datagrams) + [d] else old(datagrams)
      ensures accepts == if old(accepts) == [] then [] else old(accepts)[1..]
    {
      if |accepts| > 0 && accepts[0] {
        datagrams := datagrams + [d];
        written := |d|;
      } else {
        written := -1;
      }
      accepts := if |accepts| == 0 then [] else accepts[1..];
    }
  }

  // ---- Frames ----

  function FrameOf(d: seq<byte>): seq<byte> {
    [Hi(|d|), Lo(|d|)] + d
  }

  predicate Whole(s: seq<byte>) {
    |s| >= 2 && 2 + Be16(s[0], s[1]) <= |s|
  }

  function FrameLen(s: seq<byte>): (n: nat)
    requires |s| >= 2
    ensures n >= 2
  {
    2 + Be16(s[0], s[1])
  }

  datatype Deframed = Deframed(datagrams: seq<seq<byte>>, rest: seq<byte>)

  /** The datagrams of the whole frames at the front of a stream, and what follows them.
      Frames of length 0 carry no datagram. */
  function Deframe(s: seq<byte>): Deframed
    decreases |s|
  {
    if !Whole(s) then Deframed([], s)
    else
      var n := FrameLen(s);
      var more := Deframe(s[n..]);
      Deframed((if n > 2 then [s[2..n]] else []) + more.datagrams, more.rest)
  }

  lemma DeframeStep(s: seq<byte>)
    ensures !Whole(s) ==> Deframe(s) == Deframed([], s)
    ensures Whole(s) ==>
              var n := FrameLen(s);
              Deframe(s) == Deframed((if n > 2 then [s[2..n]] else []) + Deframe(s[n..]).datagrams,
                                     Deframe(s[n..]).rest)
  {
  }

  /** Deframing can stop anywhere and go on with the rest in front of what comes next. */
  lemma {:induction false} DeframeConcat(a: seq<byte>, b: seq<byte>)
    ensures Deframe(a + b) ==
            Deframed(Deframe(a).datagrams + Deframe(Deframe(a).rest + b).datagrams, Deframe(Deframe(a).rest + b).rest)
    decreases |a|
  {
    hide Deframe;
    DeframeStep(a);
    if Whole(a) {
      var n := FrameLen(a);
      DeframeStep(a + b);
      DeframeConcat(a[n..], b);
      assert (a + b)[n..] == a[n..] + b;
      assert (a + b)[2..n] == a[2..n];
    }
  }

  /** What is left over is a strict prefix of one frame, at most 65536 bytes. */
  lemma {:induction false} RestIsPartial(s: seq<byte>)
    ensures !Whole(Deframe(s).rest)
    decreases |s|
  {
    if Whole(s) {
      RestIsPartial(s[FrameLen(s)..]);
    }
  }

  lemma PartialFrame(s: seq<byte>) returns (missing: seq<byte>, d: seq<byte>)
    requires !Whole(s)
    ensures |s| <= 0x1_0000 && missing != [] && |d| < 0x1_0000
    ensures s + missing == FrameOf(d)
  {
    if |s| == 0 {
      missing, d := [0, 0], [];
    } else if |s| == 1 {
      assert s == [s[0]];
      d := seq(Be16(s[0], 0), i => 0);
      missing := [0] + d;
    } else {
      missing, d := LongPart(s);
    }
  }

  lemma LongPart(s: seq<byte>) returns (missing: seq<byte>, d: seq<byte>)
    requires !Whole(s) && |s| >= 2
    ensures |s| <= 0x1_0000 && missing != [] && |d| < 0x1_0000
    ensures s + missing == FrameOf(d)
  {
    var n := Be16(s[0], s[1]);
    HiLoOfBe16(s[0], s[1]);
    hide Be16, Hi, Lo;
    missing := seq(2 + n - |s|, i => 0);
    d := s[2..] + missing;
    assert |d| == n;
    TwoInFront(s, missing);
  }

  lemma TwoInFront(s: seq<byte>, more: seq<byte>)
    requires |s| >= 2
    ensures s + more == [s[0], s[1]] + (s[2..] + more)
  {
  }

  // ---- Client to target ----

  /** The datagrams that go out: those before the first one that is refused. */
  function Sent(all: seq<seq<byte>>, accepts: seq<bool>): seq<seq<byte>> {
    if all == [] || accepts == [] || !accepts[0] then [] else [all[0]] + Sent(all[1..], accepts[1..])
  }

  /** The next n writes all succeed. */
  predicate NoRefusal(accepts: seq<bool>, n: nat) {
    n <= |accepts| && forall i :: 0 <= i < n ==> accepts[i]
  }

  lemma {:induction false} SentIs(all: seq<seq<byte>>, accepts: seq<bool>, k: nat)
    requires k <= |all| && NoRefusal(accepts, k)
    requires k == |all| || k == |accepts| || !accepts[k]
    ensures Sent(all, accepts) == all[..k]
    decreases k
  {
    if k > 0 {
      SentIs(all[1..], accepts[1..], k - 1);
      assert all[..k] == [all[0]] + all[1..][..k - 1];
    }
  }

  /** What the relay sends for a handshake leftover and the client's chunks. */
  function Relayed(leftover: seq<byte>, chunks: seq<seq<byte>>, accepts: seq<bool>): seq<seq<byte>> {
    Sent(Deframe(leftover + Flatten(chunks)).datagrams, accepts)
  }

  method RelayClientToTarget(leftover: seq<byte>, client: Source, target: DatagramSink) returns (normalEnd: bool)
    requires client.Valid()
    modifies client, target
    ensures target.datagrams == old(target.datagrams) + Relayed(leftover, old(client.chunks), old(target.accepts))
    ensures normalEnd <==>
              client.ending == 0 &&
              NoRefusal(old(target.accepts), |Deframe(leftover + Flatten(old(client.chunks))).datagrams|)
  {
    hide Deframe, Flatten;
    var pending := leftover;
    ghost var all := Deframe(leftover + Flatten(client.chunks)).datagrams;
    ghost var done: nat := 0;
    assert all[..0] == [];
    while true
      invariant client.Valid()
      invariant done <= |all| && target.datagrams == old(target.datagrams) + all[..done]
      invariant all[done..] == Deframe(pending + Flatten(client.chunks)).datagrams
      invariant NoRefusal(old(target.accepts), done) && target.accepts == old(target.accepts)[done..]
      decreases |client.chunks|, |pending|
    {
      var offset := 0;
      var failed;
      failed, offset, done := SendWhole(pending, Flatten(client.chunks), target, all, done,
                                        old(target.datagrams), old(target.accepts));
      if failed {
        SentIs(all, old(target.accepts), done);
        return false;
      }
      if offset > 0 {
        pending := pending[offset..];
        continue;
      }
      assert pending[0..] == pending;
      ghost var missing, frame := PartialFrame(pending);
      assert |pending| <= 0x1_0000;
      ghost var was := client.chunks;
      var rr := client.Read();
      if rr.Eof() || rr.Error() {
        NothingMore(pending, was);
        SentIs(all, old(target.accepts), done);
        return rr.Eof();
      }
      assert pending + Flatten(was) == (pending + rr.data) + Flatten(client.chunks) by {
        FlattenStep(was);
        assert pending + (rr.data + Flatten(was[1..])) == (pending + rr.data) + Flatten(was[1..]);
      }
      pending := pending + rr.data;
    }
  }

  /** The inner loop: write out the datagrams of all whole frames in pending. */
  method SendWhole(pending: seq<byte>, ghost later: seq<byte>, target: DatagramSink,
                   ghost all: seq<seq<byte>>, ghost before: nat,
                   ghost sent: seq<seq<byte>>, ghost accepts: seq<bool>)
    returns (failed: bool, offset: nat, ghost done: nat)
    requires before <= |all| && target.datagrams == sent + all[..before]
    requires all[before..] == Deframe(pending + later).datagrams
    requires NoRefusal(accepts, before) && target.accepts == accepts[before..]
    modifies target
    ensures done <= |all| && target.datagrams == sent + all[..done] && NoRefusal(accepts, done)
    ensures failed ==> done < |all| && (done == |accepts| || !accepts[done])
    ensures !failed ==>
              && offset <= |pending| && !Whole(pending[offset..])
              && all[done..] == Deframe(pending[offset..] + later).datagrams
              && target.accepts == accepts[done..]
  {
    hide Deframe;
    offset, done, failed := 0, before, false;
    assert pending[0..] == pending;
    while |pending| - offset >= 2
      invariant offset <= |pending|
      invariant done <= |all| && target.datagrams == sent + all[..done]
      invariant all[done..] == Deframe(pending[offset..] + later).datagrams
      invariant NoRefusal(accepts, done) && target.accepts == accepts[done..]
    {
      ghost var here := pending[offset..];
      var pktLen := Be16(pending[offset], pending[offset + 1]);
      if |pending| - offset < 2 + pktLen {
        break;
      }
      FrameTaken(here, later);
      SlicesOfRest(pending, offset, 2, 2 + pktLen);
      if pktLen > 0 {
        OneMoreDone(all, done);
        var written := target.WriteFull(pending[offset + 2..offset + 2 + pktLen]);
        if written <= 0 {
          failed := true;
          return;
        }
        done := done + 1;
      }
      offset := offset + 2 + pktLen;
    }
  }

  lemma SlicesOfRest(s: seq<byte>, i: nat, a: nat, b: nat)
    requires a <= b && i + b <= |s|
    ensures s[i..][a..b] == s[i + a..i + b] && s[i..][b..] == s[i + b..]
  {
  }

  lemma OneMoreDone(all: seq<seq<byte>>, done: nat)
    requires done <= |all|
    ensures done < |all| ==> all[done..][0] == all[done] && all[done..][1..] == all[done + 1..]
    ensures done < |all| ==> all[..done + 1] == all[..done] + [all[done]]
  {
  }

  lemma FrameTaken(s: seq<byte>, later: seq<byte>)
    requires Whole(s)
    ensures Deframe(s + later).datagrams ==
            (if FrameLen(s) > 2 then [s[2..FrameLen(s)]] else []) + Deframe(s[FrameLen(s)..] + later).datagrams
  {
    var n := FrameLen(s);
    assert (s + later)[n..] == s[n..] + later;
    assert (s + later)[2..n] == s[2..n];
  }

  lemma NothingMore(pending: seq<byte>, chunks: seq<seq<byte>>)
    requires !Whole(pending) && chunks == []
    ensures Deframe(pending + Flatten(chunks)).datagrams == []
  {
    assert pending + [] == pending;
  }

  lemma FlattenStep(chunks: seq<seq<byte>>)
    requires chunks != []
    ensures Flatten(chunks) == chunks[0] + Flatten(chunks[1..])
  {
  }

  // ---- Target to client ----

  /** The frame written for a datagram; one too large for the length field is passed over. */
  function FrameFor(d: seq<byte>): seq<byte> {
    if |d| > 0xFFFF then [] else FrameOf(d)
  }

  function FramesFor(ds: seq<seq<byte>>): seq<seq<byte>>
    decreases |ds|
  {
    if ds == [] then [] else [FrameFor(ds[0])] + FramesFor(ds[1..])
  }

  /** The datagrams before the first empty one: recv returns 0 for that, as at the end of a
      stream, and the relay takes it for the end. */
  function BeforeEmpty(ds: seq<seq<byte>>): seq<seq<byte>> {
    if ds == [] || ds[0] == [] then [] else [ds[0]] + BeforeEmpty(ds[1..])
  }

  /** A connected datagram socket to read from: the datagrams that will arrive, of any length. */
  class DatagramSource {
    var datagrams: seq<seq<byte>>
    const ending: int

    constructor (datagrams: seq<seq<byte>>, ending: int)
      requires ending <= 0
      ensures this.datagrams == datagrams && this.ending == ending
    {
      this.datagrams, this.ending := datagrams, ending;
    }

    method Read() returns (rr: RecvResult)
      requires ending <= 0
      modifies this
      ensures old(datagrams) == [] ==> rr == RecvResult([], ending) && datagrams == []
      ensures old(datagrams) != [] ==>
                rr == RecvResult(old(datagrams)[0], |old(datagrams)[0]|) && datagrams == old(datagrams)[1..]
    {
      if |datagrams| == 0 {
        return RecvResult([], ending);
      }
      rr := RecvResult(datagrams[0], |datagrams[0]|);
      datagrams := datagrams[1..];
    }
  }

  /** Exactly the datagrams before the first empty one are relayed. */
  method RelayTargetToClient(target: DatagramSource, client: Sink)
    requires target.ending <= 0
    modifies target, client
    ensures var frames := FramesFor(BeforeEmpty(old(target.datagrams)));
            var p := PushAll(frames, old(client.outcomes));
            client.sent == old(client.sent) + p.sent && client.outcomes == p.rest
  {
    hide WriteAll, PushAll, FramesFor, Pushed.Then, FrameOf, BeforeEmpty;
    ghost var all := PushAll(FramesFor(BeforeEmpty(target.datagrams)), client.outcomes);
    ghost var soFar := NOTHING;
    ThenLaws(all, all, all);
    while true
      invariant client.sent == old(client.sent) + soFar.sent
      invariant all == soFar.Then(PushAll(FramesFor(BeforeEmpty(target.datagrams)), client.outcomes))
      decreases |target.datagrams|
    {
      BeforeEmptyStep(target.datagrams);
      FramesForStep(BeforeEmpty(target.datagrams));
      ghost var pieces, schedule := FramesFor(BeforeEmpty(target.datagrams)), client.outcomes;
      PushAllStep(pieces, schedule);
      ThenLaws(soFar, PushAll(pieces, schedule), NOTHING);
      var rr := target.Read();
      if rr.Eof() || rr.Error() {
        return;
      }
      ghost var more := PushAll(FramesFor(BeforeEmpty(target.datagrams)), schedule);
      if |rr.data| > 0xFFFF {
        ThenLaws(soFar, Pushed([], [], true, 1), more);
        soFar := soFar.Then(Pushed([], [], true, 1));
        continue;
      }
      var framed := [Hi(|rr.data|), Lo(|rr.data|)];
      framed := framed + rr.data;
      FrameOfIs(rr.data, framed);
      var written := client.WriteFull(framed);
      ghost var w := WriteAll(framed, schedule);
      if written <= 0 {
        NothingTaken(framed, schedule);
        assert client.sent == old(client.sent) + (soFar.sent + []);
        return;
      }
      ghost var step := Pushed(framed[..w.taken], [], true, 1);
      ThenLaws(soFar, step, PushAll(FramesFor(BeforeEmpty(target.datagrams)), w.rest));
      soFar := soFar.Then(step);
    }
  }

  lemma BeforeEmptyStep(ds: seq<seq<byte>>)
    ensures ds == [] || ds[0] == [] ==> BeforeEmpty(ds) == []
    ensures ds != [] && ds[0] != [] ==> BeforeEmpty(ds) == [ds[0]] + BeforeEmpty(ds[1..])
  {
  }

  /** Nothing is cut off exactly when no datagram is empty. */
  lemma {:induction false} NothingCutOffExactly(ds: seq<seq<byte>>)
    ensures BeforeEmpty(ds) == ds <==> forall i :: 0 <= i < |ds| ==> ds[i] != []
    ensures |BeforeEmpty(ds)| <= |ds| && BeforeEmpty(ds) == ds[..|BeforeEmpty(ds)|]
  {
    if ds != [] {
      NothingCutOffExactly(ds[1..]);
      assert ds == [ds[0]] + ds[1..];
    }
  }

  lemma FrameOfIs(d: seq<byte>, framed: seq<byte>)
    requires framed == [Hi(|d|), Lo(|d|)] + d
    ensures framed == FrameOf(d) && framed != []
  {
  }

  lemma FramesForStep(ds: seq<seq<byte>>)
    ensures ds == [] ==> FramesFor(ds) == []
    ensures ds != [] ==> FramesFor(ds) == [FrameFor(ds[0])] + FramesFor(ds[1..])
  {
  }

  // ---- Round trip ----

  ghost predicate Framable(ds: seq<seq<byte>>) {
    forall i :: 0 <= i < |ds| ==> 0 < |ds[i]| <= 0xFFFF
  }

  lemma DeframeOne(d: seq<byte>, more: seq<byte>)
    requires 0 < |d| <= 0xFFFF
    ensures Deframe(FrameOf(d) + more) == Deframed([d] + Deframe(more).datagrams, Deframe(more).rest)
  {
    hide Deframe, Hi, Lo, Be16;
    var s := FrameOf(d) + more;
    Be16OfHiLo(|d|);
    assert s[0] == Hi(|d|) && s[1] == Lo(|d|);
    assert s[2..2 + |d|] == d && s[2 + |d|..] == more;
    DeframeStep(s);
  }

  /** Whatever the target sent comes out of the deframer unchanged, in order, with nothing left over. */
  lemma {:induction false} FramingRoundTrip(ds: seq<seq<byte>>)
    requires Framable(ds)
    ensures Deframe(Flatten(FramesFor(ds))) == Deframed(ds, [])
    decreases |ds|
  {
    hide Deframe, FrameOf;
    FramesForStep(ds);
    if ds == [] {
      DeframeStep([]);
    } else {
      FramingRoundTrip(ds[1..]);
      DeframeOne(ds[0], Flatten(FramesFor(ds[1..])));
      assert FramesFor(ds)[1..] == FramesFor(ds[1..]);
    }
  }

  /** The datagrams that a frame can carry: neither empty nor too long for the length field. */
  function Carried(ds: seq<seq<byte>>): seq<seq<byte>> {
    if ds == [] then []
    else (if 0 < |ds[0]| <= 65535 then [ds[0]] else []) + Carried(ds[1..])
  }

  /** Whatever datagrams are framed, those that a frame can carry come out. */
  lemma {:induction false} AnyFramingRoundTrip(ds: seq<seq<byte>>)
    ensures Deframe(Flatten(FramesFor(ds))) == Deframed(Carried(ds), [])
    decreases |ds|
  {
    hide Deframe, FrameOf;
    FramesForStep(ds);
    if ds == [] {
      DeframeStep([]);
    } else {
      AnyFramingRoundTrip(ds[1..]);
      var more := Flatten(FramesFor(ds[1..]));
      assert FramesFor(ds)[1..] == FramesFor(ds[1..]);
      if 0 < |ds[0]| <= 65535 {
        DeframeOne(ds[0], more);
      } else if ds[0] == [] {
        EmptyFrame(more);
        assert [] + Carried(ds[1..]) == Carried(ds[1..]);
      } else {
        assert [] + more == more;
        assert [] + Carried(ds[1..]) == Carried(ds[1..]);
      }
    }
  }

  /** A frame of length 0 carries no datagram. */
  lemma EmptyFrame(more: seq<byte>)
    ensures FrameOf([]) == [0, 0] && Deframe([0, 0] + more) == Deframe(more)
  {
    hide Deframe;
    var s := [0, 0] + more;
    assert s[2..] == more;
    DeframeStep(s);
    assert [] + Deframe(more).datagrams == Deframe(more).datagrams;
  }

  /** From target to target, for any datagrams and any refusals at the far end: what is sent on is
      what a frame can carry of those before the first empty one, up to the first refusal. */
  lemma AnyTunnel(ds: seq<seq<byte>>, outcomes: seq<int>, leftover: seq<byte>, chunks: seq<seq<byte>>,
                  accepts: seq<bool>)
    requires NoFailure(FramesFor(BeforeEmpty(ds)), outcomes)
    requires leftover + Flatten(chunks) == PushAll(FramesFor(BeforeEmpty(ds)), outcomes).sent
    ensures Relayed(leftover, chunks, accepts) == Sent(Carried(BeforeEmpty(ds)), accepts)
  {
    AllSentExactly(FramesFor(BeforeEmpty(ds)), outcomes);
    AnyFramingRoundTrip(BeforeEmpty(ds));
    hide Deframe, FramesFor, PushAll, NoFailure, Flatten, Sent, Carried;
  }

  /** However the framed stream is cut, and whatever part of it arrived with the handshake,
      what the relay sends when it is fed that leftover and those chunks are the original
      datagrams up to the first refusal: all of them when no write fails. */
  lemma CuttingDoesNotMatter(ds: seq<seq<byte>>, leftover: seq<byte>, chunks: seq<seq<byte>>, accepts: seq<bool>)
    requires Framable(ds) && leftover + Flatten(chunks) == Flatten(FramesFor(ds))
    ensures Relayed(leftover, chunks, accepts) == Sent(ds, accepts)
    ensures Relayed(leftover, chunks, accepts) == ds <==> NoRefusal(accepts, |ds|)
  {
    FramingRoundTrip(ds);
    SentAllExactly(ds, accepts);
  }

  lemma {:induction false} SentAllExactly(ds: seq<seq<byte>>, accepts: seq<bool>)
    ensures Sent(ds, accepts) == ds <==> NoRefusal(accepts, |ds|)
    ensures |Sent(ds, accepts)| <= |ds|
  {
    if ds != [] && accepts != [] && accepts[0] {
      SentAllExactly(ds[1..], accepts[1..]);
      assert ds == [ds[0]] + ds[1..] && accepts == [true] + accepts[1..];
      assert NoRefusal(accepts, |ds|) ==> NoRefusal(accepts[1..], |ds| - 1);
    }
  }

  /** What goes out is a prefix of the datagrams, up to the first write that is refused. */
  lemma {:induction false} SentUpToRefusal(ds: seq<seq<byte>>, accepts: seq<bool>)
    ensures var k := |Sent(ds, accepts)|;
            && k <= |ds| && Sent(ds, accepts) == ds[..k]
            && k <= |accepts| && (forall i :: 0 <= i < k ==> accepts[i])
            && (k < |ds| ==> k == |accepts| || !accepts[k])
  {
    if ds != [] && accepts != [] && accepts[0] {
      SentUpToRefusal(ds[1..], accepts[1..]);
      var k := |Sent(ds, accepts)|;
      assert ds[..k] == [ds[0]] + ds[1..][..k - 1];
      assert accepts == [true] + accepts[1..];
    }
  }

  /** From target to target: what one relay frames, however it is cut on the way, the other
      one sends on, when no datagram is empty or too long and no send fails. */
  lemma TunnelRoundTrip(ds: seq<seq<byte>>, outcomes: seq<int>, leftover: seq<byte>, chunks: seq<seq<byte>>,
                        accepts: seq<bool>)
    requires Framable(ds) && NoFailure(FramesFor(BeforeEmpty(ds)), outcomes) && NoRefusal(accepts, |ds|)
    requires leftover + Flatten(chunks) == PushAll(FramesFor(BeforeEmpty(ds)), outcomes).sent
    ensures Relayed(leftover, chunks, accepts) == ds
  {
    NothingCutOffExactly(ds);
    AllSentExactly(FramesFor(ds), outcomes);
    CuttingDoesNotMatter(ds, leftover, chunks, accepts);
    hide *;
  }
}
