// The Vision writer against the Vision reader: the round trip over any cutting of the
// stream, and what holds when both directions of a connection share one context.
module VisionSession {
  import opened Bytes
  import opened TlsRecord
  import opened VisionContext
  import W = VisionWriter
  import R = VisionReader

  // ---- Round trip ----

  /** One call of the writer: its input, the context the call finds (the other direction
      may have changed it), and the random draw. */
  datatype Packet = Packet(data: seq<byte>, tls: Tls, draw: W.Draw) {
    ghost predicate Fits() {
      draw.InRange() && |data| < 0x1_0000
    }
  }

  ghost predicate Sendable(packets: seq<Packet>) {
    forall i :: 0 <= i < |packets| ==> packets[i].Fits()
  }

  ghost function Emit(uuid: seq<byte>, w: W.State, packets: seq<Packet>): (out: seq<seq<byte>>)
    requires Sendable(packets)
    decreases |packets|
  {
    if packets == [] then []
    else
      var p := packets[0];
      var step := W.Write(uuid, w, p.tls, p.data, p.draw);
      [step.output] + Emit(uuid, step.state, packets[1..])
  }

  function Inputs(packets: seq<Packet>): seq<seq<byte>>
    decreases |packets|
  {
    if packets == [] then [] else [packets[0].data] + Inputs(packets[1..])
  }

  /** Where the reader stands once it has all the writer has put out. */
  predicate InStep(w: W.State, p: R.Phase) {
    if w.directCopy || !w.isPadding then
      p.Plain? || (R.FrameOver(p) && p.command != W.CONTINUE as int)
    else
      w.uuidWritten && R.FrameOver(p) && p.command == W.CONTINUE as int
  }

  lemma FeedHeader(p: R.Phase, command: byte, a: byte, b: byte, c: byte, d: byte)
    requires p.Framing? && p.header == 5
    ensures R.Feed(p, [command, a, b, c, d]) == R.Fed(R.Framing(0, Be16(a, b), Be16(c, d), command), [])
  {
    hide R.Feed;
    var s := [command, a, b, c, d];
    var p4 := R.HeaderByte(p, command);
    var p3 := R.HeaderByte(p4, a);
    var p2 := R.HeaderByte(p3, b);
    var p1 := R.HeaderByte(p2, c);
    var p0 := R.HeaderByte(p1, d);
    R.HeaderStep(p, s, 0);
    R.HeaderStep(p4, s, 1);
    R.HeaderStep(p3, s, 2);
    R.HeaderStep(p2, s, 3);
    R.HeaderStep(p1, s, 4);
    R.FeedStep(p0, s[5..]);
    assert s[0..] == s;
  }

  /** The reader turns one frame back into its content. */
  lemma FeedFrame(p: R.Phase, command: byte, data: seq<byte>, padding: seq<byte>)
    requires p.Framing? && p.header == 5
    requires |data| < 0x1_0000 && |padding| < 0x1_0000
    ensures R.Feed(p, W.Frame([], command, data, padding)) == R.Fed(R.Framing(0, 0, 0, command), data)
  {
    hide R.Feed, Hi, Lo, Be16;
    var header := [command, Hi(|data|), Lo(|data|), Hi(|padding|), Lo(|padding|)];
    var body := R.Framing(0, |data|, |padding|, command);
    var tail := R.Framing(0, 0, |padding|, command);
    FeedHeader(p, command, Hi(|data|), Lo(|data|), Hi(|padding|), Lo(|padding|));
    Be16OfHiLo(|data|);
    Be16OfHiLo(|padding|);
    R.FeedContent(body, data);
    R.FeedPadding(tail, padding);
    R.FeedConcat(body, data, padding);
    R.FeedConcat(p, header, data + padding);
    assert W.Frame([], command, data, padding) == header + (data + padding);
  }

  /** One call keeps the reader in step, whatever the context, the draw and the packet. */
  lemma StepRoundTrip(uuid: seq<byte>, w: W.State, p: R.Phase, packet: Packet)
    requires packet.Fits() && InStep(w, p)
    ensures var step := W.Write(uuid, w, packet.tls, packet.data, packet.draw);
            var fed := R.Feed(p, step.output);
            InStep(step.state, fed.phase) && fed.output == packet.data
  {
    hide R.Feed, W.Frame, W.PaddingLen, Filtered, WholeRecords;
    var step := W.Write(uuid, w, packet.tls, packet.data, packet.draw);
    R.FeedStep(p, []);
    if packet.data != [] {
      if w.directCopy || !w.isPadding {
        R.FeedPlain(packet.data);
        if R.FrameOver(p) {
          R.LastFrame(p, packet.data);
        }
      } else {
        FrameRoundTrip(uuid, w, p, packet);
      }
    }
  }

  lemma FrameRoundTrip(uuid: seq<byte>, w: W.State, p: R.Phase, packet: Packet)
    requires packet.Fits() && packet.data != []
    requires !w.directCopy && w.isPadding && w.uuidWritten
    requires R.FrameOver(p) && p.command == W.CONTINUE as int
    ensures var step := W.Write(uuid, w, packet.tls, packet.data, packet.draw);
            var fed := R.Feed(p, step.output);
            InStep(step.state, fed.phase) && fed.output == packet.data
  {
    hide R.Feed, W.Frame, W.PaddingLen, Filtered, WholeRecords;
    var seen := W.Seen(packet.tls, packet.data);
    W.PaddingFits(w.uuidWritten, |packet.data|, seen.isTLS, packet.draw);
    var padding := packet.draw.noise[..W.PaddingLen(w.uuidWritten, |packet.data|, seen.isTLS, packet.draw)];
    var frame := W.Frame([], W.CommandFor(seen, packet.data), packet.data, padding);
    FrameNotEmpty([], W.CommandFor(seen, packet.data), packet.data, padding);
    R.NextFrame(p, frame);
    FeedFrame(p.(header := 5), W.CommandFor(seen, packet.data), packet.data, padding);
  }

  lemma FrameNotEmpty(prefix: seq<byte>, command: byte, data: seq<byte>, padding: seq<byte>)
    ensures W.Frame(prefix, command, data, padding) == prefix + W.Frame([], command, data, padding)
    ensures |W.Frame([], command, data, padding)| == 5 + |data| + |padding|
  {
  }

  lemma {:induction false} RunRoundTrip(uuid: seq<byte>, w: W.State, p: R.Phase, packets: seq<Packet>)
    requires Sendable(packets) && InStep(w, p)
    ensures R.Feed(p, Flatten(Emit(uuid, w, packets))).output == Flatten(Inputs(packets))
    decreases |packets|
  {
    hide R.Feed, W.Write, InStep;
    if packets == [] {
      R.FeedStep(p, []);
    } else {
      var packet := packets[0];
      var step := W.Write(uuid, w, packet.tls, packet.data, packet.draw);
      StepRoundTrip(uuid, w, p, packet);
      var fed := R.Feed(p, step.output);
      RunRoundTrip(uuid, step.state, fed.phase, packets[1..]);
      assert Emit(uuid, w, packets)[1..] == Emit(uuid, step.state, packets[1..]);
      assert Inputs(packets)[1..] == Inputs(packets[1..]);
      R.FeedConcat(p, step.output, Flatten(Emit(uuid, step.state, packets[1..])));
    }
  }

  /** Unpadding the whole output gives back the whole input, for any packets, contexts and draws. */
  lemma {:induction false} WholeRoundTrip(uuid: seq<byte>, packets: seq<Packet>)
    requires |uuid| == 16 && Sendable(packets)
    ensures R.Unpad(uuid, Flatten(Emit(uuid, W.INITIAL, packets))) == Flatten(Inputs(packets))
    ensures Flatten(Inputs(packets)) != [] ==> R.Padded(uuid, Flatten(Emit(uuid, W.INITIAL, packets)))
    decreases |packets|
  {
    if packets != [] {
      hide R.Feed, W.Write, Flatten;
      var packet := packets[0];
      var step := W.Write(uuid, W.INITIAL, packet.tls, packet.data, packet.draw);
      var more := Emit(uuid, step.state, packets[1..]);
      assert Emit(uuid, W.INITIAL, packets) == [step.output] + more;
      assert Inputs(packets) == [packet.data] + Inputs(packets[1..]);
      FlattenConcat([step.output], more);
      FlattenConcat([packet.data], Inputs(packets[1..]));
      FlattenOne(step.output);
      FlattenOne(packet.data);
      if packet.data == [] {
        EmptyPacket(uuid, packet);
        WholeRoundTrip(uuid, packets[1..]);
        assert Flatten(Inputs(packets)) == Flatten(Inputs(packets[1..]));
        assert Flatten(Emit(uuid, W.INITIAL, packets)) == Flatten(more);
      } else {
        var frame := FirstFrame(uuid, packet);
        var whole := step.output + Flatten(more);
        assert whole[..16] == uuid && whole[16..] == frame + Flatten(more);
        RunRoundTrip(uuid, step.state, R.Feed(R.FIRST_FRAME, frame).phase, packets[1..]);
        R.FeedConcat(R.FIRST_FRAME, frame, Flatten(more));
      }
    }
  }

  lemma EmptyPacket(uuid: seq<byte>, packet: Packet)
    requires packet.Fits() && packet.data == []
    ensures var step := W.Write(uuid, W.INITIAL, packet.tls, packet.data, packet.draw);
            step.state == W.INITIAL && step.output == []
  {
  }

  lemma FirstFrame(uuid: seq<byte>, packet: Packet) returns (frame: seq<byte>)
    requires |uuid| == 16 && packet.Fits() && packet.data != []
    ensures var step := W.Write(uuid, W.INITIAL, packet.tls, packet.data, packet.draw);
            && step.output == uuid + frame
            && |frame| >= 5
            && R.Feed(R.FIRST_FRAME, frame).output == packet.data
            && InStep(step.state, R.Feed(R.FIRST_FRAME, frame).phase)
  {
    hide R.Feed, W.Frame, W.PaddingLen, Filtered, WholeRecords;
    var seen := W.Seen(packet.tls, packet.data);
    var command := W.CommandFor(seen, packet.data);
    W.PaddingFits(false, |packet.data|, seen.isTLS, packet.draw);
    var padding := packet.draw.noise[..W.PaddingLen(false, |packet.data|, seen.isTLS, packet.draw)];
    frame := W.Frame([], command, packet.data, padding);
    FrameNotEmpty(uuid, command, packet.data, padding);
    FeedFrame(R.FIRST_FRAME, command, packet.data, padding);
  }

  /** The Vision round trip: however the output stream is cut, as long as the first piece
      shows the first header, the reader returns exactly what the writer was given ... */
  lemma RoundTrip(uuid: seq<byte>, packets: seq<Packet>, pieces: seq<seq<byte>>)
    requires |uuid| == 16 && Sendable(packets)
    requires Flatten(pieces) == Flatten(Emit(uuid, W.INITIAL, packets))
    requires |R.First(pieces)| >= W.FULL_HEADER || Flatten(pieces) == []
    ensures Flatten(R.ReadAll(uuid, R.Start, pieces)) == Flatten(Inputs(packets))
  {
    hide R.Unpad, Emit, R.ReadAll;
    WholeRoundTrip(uuid, packets);
    R.CuttingDoesNotMatter(uuid, pieces);
  }

  /** A first piece that ends inside the first header: one byte of content in one frame, cut
      behind its first byte, comes out with its padding, where the whole gives the byte. */
  lemma EarlyCutIsNotUnpadded(uuid: seq<byte>)
    requires |uuid| == 16
    ensures var s := uuid + W.Frame([], W.END, [7], []);
            && R.Unpad(uuid, s) == [7]
            && R.ReadAll(uuid, R.Start, [s[..1], s[1..]]) == [s[..1], s[1..]]
  {
    var frame := W.Frame([], W.END, [7], []);
    FrameNotEmpty([], W.END, [7], []);
    var s := uuid + frame;
    FeedFrame(R.FIRST_FRAME, W.END, [7], []);
    hide R.Feed, W.Frame;
    assert s[..16] == uuid && s[16..] == frame;
    R.ReadAllStep(uuid, R.Start, [s[..1], s[1..]]);
    assert [s[..1], s[1..]][1..] == [s[1..]];
    R.ReadAllPlain(uuid, [s[1..]]);
    hide R.ReadAll;
  }

  /** ... and after any number of pieces it has returned a prefix of it. */
  lemma RoundTripSoFar(uuid: seq<byte>, packets: seq<Packet>, pieces: seq<seq<byte>>, k: nat)
    requires |uuid| == 16 && Sendable(packets) && k <= |pieces|
    requires Flatten(pieces) == Flatten(Emit(uuid, W.INITIAL, packets))
    requires |R.First(pieces)| >= W.FULL_HEADER || Flatten(pieces) == []
    ensures IsPrefix(Flatten(R.ReadAll(uuid, R.Start, pieces[..k])), Flatten(Inputs(packets)))
  {
    hide Emit, R.Read, Flatten;
    RoundTrip(uuid, packets, pieces);
    ReadAllPrefix(uuid, R.Start, pieces, k);
    var all, part := R.ReadAll(uuid, R.Start, pieces), R.ReadAll(uuid, R.Start, pieces[..k]);
    FlattenConcat(part, all[|part|..]);
    assert part + all[|part|..] == all;
  }

  lemma {:induction false} ReadAllPrefix(uuid: seq<byte>, p: R.Phase, pieces: seq<seq<byte>>, k: nat)
    requires k <= |pieces|
    ensures R.ReadAll(uuid, p, pieces[..k]) <= R.ReadAll(uuid, p, pieces)
    decreases k
  {
    if k > 0 {
      var f := R.Read(uuid, p, pieces[0]);
      ReadAllPrefix(uuid, f.phase, pieces[1..], k - 1);
      assert pieces[..k][1..] == pieces[1..][..k - 1];
    }
  }

  // ---- Both directions over one context ----

  datatype Event =
    | Downlink(data: seq<byte>, draw: W.Draw)
    | Uplink(piece: seq<byte>)

  datatype Session = Session(writer: W.State, tls: Tls, reader: R.Phase)

  const OPENED := Session(W.INITIAL, FRESH, R.Start)

  ghost predicate Legal(events: seq<Event>) {
    forall i :: 0 <= i < |events| && events[i].Downlink? ==> events[i].draw.InRange()
  }

  function Notice(uuid: seq<byte>, p: R.Phase, t: Tls, piece: seq<byte>): Tls {
    if piece == [] || p.Plain? || (p.Start? && !R.Padded(uuid, piece)) then t
    else Noticed(t, R.Read(uuid, p, piece).output)
  }

  ghost function Happen(uuid: seq<byte>, s: Session, e: Event): Session
    requires e.Downlink? ==> e.draw.InRange()
  {
    match e
    case Downlink(data, draw) =>
      var step := W.Write(uuid, s.writer, s.tls, data, draw);
      Session(step.state, step.tls, s.reader)
    case Uplink(piece) =>
      Session(s.writer, Notice(uuid, s.reader, s.tls, piece), R.Read(uuid, s.reader, piece).phase)
  }

  ghost function Run(uuid: seq<byte>, events: seq<Event>): Session
    requires Legal(events)
    decreases |events|
  {
    if events == [] then OPENED
    else Happen(uuid, Run(uuid, events[..|events| - 1]), events[|events| - 1])
  }

  lemma HappenKeepsSafe(uuid: seq<byte>, s: Session, e: Event)
    requires Safe(s.tls) && (e.Downlink? ==> e.draw.InRange())
    ensures Safe(Happen(uuid, s, e).tls)
  {
    hide Filtered, W.Frame, W.CommandFor, R.Feed, Noticed, Safe;
    match e
    case Downlink(data, draw) =>
      if s.tls.packetsToFilter > 0 {
        FilterKeepsSafe(s.tls, data);
      }
    case Uplink(piece) =>
      NoticeKeepsSafe(s.tls, R.Read(uuid, s.reader, piece).output);
  }

  /** Over every interleaving the shared TLS state is safe. */
  lemma {:induction false} AlwaysSafe(uuid: seq<byte>, events: seq<Event>)
    requires Legal(events)
    ensures Safe(Run(uuid, events).tls)
    decreases |events|
  {
    if events != [] {
      hide Happen;
      AlwaysSafe(uuid, events[..|events| - 1]);
      HappenKeepsSafe(uuid, Run(uuid, events[..|events| - 1]), events[|events| - 1]);
    }
  }

  /** A DIRECT frame is emitted only when TLS 1.3 splicing is enabled, so never with the
      excluded cipher suite; and only a DIRECT frame turns a padding writer to direct copy. */
  lemma DirectOnlyWhenEnabled(uuid: seq<byte>, events: seq<Event>, data: seq<byte>, draw: W.Draw)
    requires Legal(events) && draw.InRange() && data != []
    ensures var s := Run(uuid, events);
            var step := W.Write(uuid, s.writer, s.tls, data, draw);
            s.writer.isPadding && !s.writer.directCopy ==>
              var header := if s.writer.uuidWritten then 0 else |uuid|;
              && |step.output| > header
              && (step.output[header] == W.DIRECT <==> step.state.directCopy)
              && (step.output[header] == W.DIRECT ==>
                    && step.tls.enableXtls && step.tls.isTLS && step.tls.isTLS12orAbove
                    && step.tls.cipher != TLS_AES_128_CCM_8
                    && W.IsAppData(data) && WholeRecords(data))
  {
    hide Filtered, Safe, W.PaddingLen, Run, WholeRecords;
    AlwaysSafe(uuid, events);
    var s := Run(uuid, events);
    HappenKeepsSafe(uuid, s, Downlink(data, draw));
    SafeWhenEnabled(W.Write(uuid, s.writer, s.tls, data, draw).tls);
  }

  /** The packet is made of whole application data records. */
  ghost predicate ShowsAppData(data: seq<byte>) {
    |data| >= 6 && data[..3] == [0x17, 0x03, 0x03] && WholeRecords(data)
  }

  /** What a padding writer tells the reader, in every run and for every packet, by the shared state
      t once the packet is filtered. DIRECT (2): whole application data records, with splicing
      enabled. END (1): such records without it; or no TLS 1.2 seen and no more than one packet
      left to filter. CONTINUE (0) otherwise. Behind END it pads no more, and behind DIRECT it
      copies as well. */
  lemma CommandExactly(uuid: seq<byte>, events: seq<Event>, data: seq<byte>, draw: W.Draw)
    requires Legal(events) && draw.InRange() && data != [] && |uuid| == 16
    ensures var s := Run(uuid, events);
            var step := W.Write(uuid, s.writer, s.tls, data, draw);
            var t, header := step.tls, if s.writer.uuidWritten then 0 else 16;
            s.writer.isPadding && !s.writer.directCopy ==>
              && t == (if s.tls.packetsToFilter > 0 then Filtered(s.tls, data) else s.tls)
              && |step.output| > header
              && var shows, early := t.isTLS && ShowsAppData(data), !t.isTLS12orAbove && t.packetsToFilter <= 1;
              var command := step.output[header];
              && (command == 2 <==> shows && t.enableXtls)
              && (command == 1 <==> (shows && !t.enableXtls) || (!shows && early))
              && (command == 0 <==> !shows && !early)
              && step.state.uuidWritten
              && (step.state.isPadding <==> command == 0)
              && (step.state.directCopy <==> command == 2)
  {
    hide Filtered, W.PaddingLen, Run, WholeRecords, R.Feed;
    assert |data| >= 6 ==> (data[..3] == [0x17, 0x03, 0x03] <==> W.IsAppData(data)) by {
      assert |data| >= 6 ==> data[..3] == [data[0], data[1], data[2]];
    }
  }

  /** Behind the padding phase packets go out as they are: the first one is still filtered and
      begins direct copy, and in direct copy nothing is looked at. */
  lemma AfterPadding(uuid: seq<byte>, events: seq<Event>, data: seq<byte>, draw: W.Draw)
    requires Legal(events) && draw.InRange() && data != []
    ensures var s := Run(uuid, events);
            var step := W.Write(uuid, s.writer, s.tls, data, draw);
            && (!s.writer.isPadding || s.writer.directCopy ==> step.output == data && step.state.directCopy)
            && (s.writer.directCopy ==> step.tls == s.tls)
            && (!s.writer.isPadding && !s.writer.directCopy ==>
                  step.tls == if s.tls.packetsToFilter > 0 then Filtered(s.tls, data) else s.tls)
  {
    hide Filtered, Run;
  }

  lemma SafeWhenEnabled(t: Tls)
    requires Safe(t)
    ensures t.enableXtls ==> t.isTLS && t.isTLS12orAbove && t.cipher != TLS_AES_128_CCM_8
  {
  }

  // ---- Bounded padding ----

  /** How many non-empty downlink packets there have been. */
  function Packets(events: seq<Event>): nat
    decreases |events|
  {
    if events == [] then 0
    else
      var last := events[|events| - 1];
      Packets(events[..|events| - 1]) + if last.Downlink? && last.data != [] then 1 else 0
  }

  ghost predicate NoServerHello(events: seq<Event>) {
    forall i :: 0 <= i < |events| && events[i].Downlink? ==> !IsServerHello(events[i].data)
  }

  predicate Bounded(s: Session, n: nat) {
    && Safe(s.tls)
    && !s.tls.isTLS12orAbove && s.tls.remainingServerHello <= 0
    && (s.writer.directCopy ==> !s.writer.isPadding)
    && (s.writer.isPadding ==> n <= 6 && s.tls.packetsToFilter <= PACKETS_TO_FILTER - n)
  }

  lemma HappenKeepsBounded(uuid: seq<byte>, s: Session, e: Event, n: nat)
    requires Bounded(s, n) && (e.Downlink? ==> e.draw.InRange() && !IsServerHello(e.data))
    ensures Bounded(Happen(uuid, s, e), n + if e.Downlink? && e.data != [] then 1 else 0)
  {
    hide Filtered, W.Frame, R.Feed, WholeRecords, W.PaddingLen;
    HappenKeepsSafe(uuid, s, e);
    if e.Downlink? && s.tls.packetsToFilter > 0 {
      FilterKeepsSafe(s.tls, e.data);
    }
  }

  lemma {:induction false} AlwaysBounded(uuid: seq<byte>, events: seq<Event>)
    requires Legal(events) && NoServerHello(events)
    ensures Bounded(Run(uuid, events), Packets(events))
    decreases |events|
  {
    if events != [] {
      hide Happen, Bounded;
      AlwaysBounded(uuid, events[..|events| - 1]);
      HappenKeepsBounded(uuid, Run(uuid, events[..|events| - 1]), events[|events| - 1],
                         Packets(events[..|events| - 1]));
    }
  }

  /** Without a ServerHello from the target the padding phase is over no later than the
      seventh non-empty downlink packet, however uplink pieces are interleaved. */
  lemma PaddingEndsBySeventhPacket(uuid: seq<byte>, events: seq<Event>)
    requires Legal(events) && NoServerHello(events) && Packets(events) >= 7
    ensures !Run(uuid, events).writer.isPadding
  {
    AlwaysBounded(uuid, events);
  }

  /** Only downlink packets, none empty, and no TLS hello among them. */
  predicate Quiet(events: seq<Event>) {
    forall i :: 0 <= i < |events| ==>
                  && events[i].Downlink? && events[i].data != []
                  && !IsServerHello(events[i].data) && !IsClientHello(events[i].data)
  }

  lemma QuietStep(uuid: seq<byte>, s: Session, e: Event, n: nat)
    requires e.Downlink? && e.data != [] && e.draw.InRange()
    requires !IsServerHello(e.data) && !IsClientHello(e.data)
    requires n < 7 && s.tls == FRESH.(packetsToFilter := PACKETS_TO_FILTER - n)
    requires s.writer.isPadding && !s.writer.directCopy
    ensures var next := Happen(uuid, s, e);
            && next.tls == FRESH.(packetsToFilter := PACKETS_TO_FILTER - (n + 1))
            && (n < 6 ==> next.writer.isPadding && !next.writer.directCopy)
  {
    hide W.Frame, W.PaddingLen, WholeRecords, IsServerHello, IsClientHello;
  }

  /** Seven is the bound: such a run is still padding exactly while it has at most six packets. */
  lemma {:induction false} QuietRunPadsForSix(uuid: seq<byte>, events: seq<Event>)
    requires Legal(events) && Quiet(events)
    ensures Packets(events) == |events|
    ensures Run(uuid, events).writer.isPadding <==> |events| <= 6
    ensures |events| <= 6 ==>
              && !Run(uuid, events).writer.directCopy
              && Run(uuid, events).tls == FRESH.(packetsToFilter := PACKETS_TO_FILTER - |events|)
    decreases |events|
  {
    if events != [] {
      hide Happen;
      QuietRunPadsForSix(uuid, events[..|events| - 1]);
      if |events| <= 6 {
        QuietStep(uuid, Run(uuid, events[..|events| - 1]), events[|events| - 1], |events| - 1);
      } else {
        PaddingEndsBySeventhPacket(uuid, events);
      }
    }
  }

  /** One byte six times over is such a run. */
  lemma SixPacketsStillPad(uuid: seq<byte>)
    ensures exists events :: Legal(events) && NoServerHello(events) && Packets(events) == 6
                             && Run(uuid, events).writer.isPadding
  {
    var e := Downlink([1], W.Draw(0, 0, seq(W.NOISE, _ => 0)));
    var events := [e, e, e, e, e, e];
    hide Run, Packets;
    QuietRunPadsForSix(uuid, events);
  }
}
