// TLS detection in a session: the writer filters downlink packets, the reader counts uplink
// pieces down on the same budget, and a writer in direct copy filters no more.
module VisionDetection {
  import opened Bytes
  import opened TlsRecord
  import opened VisionContext
  import opened VisionHello
  import opened VisionSession

  // ---- Sessions from any state on ----

  ghost function After(uuid: seq<byte>, s: Session, events: seq<Event>): Session
    requires Legal(events)
    decreases |events|
  {
    if events == [] then s
    else After(uuid, Happen(uuid, s, events[0]), events[1..])
  }

  lemma {:induction false} RunThenAfter(uuid: seq<byte>, before: seq<Event>, events: seq<Event>)
    requires Legal(before) && Legal(events)
    ensures Legal(before + events) && Run(uuid, before + events) == After(uuid, Run(uuid, before), events)
    decreases |events|
  {
    hide Happen;
    if events == [] {
      assert before + events == before;
    } else {
      var longer := before + [events[0]];
      assert longer[..|longer| - 1] == before;
      assert before + events == longer + events[1..];
      RunThenAfter(uuid, longer, events[1..]);
    }
  }

  /** The downlink packets, without the empty ones, which the writer passes over. */
  function Downlinks(events: seq<Event>): seq<seq<byte>>
    decreases |events|
  {
    if events == [] then []
    else (if events[0].Downlink? && events[0].data != [] then [events[0].data] else []) + Downlinks(events[1..])
  }

  // ---- How many packets the filter is open for ----

  /** The reader looks at what it unpads from this piece. */
  predicate Counts(uuid: seq<byte>, p: R.Phase, piece: seq<byte>) {
    && piece != [] && !p.Plain? && (p.Start? ==> R.Padded(uuid, piece))
    && |R.Read(uuid, p, piece).output| >= 6
  }

  /** With a budget of n, a TLS hello seen or not, and the padding ended or not: how many of the
      downlink packets are filtered before uplink pieces have used up the budget or the writer
      copies directly, if no ServerHello closes the filter. */
  function Watched(uuid: seq<byte>, p: R.Phase, n: int, tls: bool, ended: bool, events: seq<Event>): nat
    decreases |events|
  {
    if events == [] || n <= 0 then 0
    else
      match events[0]
      case Uplink(piece) =>
        var f := R.Read(uuid, p, piece);
        if Counts(uuid, p, piece) then
          Watched(uuid, f.phase, n - 1, tls || IsClientHello(f.output), ended, events[1..])
        else
          Watched(uuid, f.phase, n, tls, ended, events[1..])
      case Downlink(data, _) =>
        if data == [] then Watched(uuid, p, n, tls, ended, events[1..])
        else if ended then 1
        else
          var seen := tls || IsServerHello(data) || IsClientHello(data);
          1 + Watched(uuid, p, n - 1, seen, seen && W.IsAppData(data) && WholeRecords(data), events[1..])
  }

  /** The same from a session's state. */
  function Filters(uuid: seq<byte>, s: Session, events: seq<Event>): nat {
    if s.writer.directCopy then 0
    else Watched(uuid, s.reader, s.tls.packetsToFilter, s.tls.isTLS, !s.writer.isPadding, events)
  }

  /** With one packet left it does not matter whether the padding has ended. */
  lemma {:induction false} LastPacket(uuid: seq<byte>, p: R.Phase, n: int, tls: bool, events: seq<Event>)
    requires n <= 1
    ensures Watched(uuid, p, n, tls, true, events) == Watched(uuid, p, n, tls, false, events)
    decreases |events|
  {
    hide R.Read, Counts, WholeRecords, IsClientHello, IsServerHello;
    if events != [] && n == 1 {
      match events[0]
      case Uplink(piece) =>
        var f := R.Read(uuid, p, piece);
        if Counts(uuid, p, piece) {
          LastPacket(uuid, f.phase, 0, tls || IsClientHello(f.output), events[1..]);
        } else {
          LastPacket(uuid, f.phase, 1, tls, events[1..]);
        }
      case Downlink(data, _) =>
        LastPacket(uuid, p, n, tls, events[1..]);
    }
  }

  // ---- A session filters what SeenAll filters on that many packets ----

  predicate Alike(t: Tls, u: Tls) {
    t.enableXtls == u.enableXtls && t.cipher == u.cipher && t.remainingServerHello == u.remainingServerHello
  }

  lemma FilteredAlike(t: Tls, u: Tls, data: seq<byte>)
    requires Alike(t, u) && t.packetsToFilter > 0 && u.packetsToFilter > 0
    ensures var a, b := Filtered(t, data), Filtered(u, data);
            && Alike(a, b)
            && a.isTLS == (t.isTLS || IsServerHello(data) || IsClientHello(data))
            && (|| a.packetsToFilter == 0 == b.packetsToFilter
                || (a.packetsToFilter == t.packetsToFilter - 1 && b.packetsToFilter == u.packetsToFilter - 1))
            && (a.enableXtls && !t.enableXtls ==> a.packetsToFilter == 0)
  {
    hide Announces13, CipherIn, IsServerHello, IsClientHello;
    var g, k := Hello(t.(packetsToFilter := t.packetsToFilter - 1), data),
                Hello(u.(packetsToFilter := u.packetsToFilter - 1), data);
    assert Alike(g, k) && Window(g, data) == Window(k, data);
    hide Hello, Window;
  }

  /** A closed filter, or direct copy, leaves the detection as it is. */
  lemma {:induction false} ClosedStays(uuid: seq<byte>, s: Session, events: seq<Event>)
    requires Legal(events) && (s.tls.packetsToFilter <= 0 || s.writer.directCopy)
    ensures After(uuid, s, events).tls.enableXtls == s.tls.enableXtls
    decreases |events|
  {
    if events != [] {
      ClosedStep(uuid, s, events[0]);
      hide Happen;
      ClosedStays(uuid, Happen(uuid, s, events[0]), events[1..]);
    }
  }

  lemma ClosedStep(uuid: seq<byte>, s: Session, e: Event)
    requires (e.Downlink? ==> e.draw.InRange()) && (s.tls.packetsToFilter <= 0 || s.writer.directCopy)
    ensures var next := Happen(uuid, s, e);
            && next.tls.enableXtls == s.tls.enableXtls
            && (next.tls.packetsToFilter <= 0 || next.writer.directCopy)
  {
    hide Filtered, W.Frame, W.CommandFor, W.PaddingLen, R.Read, IsClientHello;
  }

  lemma UplinkStep(uuid: seq<byte>, s: Session, piece: seq<byte>)
    requires s.tls.packetsToFilter > 0
    ensures var next, f := Happen(uuid, s, Uplink(piece)), R.Read(uuid, s.reader, piece);
            && next.writer == s.writer && next.reader == f.phase
            && next.tls == if Counts(uuid, s.reader, piece)
                           then s.tls.(packetsToFilter := s.tls.packetsToFilter - 1,
                                       isTLS := s.tls.isTLS || IsClientHello(f.output))
                           else s.tls
  {
    hide R.Read, IsClientHello;
  }

  lemma DownlinkStep(uuid: seq<byte>, s: Session, data: seq<byte>, draw: W.Draw)
    requires draw.InRange() && data != [] && s.tls.packetsToFilter > 0 && !s.writer.directCopy
    ensures var next, t := Happen(uuid, s, Downlink(data, draw)), Filtered(s.tls, data);
            var ends := t.isTLS && W.IsAppData(data) && WholeRecords(data);
            && next.tls == t && next.reader == s.reader
            && (!s.writer.isPadding ==> next.writer.directCopy)
            && (s.writer.isPadding && !t.enableXtls ==>
                  && !next.writer.directCopy
                  && (ends ==> !next.writer.isPadding)
                  && (!ends && !next.writer.isPadding ==> t.packetsToFilter <= 1))
  {
    hide Filtered, W.Frame, W.PaddingLen, WholeRecords;
  }

  lemma {:induction false} SessionSees(uuid: seq<byte>, s: Session, events: seq<Event>, u: Tls)
    requires Legal(events) && !s.writer.directCopy && !s.tls.enableXtls && Alike(s.tls, u)
    requires u.packetsToFilter == Filters(uuid, s, events)
    ensures After(uuid, s, events).tls.enableXtls == SeenAll(u, Downlinks(events)).enableXtls
    decreases |events|
  {
    hide Happen, Filtered, R.Read, Counts, WholeRecords, IsClientHello, IsServerHello;
    if s.tls.packetsToFilter <= 0 {
      ClosedStays(uuid, s, events);
      ClosedSeesNothing(u, Downlinks(events));
    } else if events != [] {
      var e, next, more := events[0], Happen(uuid, s, events[0]), events[1..];
      match e
      case Uplink(piece) =>
        UplinkStep(uuid, s, piece);
        assert Downlinks(events) == Downlinks(more);
        SessionSees(uuid, next, more, u);
      case Downlink(data, draw) =>
        if data == [] {
          EmptyStep(uuid, s, draw);
          assert Downlinks(events) == Downlinks(more);
          SessionSees(uuid, s, more, u);
        } else {
          FilteredAlike(s.tls, u, data);
          DownlinkStep(uuid, s, data, draw);
          PacketSeen(uuid, s, events, u);
          var v := Filtered(u, data);
          LastOne(uuid, s.reader, s.tls.packetsToFilter, s.tls.isTLS, !s.writer.isPadding, events);
          if next.tls.packetsToFilter <= 0 || next.writer.directCopy {
            ClosedStays(uuid, next, more);
            ClosedSeesNothing(v, Downlinks(more));
          } else {
            if next.tls.packetsToFilter <= 1 {
              LastPacket(uuid, next.reader, next.tls.packetsToFilter, next.tls.isTLS, more);
            }
            SessionSees(uuid, next, more, v);
          }
        }
    }
  }

  lemma EmptyStep(uuid: seq<byte>, s: Session, draw: W.Draw)
    requires draw.InRange()
    ensures Happen(uuid, s, Downlink([], draw)) == s
  {
  }

  lemma LastOne(uuid: seq<byte>, p: R.Phase, n: int, tls: bool, ended: bool, events: seq<Event>)
    requires events != [] && events[0].Downlink? && events[0].data != []
    ensures n == 1 || (n > 0 && ended) ==> Watched(uuid, p, n, tls, ended, events) == 1
  {
    hide R.Read, Counts, WholeRecords, IsClientHello, IsServerHello;
  }

  lemma PacketSeen(uuid: seq<byte>, s: Session, events: seq<Event>, u: Tls)
    requires events != [] && events[0].Downlink? && events[0].data != [] && u.packetsToFilter > 0
    ensures SeenAll(u, Downlinks(events)) == SeenAll(Filtered(u, events[0].data), Downlinks(events[1..]))
  {
    hide Filtered;
    assert Downlinks(events)[1..] == Downlinks(events[1..]);
  }

  // ---- What detection comes to in a session ----

  /** From any session in which no ServerHello has been detected, splicing is enabled exactly when
      the filter reaches, among the downlink packets it is open for, one that holds the six
      bytes in the part that the last start of a ServerHello claims, with another suite. */
  lemma SplicingFromHere(uuid: seq<byte>, s: Session, events: seq<Event>)
    requires Legal(events) && Undetected(s.tls)
    ensures After(uuid, s, events).tls.enableXtls <==> Spliced(Downlinks(events), Filters(uuid, s, events))
  {
    var n := Filters(uuid, s, events);
    var u := s.tls.(packetsToFilter := n);
    hide Filters, Spliced;
    if s.writer.directCopy {
      ClosedStays(uuid, s, events);
      NoneFiltered(uuid, s, events);
    } else {
      SessionSees(uuid, s, events, u);
      SeenSplices(u, Downlinks(events));
    }
  }

  lemma NoneFiltered(uuid: seq<byte>, s: Session, events: seq<Event>)
    ensures s.writer.directCopy ==> !Spliced(Downlinks(events), Filters(uuid, s, events))
  {
  }

  /** So it is in every run of a connection, however the directions are interleaved. */
  lemma SplicingExactly(uuid: seq<byte>, events: seq<Event>)
    requires Legal(events)
    ensures Run(uuid, events).tls.enableXtls <==> Spliced(Downlinks(events), Filters(uuid, OPENED, events))
  {
    hide Filters, Spliced;
    RunThenAfter(uuid, [], events);
    assert [] + events == events;
    SplicingFromHere(uuid, OPENED, events);
  }

  lemma {:induction false} NoneEmpty(events: seq<Event>)
    ensures forall i :: 0 <= i < |Downlinks(events)| ==> Downlinks(events)[i] != []
    decreases |events|
  {
    if events != [] {
      NoneEmpty(events[1..]);
    }
  }

  /** A ServerHello cut into downlink packets in any way, with anything behind it and uplink
      pieces anywhere between: when no later packet begins like a ServerHello, splicing is enabled
      exactly when the first packet has the six bytes by which one is recognised, the
      announcement lies within the record in a packet that is filtered, and the suite is not
      the excluded one or could not be read from the first packet. */
  lemma CutHelloUnderstood(uuid: seq<byte>, h: ServerHello, before: seq<Event>, events: seq<Event>)
    requires h.Valid() && Legal(before) && Legal(events) && Undetected(Run(uuid, before).tls)
    requires h.Record() <= Flatten(Downlinks(events))
    ensures Legal(before + events) && Downlinks(events) != []
    ensures var packets, n := Downlinks(events), Filters(uuid, Run(uuid, before), events);
            var enabled := Run(uuid, before + events).tls.enableXtls;
            && (enabled <==> Spliced(packets, n))
            && (OneStart(packets, |h.Record()|) ==>
                  (enabled <==>
                     && Recognized(packets, |h.Record()|, n)
                     && (h.cipher != TLS_AES_128_CCM_8 || |packets[0]| < 79 || |h.Record()| < 79)))
  {
    hide ServerHello.Record, ServerHello.Valid, Filters, Spliced, Recognized, OneStart, Undetected;
    RunThenAfter(uuid, before, events);
    SplicingFromHere(uuid, Run(uuid, before), events);
    NoneEmpty(events);
    HelloSplices(h, Downlinks(events), Filters(uuid, Run(uuid, before), events));
  }

  /** Detection agrees with the message, however it was cut, whatever follows it and whatever the
      uplink does, exactly when splicing is due and a start and the announcement are found, or
      it is not due and they are not. With one start: an announcement of another suite has to be
      noticed, and anything else must not be, unless it was noticed with the excluded suite
      read. */
  lemma DetectionIsRightExactlyWhen(uuid: seq<byte>, h: ServerHello, before: seq<Event>, events: seq<Event>)
    requires h.Valid() && Legal(before) && Legal(events) && Undetected(Run(uuid, before).tls)
    requires h.Record() <= Flatten(Downlinks(events))
    ensures Legal(before + events) && Downlinks(events) != []
    ensures var packets, n, record := Downlinks(events), Filters(uuid, Run(uuid, before), events), |h.Record()|;
            var due := h.Selects13() && h.cipher != TLS_AES_128_CCM_8;
            var right := Run(uuid, before + events).tls.enableXtls == due;
            && (right <==> Spliced(packets, n) == due)
            && (OneStart(packets, record) ==>
                  (right <==>
                     if due then Recognized(packets, record, n)
                     else
                       || !Recognized(packets, record, n)
                       || (h.cipher == TLS_AES_128_CCM_8 && |packets[0]| >= 79 && record >= 79)))
  {
    CutHelloUnderstood(uuid, h, before, events);
    hide ServerHello.Record, ServerHello.Selects13, Filters, Spliced, Recognized, OneStart;
  }

  // ---- Two packets, and what may come between them ----

  function Arrival(data: seq<byte>): Event {
    Downlink(data, W.Draw(0, 0, seq(W.NOISE, _ => 0)))
  }

  function FromTarget(packets: seq<seq<byte>>): seq<Event> {
    seq(|packets|, i requires 0 <= i < |packets| => Arrival(packets[i]))
  }

  lemma OnePacketWatched(uuid: seq<byte>, p: R.Phase, n: int, tls: bool, ended: bool, data: seq<byte>, more: seq<Event>)
    requires data != [] && n > 0
    ensures var seen := tls || IsServerHello(data) || IsClientHello(data);
            Watched(uuid, p, n, tls, ended, [Arrival(data)] + more) ==
            if ended then 1
            else 1 + Watched(uuid, p, n - 1, seen, seen && W.IsAppData(data) && WholeRecords(data), more)
  {
    hide IsServerHello, IsClientHello, WholeRecords;
    assert ([Arrival(data)] + more)[1..] == more;
  }

  lemma DownlinksOf(data: seq<byte>, more: seq<Event>)
    requires data != []
    ensures Downlinks([Arrival(data)] + more) == [data] + Downlinks(more)
    ensures Legal(more) ==> Legal([Arrival(data)] + more)
  {
    assert ([Arrival(data)] + more)[1..] == more;
  }

  /** Two packets in a row at the start of a connection are both filtered. */
  lemma TwoAreFiltered(uuid: seq<byte>, a: seq<byte>, b: seq<byte>)
    requires a != [] && b != []
    ensures var events := FromTarget([a, b]);
            && Legal(events) && Downlinks(events) == [a, b] && Filters(uuid, OPENED, events) == 2
            && Run(uuid, events).tls.enableXtls == SeenAll(FRESH, [a, b]).enableXtls
  {
    var events := [Arrival(a)] + ([Arrival(b)] + []);
    assert FromTarget([a, b]) == events;
    DownlinksOf(a, [Arrival(b)] + []);
    DownlinksOf(b, []);
    hide IsServerHello, IsClientHello, WholeRecords, Spliced;
    OnePacketWatched(uuid, R.Start, 8, false, false, a, [Arrival(b)] + []);
    var seen := false || IsServerHello(a) || IsClientHello(a);
    OnePacketWatched(uuid, R.Start, 7, seen, seen && W.IsAppData(a) && WholeRecords(a), b, []);
    SplicingExactly(uuid, events);
    SeenSplices(FRESH, [a, b]);
    AllFiltered([a, b], 2, 8);
  }

  lemma AllFiltered(packets: seq<seq<byte>>, m: int, n: int)
    requires |packets| <= m && |packets| <= n
    ensures Spliced(packets, m) <==> Spliced(packets, n)
  {
    hide GoesOn, Announces13, Scanned, Suite;
  }

  predicate AllCount(uuid: seq<byte>, p: R.Phase, pieces: seq<seq<byte>>)
    decreases |pieces|
  {
    pieces == [] || (Counts(uuid, p, pieces[0]) && AllCount(uuid, R.Read(uuid, p, pieces[0]).phase, pieces[1..]))
  }

  function FromClient(pieces: seq<seq<byte>>): seq<Event> {
    seq(|pieces|, i requires 0 <= i < |pieces| => Uplink(pieces[i]))
  }

  /** As many uplink pieces as are left to filter close the filter. */
  lemma {:induction false} UsedUp(uuid: seq<byte>, p: R.Phase, n: int, tls: bool, ended: bool,
                                  pieces: seq<seq<byte>>, more: seq<Event>)
    requires AllCount(uuid, p, pieces) && n <= |pieces|
    ensures Watched(uuid, p, n, tls, ended, FromClient(pieces) + more) == 0
    ensures Downlinks(FromClient(pieces) + more) == Downlinks(more)
    ensures Legal(more) ==> Legal(FromClient(pieces) + more)
    decreases |pieces|
  {
    hide Counts, R.Read, IsClientHello;
    if pieces == [] {
      assert FromClient(pieces) + more == more;
    } else {
      var f := R.Read(uuid, p, pieces[0]);
      assert (FromClient(pieces) + more)[1..] == FromClient(pieces[1..]) + more;
      UsedUp(uuid, f.phase, n - 1, tls || IsClientHello(f.output), ended, pieces[1..], more);
    }
  }

  /** Six bytes from the client in a frame. */
  function SixBytes(): seq<byte> {
    W.Frame([], W.CONTINUE, [1, 2, 3, 4, 5, 6], [])
  }

  lemma FrameCounts(uuid: seq<byte>, p: R.Phase)
    requires R.FrameOver(p) && p.command == W.CONTINUE as int
    ensures Counts(uuid, p, SixBytes())
    ensures R.Read(uuid, p, SixBytes()).phase == R.Framing(0, 0, 0, W.CONTINUE as int)
  {
    FrameNotEmpty([], W.CONTINUE, [1, 2, 3, 4, 5, 6], []);
    R.NextFrame(p, SixBytes());
    FeedFrame(p.(header := 5), W.CONTINUE, [1, 2, 3, 4, 5, 6], []);
    assert SixBytes() != [];
    hide R.Feed, SixBytes, W.Frame;
  }

  lemma {:induction false} FramesCount(uuid: seq<byte>, p: R.Phase, k: nat)
    requires R.FrameOver(p) && p.command == W.CONTINUE as int
    ensures AllCount(uuid, p, seq(k, _ => SixBytes()))
    decreases k
  {
    hide Counts, R.Read, SixBytes;
    if k > 0 {
      FrameCounts(uuid, p);
      FramesCount(uuid, R.Framing(0, 0, 0, W.CONTINUE as int), k - 1);
      assert seq(k, _ => SixBytes())[1..] == seq(k - 1, _ => SixBytes());
    }
  }

  /** Seven pieces of six bytes, the first behind the uuid. */
  function SevenPieces(uuid: seq<byte>): seq<seq<byte>> {
    [uuid + SixBytes()] + seq(6, _ => SixBytes())
  }

  lemma FirstCounts(uuid: seq<byte>)
    requires |uuid| == 16
    ensures Counts(uuid, R.Start, uuid + SixBytes())
    ensures R.Read(uuid, R.Start, uuid + SixBytes()).phase == R.Framing(0, 0, 0, W.CONTINUE as int)
  {
    FrameNotEmpty([], W.CONTINUE, [1, 2, 3, 4, 5, 6], []);
    FeedFrame(R.FIRST_FRAME, W.CONTINUE, [1, 2, 3, 4, 5, 6], []);
    assert |SixBytes()| == 11;
    hide R.Feed, SixBytes;
    var first := uuid + SixBytes();
    assert first[..16] == uuid && first[16..] == SixBytes();
  }

  lemma SevenCount(uuid: seq<byte>)
    requires |uuid| == 16
    ensures AllCount(uuid, R.Start, SevenPieces(uuid)) && |SevenPieces(uuid)| == 7
  {
    FirstCounts(uuid);
    FramesCount(uuid, R.Framing(0, 0, 0, W.CONTINUE as int), 6);
    hide R.Read, SixBytes, Counts;
    assert SevenPieces(uuid)[1..] == seq(6, _ => SixBytes());
  }

  lemma NoMarkInFirst(a: seq<byte>, n: int)
    requires forall i :: 0 <= i < |a| ==> a[i] != 0x2b
    ensures !Announces13(First(a, n))
  {
    NoMarkNoAnnouncement(First(a, n));
  }

  /** The announcement lies in the last of the packets. */
  lemma LastAnnounces(h: ServerHello, packets: seq<seq<byte>>, last: nat)
    requires h.Valid() && h.cipher != TLS_AES_128_CCM_8 && h.Record() == Flatten(packets)
    requires |packets| == last + 1 && |packets[0]| >= 6 && Announces13(packets[last])
    requires forall i :: 0 <= i <= last ==> packets[i] != [] && (i > 0 ==> !IsServerHello(packets[i]))
    requires forall i :: 0 <= i < last ==> 0x2b !in packets[i]
    ensures Spliced(packets, last + 1) && !Spliced(packets, last)
  {
    var r := |h.Record()|;
    assert OneStart(packets, r);
    HelloSplices(h, packets, last + 1);
    HelloSplices(h, packets, last);
    LastInRecord(packets, last);
    hide ServerHello.Record, ServerHello.Valid, Announces13, IsServerHello, Flatten, Spliced, OneStart, Passed;
    hide First, AnnouncedAt;
    forall i: nat | i < last
      ensures !AnnouncedAt(packets, r, i)
    {
      NotAnnouncedAt(packets, r, i);
    }
  }

  lemma LastInRecord(packets: seq<seq<byte>>, last: nat)
    requires |packets| == last + 1 && Announces13(packets[last])
    ensures AnnouncedAt(packets, |Flatten(packets)|, last)
  {
    PassedOneMore(packets, last);
    assert packets[..last + 1] == packets;
    hide Announces13, Flatten;
    assert First(packets[last], |packets[last]|) == packets[last];
  }

  lemma NotAnnouncedAt(packets: seq<seq<byte>>, record: nat, i: nat)
    requires i < |packets| && 0x2b !in packets[i]
    ensures !AnnouncedAt(packets, record, i)
  {
    NoMarkInFirst(packets[i], record - Passed(packets, i));
  }

  /** With seven pieces that count between them only the first of two packets is filtered. */
  lemma OneIsFiltered(uuid: seq<byte>, a: seq<byte>, pieces: seq<seq<byte>>, b: seq<byte>)
    requires AllCount(uuid, R.Start, pieces) && |pieces| >= 7 && a != [] && b != []
    ensures var events := FromTarget([a]) + FromClient(pieces) + FromTarget([b]);
            && Legal(events) && Downlinks(events) == [a, b]
            && (Run(uuid, events).tls.enableXtls <==> Spliced([a, b], 1))
  {
    var last := [Arrival(b)] + [];
    var more := FromClient(pieces) + last;
    assert FromTarget([a]) + FromClient(pieces) + FromTarget([b]) == [Arrival(a)] + more;
    hide IsServerHello, IsClientHello, WholeRecords, Spliced, Arrival, FromTarget, FromClient, AllCount, Run;
    var seen := false || IsServerHello(a) || IsClientHello(a);
    OnePacketWatched(uuid, R.Start, 8, false, false, a, more);
    UsedUp(uuid, R.Start, 7, seen, seen && W.IsAppData(a) && WholeRecords(a), pieces, last);
    DownlinksOf(a, more);
    DownlinksOf(b, []);
    SplicingExactly(uuid, [Arrival(a)] + more);
  }

  lemma BehindSessionId()
    ensures var h, r := Announcing(0x1301, [9]), Announcing(0x1301, [9]).Record();
            && h.Valid() && h.Selects13() && |r| == 56
            && Spliced([r[..44], r[44..]], 2) && !Spliced([r[..44], r[44..]], 1)
  {
    var h, r := Announcing(0x1301, [9]), Announcing(0x1301, [9]).Record();
    AnnouncingRecord(0x1301, [9]);
    var a, b := r[..44], r[44..];
    assert r[44] == r[44..45][0] == 9;
    assert b[6..12] == r[50..56] && Announces13At(b, 6);
    hide ServerHello.Record, ServerHello.Valid, ServerHello.Selects13, Announces13At, Spliced;
    assert r == a + b && !IsServerHello(b);
    FlattenTwo(a, b);
    LastAnnounces(h, [a, b], 1);
  }

  /** A message cut in two is detected; with seven uplink pieces between its packets the budget
      is used up and it is missed. */
  lemma UplinkClosesTheFilter(uuid: seq<byte>)
    requires |uuid| == 16
    ensures var h, r := Announcing(0x1301, [9]), Announcing(0x1301, [9]).Record();
            && h.Valid() && h.Selects13() && |r| == 56
            && var alone := FromTarget([r[..44], r[44..]]);
            var among := FromTarget([r[..44]]) + FromClient(SevenPieces(uuid)) + FromTarget([r[44..]]);
            && Legal(alone) && Legal(among) && Downlinks(alone) == Downlinks(among)
            && Run(uuid, alone).tls.enableXtls && !Run(uuid, among).tls.enableXtls
  {
    BehindSessionId();
    var r := Announcing(0x1301, [9]).Record();
    SevenCount(uuid);
    hide ServerHello.Record, ServerHello.Valid, ServerHello.Selects13, Spliced, SevenPieces, FromTarget, Filters, Run;
    hide AllCount;
    TwoAreFiltered(uuid, r[..44], r[44..]);
    SplicingExactly(uuid, FromTarget([r[..44], r[44..]]));
    OneIsFiltered(uuid, r[..44], SevenPieces(uuid), r[44..]);
  }

  lemma RecordOfOne(s: seq<byte>)
    requires s == [0x17, 0x03, 0x03, 0, 1, 9]
    ensures W.IsAppData(s) && WholeRecords(s) && !IsServerHello(s) && !IsClientHello(s)
  {
    assert s[6..] == [] && s[..6] == s;
  }

  /** Behind a whole application data record one more packet is filtered, and the rest is not. */
  lemma ThreeAreFiltered(uuid: seq<byte>, a: seq<byte>, b: seq<byte>, c: seq<byte>, d: seq<byte>)
    requires IsServerHello(a) && b == [0x17, 0x03, 0x03, 0, 1, 9] && c != [] && d != []
    ensures var events := FromTarget([a, b, c, d]);
            && Legal(events) && Downlinks(events) == [a, b, c, d]
            && (Run(uuid, events).tls.enableXtls <==> Spliced([a, b, c, d], 3))
  {
    RecordOfOne(b);
    assert !W.IsAppData(a);
    hide IsServerHello, IsClientHello, WholeRecords, Spliced;
    var e4 := [Arrival(d)] + [];
    var e3 := [Arrival(c)] + e4;
    var e2 := [Arrival(b)] + e3;
    assert FromTarget([a, b, c, d]) == [Arrival(a)] + e2;
    OnePacketWatched(uuid, R.Start, 8, false, false, a, e2);
    OnePacketWatched(uuid, R.Start, 7, true, false, b, e3);
    OnePacketWatched(uuid, R.Start, 6, true, true, c, e4);
    DownlinksOf(a, e2);
    DownlinksOf(b, e3);
    DownlinksOf(c, e4);
    DownlinksOf(d, []);
    assert [a] + ([b] + ([c] + ([d] + []))) == [a, b, c, d];
    SplicingExactly(uuid, [Arrival(a)] + e2);
  }

  /** A session id that is a whole application data record, in a packet of its own. */
  function Disguised(): ServerHello {
    Announcing(0x1301, [0x17, 0x03, 0x03, 0, 1, 9])
  }

  function InFour(r: seq<byte>): seq<seq<byte>>
    requires |r| >= 55
  {
    [r[..44], r[44..50], r[50..55], r[55..]]
  }

  lemma DisguisedParts()
    ensures var h, r := Disguised(), Disguised().Record();
            && h.Valid() && h.Selects13() && h.cipher == 0x1301 && |r| == 61
            && IsServerHello(r[..44]) && r[44..50] == [0x17, 0x03, 0x03, 0, 1, 9] && r[55..] == SUPPORTED_VERSIONS
            && forall i :: 0 <= i < 55 ==> r[i] != 0x2b
  {
    var h := Disguised();
    var r := h.Record();
    AnnouncingRecord(0x1301, [0x17, 0x03, 0x03, 0, 1, 9]);
    FieldsInPacket(h, r[..44]);
    assert r[55..] == r[55..61];
  }

  lemma DisguisedAnnounces()
    ensures |Disguised().Record()| == 61
    ensures var packets := InFour(Disguised().Record()); Spliced(packets, 4) && !Spliced(packets, 3)
  {
    DisguisedParts();
    var h := Disguised();
    var r := h.Record();
    hide ServerHello.Record, ServerHello.Valid, ServerHello.Selects13, Spliced, Disguised;
    SixBytesOccur();
    var packets := InFour(r);
    FlattenTwo(packets[0], packets[1]);
    FlattenSnoc([packets[0], packets[1]], packets[2]);
    FlattenSnoc([packets[0], packets[1]] + [packets[2]], packets[3]);
    assert packets == [packets[0], packets[1]] + [packets[2]] + [packets[3]];
    assert r == packets[0] + packets[1] + packets[2] + packets[3];
    LastAnnounces(h, packets, 3);
  }

  /** A packet of the message that is a whole application data record ends the padding, the next
      one begins direct copy, and the announcement behind them is not looked at. */
  lemma DirectCopyTooSoon(uuid: seq<byte>)
    ensures var h, r := Disguised(), Disguised().Record();
            && h.Valid() && h.Selects13() && |r| == 61
            && var packets := InFour(r);
            var events := FromTarget(packets);
            && Legal(events) && Downlinks(events) == packets
            && !Run(uuid, events).tls.enableXtls && Spliced(packets, 4)
  {
    DisguisedParts();
    DisguisedAnnounces();
    hide ServerHello.Record, ServerHello.Valid, ServerHello.Selects13, Spliced, FromTarget, Run, Disguised;
    var r := Disguised().Record();
    ThreeAreFiltered(uuid, r[..44], r[44..50], r[50..55], r[55..]);
  }
}
