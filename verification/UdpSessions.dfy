// The client's UDP sessions: the key a destination is filed under, the frame sent for an
// application's datagram, and what comes back from a session's stream.
module UdpSessions {
  import opened Bytes
  import opened Streams
  import opened BufferedStream
  import opened Decimal
  import S = Socks5
  import V = VlessHeader
  import U = UdpRelay

  // ---- The key of a session ----

  function TypeOf(a: V.Address): byte {
    match a
    case IPv4(_) => S.ATYP_IPV4
    case IPv6(_) => S.ATYP_IPV6
    case Domain(_) => S.ATYP_DOMAIN
  }

  function Dotted(ip: seq<byte>): string
    requires |ip| == 4
  {
    Natural(ip[0]) + "." + (Natural(ip[1]) + "." + (Natural(ip[2]) + "." + Natural(ip[3])))
  }

  function Name(name: seq<byte>): string {
    seq(|name|, i requires 0 <= i < |name| => name[i] as char)
  }

  /** Address::toString; ntop stands for inet_ntop. */
  function AddressText(a: V.Address, ntop: seq<byte> -> string): string
    requires a.Valid()
  {
    match a
    case IPv4(ip) => Dotted(ip)
    case IPv6(ip) => ntop(ip)
    case Domain(name) => Name(name)
  }

  function MakeKey(a: V.Address, port: nat, ntop: seq<byte> -> string): string
    requires a.Valid()
  {
    Natural(TypeOf(a)) + "|" + (AddressText(a, ntop) + ":" + Natural(port))
  }

  /** Two destinations share a session exactly when they are the same, or are IPv6 addresses
      that inet_ntop prints alike on the same port. In particular a domain that looks like an
      address, or contains the separators, is never confused with another destination. */
  lemma KeysDecideDestinations(a: V.Address, p: nat, b: V.Address, q: nat, ntop: seq<byte> -> string)
    requires a.Valid() && b.Valid()
    ensures MakeKey(a, p, ntop) == MakeKey(b, q, ntop) <==>
              p == q && (a == b || (a.IPv6? && b.IPv6? && ntop(a.ip) == ntop(b.ip)))
  {
    hide Natural, AddressText;
    if MakeKey(a, p, ntop) == MakeKey(b, q, ntop) {
      var s, t := AddressText(a, ntop) + ":" + Natural(p), AddressText(b, ntop) + ":" + Natural(q);
      NaturalReadBack(TypeOf(a));
      NaturalReadBack(TypeOf(b));
      FirstSplit(Natural(TypeOf(a)), '|', s, Natural(TypeOf(b)), t);
      NaturalReadBack(p);
      NaturalReadBack(q);
      LastSplit(AddressText(a, ntop), ':', Natural(p), AddressText(b, ntop), Natural(q));
      assert p == q && TypeOf(a) == TypeOf(b);
      TextsDecide(a, b, ntop);
    } else {
      TextsDecide(a, b, ntop);
    }
  }

  lemma TextsDecide(a: V.Address, b: V.Address, ntop: seq<byte> -> string)
    requires a.Valid() && b.Valid()
    ensures TypeOf(a) == TypeOf(b) && AddressText(a, ntop) == AddressText(b, ntop) <==>
              a == b || (a.IPv6? && b.IPv6? && ntop(a.ip) == ntop(b.ip))
  {
    if a.IPv4? && b.IPv4? {
      hide Natural;
      DottedDecides(a.ip, b.ip);
    } else if a.Domain? && b.Domain? {
      hide Natural;
      NameDecides(a.name, b.name);
    }
  }

  lemma NameDecides(a: seq<byte>, b: seq<byte>)
    ensures Name(a) == Name(b) ==> a == b
  {
    if Name(a) == Name(b) {
      assert |a| == |Name(a)| == |b|;
      forall i | 0 <= i < |a|
        ensures a[i] == b[i]
      {
        assert Name(a)[i] == a[i] as char && Name(b)[i] == b[i] as char;
      }
    }
  }

  lemma DottedDecides(a: seq<byte>, b: seq<byte>)
    requires |a| == 4 && |b| == 4
    ensures Dotted(a) == Dotted(b) ==> a == b
  {
    hide Natural;
    forall i | 0 <= i < 4
      ensures AllDigits(Natural(a[i])) && AllDigits(Natural(b[i]))
      ensures Natural(a[i]) == Natural(b[i]) ==> a[i] == b[i]
    {
      NaturalReadBack(a[i]);
      NaturalReadBack(b[i]);
    }
    if Dotted(a) == Dotted(b) {
      var a2, b2 := Natural(a[2]) + "." + Natural(a[3]), Natural(b[2]) + "." + Natural(b[3]);
      var a1, b1 := Natural(a[1]) + "." + a2, Natural(b[1]) + "." + b2;
      FirstSplit(Natural(a[0]), '.', a1, Natural(b[0]), b1);
      FirstSplit(Natural(a[1]), '.', a2, Natural(b[1]), b2);
      FirstSplit(Natural(a[2]), '.', Natural(a[3]), Natural(b[2]), Natural(b[3]));
      assert a == [a[0], a[1], a[2], a[3]] && b == [b[0], b[1], b[2], b[3]];
    }
  }

  lemma FirstSplit(x: string, mark: char, s: string, y: string, t: string)
    requires AllDigits(x) && AllDigits(y) && !Json.IsDigit(mark)
    requires x + [mark] + s == y + [mark] + t
    ensures x == y && s == t
  {
    var u, v := x + [mark] + s, y + [mark] + t;
    assert u[|x|] == mark && v[|y|] == mark;
    assert forall i :: 0 <= i < |x| ==> Json.IsDigit(u[i]);
    assert forall i :: 0 <= i < |y| ==> Json.IsDigit(v[i]);
    assert u[..|x|] == x && v[..|y|] == y && u[|x| + 1..] == s && v[|y| + 1..] == t;
  }

  lemma LastSplit(s: string, mark: char, x: string, t: string, y: string)
    requires AllDigits(x) && AllDigits(y) && !Json.IsDigit(mark)
    requires s + [mark] + x == t + [mark] + y
    ensures x == y && s == t
  {
    var u, v := s + [mark] + x, t + [mark] + y;
    assert u[|s|] == mark && v[|t|] == mark;
    assert forall i :: |s| < i < |u| ==> Json.IsDigit(u[i]);
    assert forall i :: |t| < i < |v| ==> Json.IsDigit(v[i]);
    assert u[..|s|] == s && v[..|t|] == t && u[|s| + 1..] == x && v[|t| + 1..] == y;
  }

  // ---- From the application to the target ----

  /** What recvLoop writes to the session for a datagram from the application. */
  function Outgoing(datagram: seq<byte>): Option<(V.Address, int, seq<byte>)> {
    match S.DatagramOf(datagram)
    case None => None
    case Some(d) => if d.payload == [] then None else Some((d.address, d.port, U.FrameOf(d.payload)))
  }

  method RecvOne(datagram: seq<byte>) returns (r: Option<(V.Address, int, seq<byte>)>)
    ensures r == Outgoing(datagram)
  {
    hide S.DatagramOf;
    var d := S.ParseUdpDatagram(datagram);
    if d.None? {
      return None;
    }
    var payload := d.value.payload;
    if |payload| == 0 {
      return None;
    }
    var len := |payload| % 0x1_0000;
    LowHalf(|payload|);
    var framed := [Hi(len), Lo(len)];
    framed := framed + payload;
    return Some((d.value.address, d.value.port, framed));
  }

  lemma LowHalf(n: nat)
    ensures Hi(n % 0x1_0000) == Hi(n) && Lo(n % 0x1_0000) == Lo(n)
  {
    var high := n / 0x1_0000;
    assert n == 0x1_0000 * high + n % 0x1_0000;
    assert n / 256 == 256 * high + n % 0x1_0000 / 256;
  }

  /** A payload an application addresses to a target goes to that target's session, and is what
      the server's relay takes out of the session's stream. */
  lemma DatagramReachesTarget(a: V.Address, port: int, payload: seq<byte>)
    requires a.Valid() && (a.Domain? ==> |a.name| <= 255) && 0 <= port < 0x1_0000 && 0 < |payload| <= 0xFFFF
    ensures var sent := Outgoing([0x00, 0x00, 0x00] + S.AddrPortBytes(a, port) + payload);
            && sent.Some? && sent.value.0 == a && sent.value.1 == port
            && U.Deframe(sent.value.2) == U.Deframed([payload], [])
  {
    S.DatagramRoundTrip(a, port, payload);
    hide S.DatagramOf, S.AddrPortBytes;
    U.DeframeOne(payload, []);
    U.DeframeStep([]);
    hide U.FrameOf, U.Deframe;
    assert U.FrameOf(payload) + [] == U.FrameOf(payload);
  }

  /** A datagram is sent on exactly when it is whole, no fragment, and carries something: then to
      its own target, and framed as the server's deframer expects it. */
  lemma OutgoingExactly(datagram: seq<byte>)
    requires |datagram| <= 0xFFFF
    ensures Outgoing(datagram).Some? <==> exists d: S.Datagram :: S.DatagramOf(datagram) == Some(d) && d.payload != []
    ensures Outgoing(datagram).Some? ==>
              exists d: S.Datagram ::
                && S.DatagramOf(datagram) == Some(d)
                && Outgoing(datagram).value.0 == d.address && Outgoing(datagram).value.1 == d.port
                && U.Deframe(Outgoing(datagram).value.2) == U.Deframed([d.payload], [])
  {
    hide S.DatagramOf;
    if S.DatagramOf(datagram).Some? {
      var d := S.DatagramOf(datagram).value;
      PayloadFits(datagram);
      if d.payload != [] {
        U.DeframeOne(d.payload, []);
        U.DeframeStep([]);
        hide U.FrameOf, U.Deframe;
        assert U.FrameOf(d.payload) + [] == U.FrameOf(d.payload);
      }
    }
  }

  lemma PayloadFits(datagram: seq<byte>)
    ensures S.DatagramOf(datagram).Some? ==> |S.DatagramOf(datagram).value.payload| <= |datagram|
  {
    hide S.AddrPortBytes;
    if S.DatagramOf(datagram).Some? {
      S.DatagramExactly(datagram, S.DatagramOf(datagram).value);
    }
  }

  // ---- From the target back to the application ----

  /** What sessionOutTask makes of the pieces it reads: the whole frames of each piece, with
      the part frame at its end dropped. */
  function Delivered(chunks: seq<seq<byte>>): seq<seq<byte>> {
    if chunks == [] then [] else U.Deframe(chunks[0]).datagrams + Delivered(chunks[1..])
  }

  method SplitRead(data: seq<byte>) returns (payloads: seq<seq<byte>>)
    ensures payloads == U.Deframe(data).datagrams
  {
    hide U.Deframe;
    payloads := [];
    var pos := 0;
    assert data[0..] == data;
    while pos + 2 <= |data|
      invariant pos <= |data|
      invariant payloads + U.Deframe(data[pos..]).datagrams == U.Deframe(data).datagrams
    {
      ghost var here := data[pos..];
      U.DeframeStep(here);
      var pktLen := Be16(data[pos], data[pos + 1]);
      if pos + 2 + pktLen > |data| {
        break;
      }
      U.SlicesOfRest(data, pos, 2, 2 + pktLen);
      ghost var rest := U.Deframe(data[pos + 2 + pktLen..]).datagrams;
      var payload := data[pos + 2..pos + 2 + pktLen];
      pos := pos + 2 + pktLen;
      // enqueueDatagram ignores an empty payload
      if payload != [] {
        assert payloads + ([payload] + rest) == payloads + [payload] + rest;
        payloads := payloads + [payload];
      }
    }
    U.DeframeStep(data[pos..]);
  }

  /** The SOCKS5 datagrams queued for the application. */
  function Encoded(a: V.Address, port: int, payloads: seq<seq<byte>>): seq<seq<byte>>
    requires a.Valid() && (a.Domain? ==> |a.name| <= 255)
    decreases |payloads|
  {
    if payloads == [] then []
    else [[0x00, 0x00, 0x00] + S.AddrPortBytes(a, port) + payloads[0]] + Encoded(a, port, payloads[1..])
  }

  lemma {:induction false} EncodedConcat(a: V.Address, port: int, p: seq<seq<byte>>, q: seq<seq<byte>>)
    requires a.Valid() && (a.Domain? ==> |a.name| <= 255)
    ensures Encoded(a, port, p + q) == Encoded(a, port, p) + Encoded(a, port, q)
    decreases |p|
  {
    hide S.AddrPortBytes;
    if p == [] {
      assert p + q == q;
    } else {
      assert (p + q)[1..] == p[1..] + q;
      EncodedConcat(a, port, p[1..], q);
    }
  }

  /** What the application makes of a queue: each datagram parses to the session's destination and
      port and to one of the payloads, in order. */
  ghost predicate Understood(queue: seq<seq<byte>>, a: V.Address, port: int, payloads: seq<seq<byte>>) {
    && |queue| == |payloads|
    && forall i :: 0 <= i < |queue| ==> S.DatagramOf(queue[i]) == Some(S.Datagram(a, port, payloads[i]))
  }

  lemma {:induction false} EncodedUnderstood(a: V.Address, port: int, payloads: seq<seq<byte>>)
    requires a.Valid() && (a.Domain? ==> |a.name| <= 255) && 0 <= port < 0x1_0000
    ensures Understood(Encoded(a, port, payloads), a, port, payloads)
    decreases |payloads|
  {
    hide S.DatagramOf, S.AddrPortBytes;
    if payloads != [] {
      S.DatagramRoundTrip(a, port, payloads[0]);
      EncodedUnderstood(a, port, payloads[1..]);
    }
  }

  lemma UnderstoodOnce(queue: seq<seq<byte>>, a: V.Address, port: int, p: seq<seq<byte>>, q: seq<seq<byte>>)
    requires Understood(queue, a, port, p) && Understood(queue, a, port, q)
    ensures p == q
  {
    hide S.DatagramOf;
    assert forall i :: 0 <= i < |queue| ==> S.DatagramOf(queue[i]) == Some(S.Datagram(a, port, p[i]));
  }

  /** sessionOutTask for a session with this destination. The loop tests before each read that
      the session is alive and the relay not closed; `turns` is how often they hold. */
  method SessionOut(stream: Source, dest: V.Address, port: int, turns: nat) returns (queued: seq<seq<byte>>)
    requires stream.Valid() && dest.Valid() && (dest.Domain? ==> |dest.name| <= 255)
    modifies stream
    ensures queued == Encoded(dest, port, Delivered(Upto(old(stream.chunks), turns)))
    ensures 0 <= port < 0x1_0000 ==> Understood(queued, dest, port, Delivered(Upto(old(stream.chunks), turns)))
  {
    if 0 <= port < 0x1_0000 {
      EncodedUnderstood(dest, port, Delivered(Upto(stream.chunks, turns)));
    }
    hide Understood;
    hide U.Deframe, S.AddrPortBytes, Delivered, Upto, Encoded;
    queued := [];
    ghost var all := Delivered(Upto(stream.chunks, turns));
    ghost var payloads: seq<seq<byte>> := [];
    var turn := 0;
    Nothing(dest, port, all);
    while turn < turns
      invariant stream.Valid() && turn <= turns
      invariant queued == Encoded(dest, port, payloads)
      invariant payloads + Delivered(Upto(stream.chunks, turns - turn)) == all
    {
      OneTurn(stream.chunks, turns - turn, payloads);
      var rr := stream.Read();
      if rr.Eof() || rr.Error() {
        return;
      }
      var split := SplitRead(rr.data);
      turn := turn + 1;
      EncodedConcat(dest, port, payloads, split);
      payloads := payloads + split;
      queued := EnqueueAll(queued, dest, port, split);
    }
    OneTurn(stream.chunks, 0, payloads);
  }

  lemma Nothing(a: V.Address, port: int, all: seq<seq<byte>>)
    requires a.Valid() && (a.Domain? ==> |a.name| <= 255)
    ensures Encoded(a, port, []) == [] && [] + all == all
  {
  }

  lemma OneTurn(chunks: seq<seq<byte>>, n: nat, payloads: seq<seq<byte>>)
    ensures n == 0 || chunks == [] ==> payloads + Delivered(Upto(chunks, n)) == payloads
    ensures n > 0 && chunks != [] ==>
              payloads + Delivered(Upto(chunks, n))
              == payloads + U.Deframe(chunks[0]).datagrams + Delivered(Upto(chunks[1..], n - 1))
  {
    hide U.Deframe;
    if n > 0 && chunks != [] {
      var head, tail := U.Deframe(chunks[0]).datagrams, Delivered(Upto(chunks[1..], n - 1));
      assert Upto(chunks, n)[1..] == Upto(chunks[1..], n - 1);
      assert payloads + (head + tail) == payloads + head + tail;
    }
  }

  /** The first n pieces, or all there are. */
  function Upto(chunks: seq<seq<byte>>, n: nat): seq<seq<byte>>
    decreases n
  {
    if n == 0 || chunks == [] then [] else [chunks[0]] + Upto(chunks[1..], n - 1)
  }

  /** enqueueDatagram for each of the payloads. */
  method EnqueueAll(queue: seq<seq<byte>>, dest: V.Address, port: int, payloads: seq<seq<byte>>)
    returns (queued: seq<seq<byte>>)
    requires dest.Valid() && (dest.Domain? ==> |dest.name| <= 255)
    ensures queued == queue + Encoded(dest, port, payloads)
  {
    hide S.AddrPortBytes;
    queued := queue;
    assert payloads[0..] == payloads;
    for i := 0 to |payloads|
      invariant queued + Encoded(dest, port, payloads[i..]) == queue + Encoded(dest, port, payloads)
    {
      assert payloads[i..][1..] == payloads[i + 1..];
      var d := S.EncodeUdpDatagram(dest, port, payloads[i]);
      assert queued + ([d.value] + Encoded(dest, port, payloads[i + 1..]))
          == queued + [d.value] + Encoded(dest, port, payloads[i + 1..]);
      queued := queued + [d.value];
    }
    assert queued + [] == queued;
  }

  /** A session from the response on: what was read along with the response header is handed
      back by the handshake, and dropped; the rest of the stream is the session's. */
  method Session(source: Source, dest: V.Address, port: int, turns: nat) returns (ok: bool, queued: seq<seq<byte>>)
    requires source.Valid() && dest.Valid() && (dest.Domain? ==> |dest.name| <= 255)
    modifies source
    ensures var behind := V.ParseResponse(Flatten(old(source.chunks)));
            && ok == behind.Some?
            && (ok ==>
                  var left := AllBut(old(source.chunks), |behind.value|);
                  && queued == Encoded(dest, port, Delivered(Upto(left.chunks, turns)))
                  && (0 <= port < 0x1_0000 ==> Understood(queued, dest, port, Delivered(Upto(left.chunks, turns)))))
            && (!ok ==> queued == [])
  {
    hide Understood, AllBut, Delivered, Upto, Encoded, V.ParseResponse;
    var stream := new UringBufferedStream(source);
    ok := V.DecodeResponse(stream);
    if !ok {
      return false, [];
    }
    stream.HoldsWhatWasReadAlong();
    var remaining := stream.DrainRemaining();
    queued := SessionOut(source, dest, port, turns);
  }

  function Size(ds: seq<seq<byte>>): nat {
    if ds == [] then 0 else 2 + |ds[0]| + Size(ds[1..])
  }

  lemma {:induction false} SizeConcat(a: seq<seq<byte>>, b: seq<seq<byte>>)
    ensures Size(a + b) == Size(a) + Size(b)
  {
    if a == [] {
      assert a + b == b;
    } else {
      assert (a + b)[1..] == a[1..] + b;
      SizeConcat(a[1..], b);
    }
  }

  lemma {:induction false} SizeOfFrames(ds: seq<seq<byte>>)
    requires U.Framable(ds)
    ensures |Flatten(U.FramesFor(ds))| == Size(ds)
    decreases |ds|
  {
    U.FramesForStep(ds);
    if ds != [] {
      SizeOfFrames(ds[1..]);
      assert U.FramesFor(ds)[1..] == U.FramesFor(ds[1..]);
    }
  }

  lemma {:induction false} DeframedFits(s: seq<byte>)
    ensures Size(U.Deframe(s).datagrams) + |U.Deframe(s).rest| <= |s|
    decreases |s|
  {
    hide U.Deframe;
    U.DeframeStep(s);
    if U.Whole(s) {
      var n := U.FrameLen(s);
      DeframedFits(s[n..]);
      if n > 2 {
        SizeConcat([s[2..n]], U.Deframe(s[n..]).datagrams);
        assert Size([s[2..n]]) == n;
      } else {
        assert [] + U.Deframe(s[n..]).datagrams == U.Deframe(s[n..]).datagrams;
      }
    }
  }

  /** Every read ends where a frame ends. */
  ghost predicate WholeReads(chunks: seq<seq<byte>>) {
    forall i :: 0 <= i < |chunks| ==> U.Deframe(chunks[i]).rest == []
  }

  lemma {:induction false} DeliveredFits(chunks: seq<seq<byte>>)
    ensures Size(Delivered(chunks)) <= |Flatten(chunks)|
    ensures !WholeReads(chunks) ==> Size(Delivered(chunks)) < |Flatten(chunks)|
  {
    hide U.Deframe;
    if chunks != [] {
      DeframedFits(chunks[0]);
      DeliveredFits(chunks[1..]);
      SizeConcat(U.Deframe(chunks[0]).datagrams, Delivered(chunks[1..]));
      if U.Deframe(chunks[0]).rest == [] && WholeReads(chunks[1..]) {
        assert forall i :: 0 < i < |chunks| ==> chunks[i] == chunks[1..][i - 1];
      }
    }
  }

  lemma {:induction false} WholeReadsDeliver(chunks: seq<seq<byte>>)
    requires WholeReads(chunks)
    ensures U.Deframe(Flatten(chunks)).datagrams == Delivered(chunks)
  {
    hide U.Deframe;
    if chunks == [] {
      U.DeframeStep([]);
    } else {
      assert forall i :: 0 <= i < |chunks| - 1 ==> chunks[1..][i] == chunks[i + 1];
      WholeReadsDeliver(chunks[1..]);
      U.DeframeConcat(chunks[0], Flatten(chunks[1..]));
      assert [] + Flatten(chunks[1..]) == Flatten(chunks[1..]);
    }
  }

  /** The server's frames reach the application as the datagrams they carry exactly when every
      read of the session's stream happens to end where a frame ends: otherwise a datagram is
      lost, for the tail of a read is dropped. */
  lemma DownlinkLosesNothingExactlyOnWholeReads(ds: seq<seq<byte>>, chunks: seq<seq<byte>>)
    requires U.Framable(ds) && Flatten(chunks) == Flatten(U.FramesFor(ds))
    ensures Delivered(chunks) == ds <==> WholeReads(chunks)
  {
    SizeOfFrames(ds);
    DeliveredFits(chunks);
    if WholeReads(chunks) {
      WholeReadsDeliver(chunks);
      U.FramingRoundTrip(ds);
    }
  }

  /** With the response header in front, and an empty buffer to begin with: the frames reach the
      application as their datagrams exactly when nothing is read along with the header and
      every later read ends where a frame ends. */
  lemma SessionLosesNothingExactly(response: seq<byte>, ds: seq<seq<byte>>, chunks: seq<seq<byte>>)
    requires V.ParseResponse(response) == Some([]) && U.Framable(ds)
    requires Flatten(chunks) == response + Flatten(U.FramesFor(ds))
    ensures V.ParseResponse(Flatten(chunks)) == Some(Flatten(U.FramesFor(ds)))
    ensures var r := AllBut(chunks, |Flatten(U.FramesFor(ds))|);
            Delivered(r.chunks) == ds <==> r.held == [] && WholeReads(r.chunks)
  {
    ResponseInFront(response, Flatten(U.FramesFor(ds)));
    hide U.Framable, U.FramesFor, V.ParseResponse, Took;
    var frames, start := Flatten(U.FramesFor(ds)), Reading([], chunks);
    var r := Took(start, |response|);
    assert start.Bytes() == response + frames;
    TookRest(start, |response|);
    assert r.Bytes() == frames;
    SizeOfFrames(ds);
    DeliveredFits(r.chunks);
    if r.held == [] {
      assert r.Bytes() == Flatten(r.chunks);
      DownlinkLosesNothingExactlyOnWholeReads(ds, r.chunks);
    }
  }

  lemma {:induction false} UptoAll(chunks: seq<seq<byte>>, turns: nat)
    requires turns >= |chunks|
    ensures Upto(chunks, turns) == chunks
    decreases turns
  {
    if chunks != [] {
      UptoAll(chunks[1..], turns - 1);
      assert chunks == [chunks[0]] + chunks[1..];
    }
  }

  /** So the application parses exactly the server's datagrams out of the queue that Session makes
      of a stream, when the session goes on to its end, under the same condition. */
  lemma ApplicationGetsAllExactly(response: seq<byte>, ds: seq<seq<byte>>, chunks: seq<seq<byte>>,
                                  dest: V.Address, port: int, turns: nat, queued: seq<seq<byte>>)
    requires V.ParseResponse(response) == Some([]) && U.Framable(ds)
    requires Flatten(chunks) == response + Flatten(U.FramesFor(ds))
    requires var r := AllBut(chunks, |Flatten(U.FramesFor(ds))|);
             turns >= |r.chunks| && Understood(queued, dest, port, Delivered(Upto(r.chunks, turns)))
    ensures var r := AllBut(chunks, |Flatten(U.FramesFor(ds))|);
            Understood(queued, dest, port, ds) <==> r.held == [] && WholeReads(r.chunks)
  {
    var r := AllBut(chunks, |Flatten(U.FramesFor(ds))|);
    UptoAll(r.chunks, turns);
    SessionLosesNothingExactly(response, ds, chunks);
    hide Understood, AllBut, U.Framable, U.FramesFor, V.ParseResponse, WholeReads, Delivered;
    if Understood(queued, dest, port, ds) {
      UnderstoodOnce(queued, dest, port, ds, Delivered(r.chunks));
    }
  }

  lemma ResponseInFront(response: seq<byte>, rest: seq<byte>)
    requires V.ParseResponse(response) == Some([])
    ensures V.ParseResponse(response + rest) == Some(rest)
  {
    var n: nat := 2 + response[1] as int;
    assert response[n..] == [] && n == |response|;
    assert (response + rest)[n..] == rest;
  }

  /** A frame read together with the response is lost, although every later read is whole. */
  lemma FrameBehindResponseIsLost()
    ensures Flatten<byte>([[0, 0, 0, 1, 7]]) == V.EncodeResponse(0) + Flatten(U.FramesFor([[7]]))
    ensures AllBut([[0, 0, 0, 1, 7]], 3) == Reading([0, 1, 7], [])
    ensures WholeReads([]) && Delivered([]) == []
  {
    var chunks: seq<seq<byte>> := [[0, 0, 0, 1, 7]];
    FlattenOne(chunks[0]);
    assert U.FramesFor([[7]]) == [U.FrameFor([7])] + U.FramesFor([]);
    assert U.FrameOf([7]) == [0, 1, 7];
    FlattenOne<byte>([0, 1, 7]);
    AllInOnePiece(chunks[0], 3);
  }

  /** A frame of one byte cut behind its length loses that byte: both reads are dropped. */
  lemma CutFrameIsLost()
    ensures Flatten([[0, 1], [7]]) == Flatten(U.FramesFor([[7]])) && !WholeReads([[0, 1], [7]])
    ensures Delivered([[0, 1], [7]]) == []
  {
    var chunks: seq<seq<byte>> := [[0, 1], [7]];
    hide U.Deframe;
    U.DeframeStep([0, 1]);
    U.DeframeStep([7]);
    assert chunks[1..] == [[7]] && chunks[1..][1..] == [];
    assert Delivered(chunks[1..]) == [] + Delivered([]);
    assert U.Deframe(chunks[0]).rest == [0, 1];
    assert U.FramesFor([[7]]) == [U.FrameFor([7])] + U.FramesFor([]);
    assert U.FrameOf([7]) == [0, 1, 7] && Flatten([[0, 1, 7]]) == [0, 1, 7] + Flatten([]);
    assert Flatten(chunks) == [0, 1] + ([7] + Flatten([]));
  }
}
