// What filterTls makes of a ServerHello laid out as in section 4.1.3 of RFC 8446: fields it
// reads by offset, against the message it was built from.
module VisionHello {
  import opened Bytes
  import opened VisionContext
  import W = VisionWriter

  datatype Extension = Extension(kind: int, data: seq<byte>) {
    predicate Valid() {
      0 <= kind < 0x1_0000 && |data| < 0x1_0000
    }

    function Text(): seq<byte> {
      [Hi(kind), Lo(kind), Hi(|data|), Lo(|data|)] + data
    }
  }

  // supported_versions, which selects TLS 1.3 by 0x0304 (section 4.2.1 of RFC 8446)
  const VERSION_13 := Extension(0x002b, [0x03, 0x04])

  function ExtensionsText(extensions: seq<Extension>): seq<byte> {
    if extensions == [] then [] else extensions[0].Text() + ExtensionsText(extensions[1..])
  }

  datatype ServerHello = ServerHello(
    length: seq<byte>,        // the handshake length, not looked at
    random: seq<byte>,
    sessionId: seq<byte>,
    cipher: int,
    compression: byte,
    extensions: seq<Extension>,
    behind: seq<byte>)        // further handshake messages in the same record
  {
    predicate Valid() {
      && |length| == 3 && |random| == 32 && |sessionId| <= 32
      && 0 <= cipher < 0x1_0000 && |Body()| < 0x1_0000
      && forall i :: 0 <= i < |extensions| ==> extensions[i].Valid()
    }

    /** What follows the cipher suite; without extensions their block is absent. */
    function Rest(): seq<byte> {
      var text := ExtensionsText(extensions);
      [compression] + (if extensions == [] then [] else [Hi(|text|), Lo(|text|)] + text) + behind
    }

    function Body(): seq<byte> {
      [0x02] + length + [0x03, 0x03] + random
      + [if |sessionId| < 256 then |sessionId| else 0] + sessionId + [Hi(cipher), Lo(cipher)] + Rest()
    }

    /** The handshake record that carries it. */
    function Record(): seq<byte> {
      [0x16, 0x03, 0x03, Hi(|Body()|), Lo(|Body()|)] + Body()
    }

    /** The message selects TLS 1.3. */
    predicate Selects13() {
      VERSION_13 in extensions
    }
  }

  // ---- A real announcement is always in the record ----

  lemma {:induction false} ExtensionOccurs(extensions: seq<Extension>)
    requires VERSION_13 in extensions
    ensures Announces13(ExtensionsText(extensions))
  {
    hide Announces13;
    if extensions[0] == VERSION_13 {
      assert VERSION_13.Text() == SUPPORTED_VERSIONS;
      SixBytesOccur();
    } else {
      ExtensionOccurs(extensions[1..]);
    }
    AnnouncesInConcat(extensions[0].Text(), ExtensionsText(extensions[1..]));
  }

  lemma SixBytesOccur()
    ensures Announces13(SUPPORTED_VERSIONS)
  {
    assert SUPPORTED_VERSIONS[0..6] == SUPPORTED_VERSIONS;
    assert Announces13At(SUPPORTED_VERSIONS, 0);
  }

  /** A message that selects TLS 1.3 has the six bytes that filterTls looks for. */
  lemma SelectionOccurs(h: ServerHello)
    ensures h.Selects13() ==> Announces13(h.Record())
  {
    if h.Selects13() {
      ExtensionOccurs(h.extensions);
      var text := ExtensionsText(h.extensions);
      hide Announces13, ExtensionsText, Hi, Lo;
      var block := [Hi(|text|), Lo(|text|)] + text;
      AnnouncesInConcat([Hi(|text|), Lo(|text|)], text);
      AnnouncesInConcat([h.compression], block);
      AnnouncesInConcat([h.compression] + block, h.behind);
      RestOccurs(h);
    }
  }

  lemma RestOccurs(h: ServerHello)
    ensures Announces13(h.Rest()) ==> Announces13(h.Record())
  {
    hide Announces13, ServerHello.Rest;
    var front := [0x02] + h.length + [0x03, 0x03] + h.random
      + [if |h.sessionId| < 256 then |h.sessionId| else 0] + h.sessionId + [Hi(h.cipher), Lo(h.cipher)];
    AnnouncesInConcat(front, h.Rest());
    assert h.Body() == front + h.Rest();
    hide ServerHello.Body;
    AnnouncesInConcat([0x16, 0x03, 0x03, Hi(|h.Body()|), Lo(|h.Body()|)], h.Body());
  }

  lemma AnnouncesInConcat(a: seq<byte>, b: seq<byte>)
    ensures Announces13(a) || Announces13(b) ==> Announces13(a + b)
  {
    if Announces13(a) {
      var i :| Announces13At(a, i);
      assert (a + b)[i..i + 6] == a[i..i + 6];
      assert Announces13At(a + b, i);
    } else if Announces13(b) {
      var i :| Announces13At(b, i);
      var j := |a| + i;
      assert (a + b)[j..j + 6] == b[i..i + 6];
      assert Announces13At(a + b, j);
    }
  }

  // ---- The fields of a record ----

  /** The fields where filterTls looks for them. */
  lemma FieldsByOffset(h: ServerHello)
    requires h.Valid()
    ensures var r := h.Record();
            && |r| == 5 + |h.Body()| && |r| >= 46 + |h.sessionId| && IsServerHello(r)
            && Be16(r[3], r[4]) + 5 == |r| && r[43] == |h.sessionId|
            && Be16(r[43 + |h.sessionId| + 1], r[43 + |h.sessionId| + 2]) == h.cipher
  {
    Be16OfHiLo(|h.Body()|);
    Be16OfHiLo(h.cipher);
    hide Hi, Lo, Be16, ServerHello.Rest;
    var n := |h.sessionId|;
    var front := [0x02] + h.length + [0x03, 0x03] + h.random;
    assert |front| == 38;
    assert h.Body() == front + [n] + h.sessionId + [Hi(h.cipher), Lo(h.cipher)] + h.Rest();
    assert h.Body()[0] == 0x02 && h.Body()[38] == n;
    assert h.Body()[38 + n + 1] == Hi(h.cipher) && h.Body()[38 + n + 2] == Lo(h.cipher);
  }

  /** The same fields in the first packet, which may end before or behind the record. */
  lemma FieldsInPacket(h: ServerHello, a: seq<byte>)
    requires h.Valid() && 6 <= |a| && (a <= h.Record() || h.Record() <= a)
    ensures IsServerHello(a) && Claimed(a) == |h.Record()|
    ensures CipherIn(a, |h.Record()|, 0) == if |a| >= 79 && |h.Record()| >= 79 then h.cipher else 0
  {
    FieldsByOffset(h);
    hide ServerHello.Record, ServerHello.Body;
    var r := h.Record();
    assert forall i :: 0 <= i < |a| && i < |r| ==> a[i] == r[i];
  }

  // ---- What any run of packets comes to ----

  /** The shared state after the writer has seen the packets. */
  ghost function SeenAll(t: Tls, packets: seq<seq<byte>>): Tls
    decreases |packets|
  {
    if packets == [] then t else SeenAll(W.Seen(t, packets[0]), packets[1..])
  }

  /** No ServerHello has been detected yet. */
  predicate Undetected(t: Tls) {
    !t.enableXtls && t.remainingServerHello <= 0 && t.cipher == 0
  }

  /** ... and the filter is open. */
  predicate Open(t: Tls) {
    t.packetsToFilter > 0 && Undetected(t)
  }

  /** The bytes in front of packet i. */
  function Passed(packets: seq<seq<byte>>, i: nat): nat
    requires i <= |packets|
  {
    |Flatten(packets[..i])|
  }

  /** The last packet up to i that begins like a ServerHello, or -1. */
  function Start(packets: seq<seq<byte>>, i: nat): (j: int)
    requires i < |packets|
    ensures -1 <= j <= i && (j >= 0 ==> IsServerHello(packets[j]))
  {
    if IsServerHello(packets[i]) then i else if i == 0 then -1 else Start(packets, i - 1)
  }

  /** The length that the header of a record claims, with the header. */
  function Claimed(a: seq<byte>): nat
    requires |a| >= 6
  {
    Be16(a[3], a[4]) + 5
  }

  /** What is claimed and has not passed in front of packet i. */
  function Left(packets: seq<seq<byte>>, i: nat): int
    requires i < |packets|
  {
    var j := Start(packets, i);
    if j < 0 then 0 else Claimed(packets[j]) - (Passed(packets, i) - Passed(packets, j))
  }

  /** The part of packet i that belongs to what was claimed. */
  function Scanned(packets: seq<seq<byte>>, i: nat): seq<byte>
    requires i < |packets|
  {
    First(packets[i], Left(packets, i))
  }

  function First(a: seq<byte>, n: int): seq<byte> {
    if n <= 0 then [] else if n < |a| then a[..n] else a
  }

  /** The cipher suite read up to packet i. */
  function Suite(packets: seq<seq<byte>>, i: nat): int
    requires i < |packets|
    decreases i
  {
    var j := Start(packets, i);
    if j < 0 then 0
    else CipherIn(packets[j], Claimed(packets[j]), if j == 0 then 0 else Suite(packets, j - 1))
  }

  /** Behind packet i the filter is still open, if packets are left to it. */
  ghost predicate GoesOn(packets: seq<seq<byte>>, i: nat)
    requires i < |packets|
  {
    Start(packets, i) < 0 || (Left(packets, i) > |packets[i]| && !Announces13(Scanned(packets, i)))
  }

  ghost predicate Reached(packets: seq<seq<byte>>, i: nat) {
    i < |packets| && forall m: nat :: m < i ==> GoesOn(packets, m)
  }

  /** A packet among the first n that the filter reaches holds the six bytes in the part it
      scans, and the suite read so far is not the excluded one. */
  ghost predicate Splices(packets: seq<seq<byte>>, i: nat) {
    Reached(packets, i) && Announces13(Scanned(packets, i)) && Suite(packets, i) != TLS_AES_128_CCM_8
  }

  ghost predicate Spliced(packets: seq<seq<byte>>, n: int) {
    exists i: nat :: i < n && Splices(packets, i)
  }

  lemma {:induction false} SeenConcat(t: Tls, a: seq<seq<byte>>, b: seq<seq<byte>>)
    ensures SeenAll(t, a + b) == SeenAll(SeenAll(t, a), b)
    decreases |a|
  {
    hide W.Seen;
    if a == [] {
      assert a + b == b;
    } else {
      assert (a + b)[1..] == a[1..] + b;
      SeenConcat(W.Seen(t, a[0]), a[1..], b);
    }
  }

  /** Seeing the packets up to and with i. */
  lemma SeenOneMore(t: Tls, packets: seq<seq<byte>>, i: nat)
    requires i < |packets|
    ensures SeenAll(t, packets[..i + 1]) == W.Seen(SeenAll(t, packets[..i]), packets[i])
    ensures SeenAll(t, packets) == SeenAll(SeenAll(t, packets[..i + 1]), packets[i + 1..])
    ensures Passed(packets, i + 1) == Passed(packets, i) + |packets[i]|
  {
    hide W.Seen;
    assert packets[..i + 1] == packets[..i] + [packets[i]];
    SeenConcat(t, packets[..i], [packets[i]]);
    FlattenSnoc(packets[..i], packets[i]);
    assert packets == packets[..i + 1] + packets[i + 1..];
    SeenConcat(t, packets[..i + 1], packets[i + 1..]);
  }

  lemma {:induction false} ClosedSeesNothing(t: Tls, packets: seq<seq<byte>>)
    requires t.packetsToFilter <= 0
    ensures SeenAll(t, packets) == t
    decreases |packets|
  {
    if packets != [] {
      ClosedSeesNothing(t, packets[1..]);
    }
  }

  /** The state s in front of packet i, when the filter is still open there. */
  ghost predicate Before(s: Tls, n: int, packets: seq<seq<byte>>, i: nat) {
    && i <= |packets| && s.packetsToFilter == n - i && !s.enableXtls
    && s.cipher == (if i == 0 then 0 else Suite(packets, i - 1))
    && (if i == 0 || Start(packets, i - 1) < 0 then s.remainingServerHello <= 0
        else 0 < s.remainingServerHello == Left(packets, i - 1) - |packets[i - 1]|)
  }

  /** One packet: what the filter scans, what suite it knows, and whether it goes on. */
  lemma OnePacketFiltered(s: Tls, n: int, packets: seq<seq<byte>>, i: nat)
    requires i < |packets| && i < n && Before(s, n, packets, i)
    requires Passed(packets, i + 1) == Passed(packets, i) + |packets[i]|
    requires i > 0 ==> Passed(packets, i) == Passed(packets, i - 1) + |packets[i - 1]|
    ensures var u := W.Seen(s, packets[i]);
            && (GoesOn(packets, i) ==> Before(u, n, packets, i + 1))
            && (!GoesOn(packets, i) ==> u.packetsToFilter <= 0)
            && (u.enableXtls <==> Announces13(Scanned(packets, i)) && Suite(packets, i) != TLS_AES_128_CCM_8)
  {
    var a := packets[i];
    var h := Hello(s.(packetsToFilter := s.packetsToFilter - 1), a);
    HelloOf(s, packets, i);
    NothingAnnounced();
    hide Announces13, IsServerHello, CipherIn, Hello, Passed, Start, Left, Suite;
    assert h.remainingServerHello > 0 ==> Window(h, a) == Scanned(packets, i);
  }

  lemma NothingAnnounced()
    ensures !Announces13([])
  {
  }

  /** The first half of the filter, in terms of the packets so far. */
  lemma HelloOf(s: Tls, packets: seq<seq<byte>>, i: nat)
    requires i < |packets| && Before(s, s.packetsToFilter + i, packets, i)
    requires i > 0 ==> Passed(packets, i) == Passed(packets, i - 1) + |packets[i - 1]|
    ensures var h := Hello(s.(packetsToFilter := s.packetsToFilter - 1), packets[i]);
            && h.packetsToFilter == s.packetsToFilter - 1 && !h.enableXtls
            && h.cipher == Suite(packets, i)
            && (if Start(packets, i) < 0 then h.remainingServerHello <= 0
                else h.remainingServerHello == Left(packets, i))
  {
    hide CipherIn, Passed;
    if i > 0 && !IsServerHello(packets[i]) {
      SuiteKept(packets, i);
    }
  }

  lemma SuiteKept(packets: seq<seq<byte>>, i: nat)
    requires 0 < i < |packets| && !IsServerHello(packets[i])
    ensures Start(packets, i) == Start(packets, i - 1) && Suite(packets, i) == Suite(packets, i - 1)
  {
    hide CipherIn, IsServerHello;
  }

  lemma {:induction false} SplicingFrom(t: Tls, packets: seq<seq<byte>>, i: nat)
    requires i <= |packets| && i <= t.packetsToFilter && forall m: nat :: m < i ==> GoesOn(packets, m)
    requires Before(SeenAll(t, packets[..i]), t.packetsToFilter, packets, i)
    requires i > 0 ==> Passed(packets, i) == Passed(packets, i - 1) + |packets[i - 1]|
    ensures SeenAll(t, packets).enableXtls <==> Spliced(packets, t.packetsToFilter)
    decreases |packets| - i
  {
    hide W.Seen, GoesOn, Suite, Scanned, Passed;
    NotSplicedBefore(packets, i);
    var s := SeenAll(t, packets[..i]);
    if i == |packets| {
      assert packets[..i] == packets;
    } else if i == t.packetsToFilter {
      assert packets == packets[..i] + packets[i..];
      SeenConcat(t, packets[..i], packets[i..]);
      ClosedSeesNothing(s, packets[i..]);
    } else {
      SeenOneMore(t, packets, i);
      OnePacketFiltered(s, t.packetsToFilter, packets, i);
      if GoesOn(packets, i) {
        SplicingFrom(t, packets, i + 1);
      } else {
        ClosedSeesNothing(W.Seen(s, packets[i]), packets[i + 1..]);
        OnlyHere(packets, i, t.packetsToFilter);
      }
    }
  }

  /** Where the filter goes on it has not enabled anything. */
  lemma NotSplicedBefore(packets: seq<seq<byte>>, i: nat)
    requires i <= |packets| && forall m: nat :: m < i ==> GoesOn(packets, m)
    ensures forall m: nat :: m < i ==> !Splices(packets, m)
    ensures i == |packets| ==> forall m: nat :: !Splices(packets, m)
  {
    NothingAnnounced();
    hide Announces13, Suite, Passed;
    forall m: nat | m < i
      ensures !Splices(packets, m)
    {
      assert GoesOn(packets, m);
      assert Start(packets, m) < 0 ==> Scanned(packets, m) == [];
    }
  }

  lemma OnlyHere(packets: seq<seq<byte>>, i: nat, n: int)
    requires i < |packets| && i < n && !GoesOn(packets, i) && forall m: nat :: m < i ==> GoesOn(packets, m)
    ensures Spliced(packets, n) <==> Announces13(Scanned(packets, i)) && Suite(packets, i) != TLS_AES_128_CCM_8
  {
    NotSplicedBefore(packets, i);
    hide GoesOn, Announces13, Scanned, Suite;
    assert Splices(packets, i) <==> Announces13(Scanned(packets, i)) && Suite(packets, i) != TLS_AES_128_CCM_8;
    forall m: nat | m > i
      ensures !Splices(packets, m)
    {
      assert !Reached(packets, m);
    }
  }

  /** After any packets splicing is enabled exactly when the filter reaches, among those it is
      open for, a packet that announces TLS 1.3 in the part that the last start of a
      ServerHello claims, with another suite than the excluded one. */
  lemma SeenSplices(t: Tls, packets: seq<seq<byte>>)
    requires Undetected(t) && t.packetsToFilter >= 0
    ensures SeenAll(t, packets).enableXtls <==> Spliced(packets, t.packetsToFilter)
  {
    assert packets[..0] == [];
    SplicingFrom(t, packets, 0);
  }

  // ---- A record that carries a ServerHello ----

  /** The shared state after the first packet, which may end before or behind the record. */
  lemma FirstPacket(h: ServerHello, t: Tls, a: seq<byte>)
    requires h.Valid() && Open(t) && 6 <= |a| && (a <= h.Record() || h.Record() <= a)
    ensures var s, record := W.Seen(t, a), |h.Record()|;
            && s.isTLS && s.isTLS12orAbove
            && s.cipher == (if |a| >= 79 && record >= 79 then h.cipher else 0)
            && s.enableXtls == (Announces13(First(a, record)) && s.cipher != TLS_AES_128_CCM_8)
            && s.packetsToFilter ==
               (if Announces13(First(a, record)) || |a| >= record then 0 else t.packetsToFilter - 1)
            && s.remainingServerHello == record - |a|
  {
    StartRead(h, t.(packetsToFilter := t.packetsToFilter - 1), a);
    hide ServerHello.Record, ServerHello.Valid, Announces13, Hello, First;
  }

  lemma StartRead(h: ServerHello, t: Tls, a: seq<byte>)
    requires h.Valid() && 6 <= |a| && (a <= h.Record() || h.Record() <= a) && t.cipher == 0
    ensures |h.Record()| > 0
    ensures Hello(t, a) == t.(remainingServerHello := |h.Record()|, isTLS := true, isTLS12orAbove := true,
                             cipher := if |a| >= 79 && |h.Record()| >= 79 then h.cipher else 0)
    ensures Window(Hello(t, a), a) == First(a, |h.Record()|)
  {
    FieldsInPacket(h, a);
    FieldsByOffset(h);
    hide ServerHello.Record, ServerHello.Body, IsServerHello, CipherIn;
  }

  /** A ServerHello in one packet: the cipher suite is read from 79 bytes on, the filter is
      closed in any case, and splicing is enabled exactly when the six bytes occur anywhere in
      the record and the suite, if it was read, is not the excluded one. That is right exactly
      when the excluded suite can be read or is not selected, or when neither the message
      selects TLS 1.3 nor the six bytes occur. */
  lemma WholeHelloUnderstood(h: ServerHello, t: Tls)
    requires h.Valid() && Open(t)
    ensures var s, r := W.Seen(t, h.Record()), h.Record();
            && s.isTLS && s.isTLS12orAbove && s.packetsToFilter == 0
            && (s.cipher == h.cipher <==> |r| >= 79 || h.cipher == 0)
            && (s.enableXtls <==> Announces13(r) && (h.cipher != TLS_AES_128_CCM_8 || |r| < 79))
            && (s.enableXtls == (h.Selects13() && h.cipher != TLS_AES_128_CCM_8) <==>
                  if h.cipher == TLS_AES_128_CCM_8 then |r| >= 79 || !Announces13(r)
                  else h.Selects13() || !Announces13(r))
  {
    FieldsByOffset(h);
    SelectionOccurs(h);
    hide ServerHello.Record, Announces13, ServerHello.Body, W.Seen, ServerHello.Selects13;
    FirstPacket(h, t, h.Record());
  }

  /** No packet behind the first begins like a ServerHello, as far as the filter looks at it:
      up to the end of a record whose start was recognised. */
  ghost predicate OneStart(packets: seq<seq<byte>>, record: nat)
    requires packets != []
  {
    forall i :: 0 < i < |packets| && (|packets[0]| < 6 || Passed(packets, i) < record) ==>
                  !IsServerHello(packets[i])
  }

  /** One of the first n packets holds the six bytes within the record. */
  ghost predicate AnnouncedWithin(packets: seq<seq<byte>>, record: nat, n: int) {
    exists i: nat :: i < n && AnnouncedAt(packets, record, i)
  }

  ghost predicate AnnouncedAt(packets: seq<seq<byte>>, record: nat, i: nat) {
    i < |packets| && Announces13(First(packets[i], record - Passed(packets, i)))
  }

  /** The first packet begins the record and is recognised, and no later one is taken for a start. */
  ghost predicate Carries(packets: seq<seq<byte>>, h: ServerHello) {
    && h.Valid() && packets != [] && OneStart(packets, |h.Record()|)
    && 6 <= |packets[0]| && (packets[0] <= h.Record() || h.Record() <= packets[0])
  }

  ghost predicate NoneAnnounced(packets: seq<seq<byte>>, record: nat, i: nat) {
    forall m: nat :: m < i ==> !AnnouncedAt(packets, record, m)
  }

  /** The first packet is recognised, and the announcement lies within one filtered packet. */
  ghost predicate Recognized(packets: seq<seq<byte>>, record: nat, n: int)
    requires packets != []
  {
    |packets[0]| >= 6 && AnnouncedWithin(packets, record, n)
  }

  lemma PassedOneMore(packets: seq<seq<byte>>, i: nat)
    requires i < |packets|
    ensures Passed(packets, i + 1) == Passed(packets, i) + |packets[i]|
  {
    assert packets[..i + 1] == packets[..i] + [packets[i]];
    FlattenSnoc(packets[..i], packets[i]);
  }

  /** Within the record the first packet is the only start, so it is what is scanned. */
  lemma {:induction false} StartsOnce(h: ServerHello, packets: seq<seq<byte>>, i: nat)
    requires i < |packets| && Carries(packets, h) && Passed(packets, i) < |h.Record()|
    ensures Start(packets, i) == 0 && Left(packets, i) == |h.Record()| - Passed(packets, i)
    ensures Suite(packets, i) == CipherIn(packets[0], |h.Record()|, 0)
  {
    FieldsInPacket(h, packets[0]);
    assert Passed(packets, 0) == 0;
    hide ServerHello.Record, IsServerHello, CipherIn, Passed, ServerHello.Valid;
    if i > 0 {
      PassedOneMore(packets, i - 1);
      StartsOnce(h, packets, i - 1);
    }
  }

  /** Inside a record with one start the filter goes on up to the announcement. */
  lemma {:induction false} ReachedWithin(h: ServerHello, packets: seq<seq<byte>>, i: nat)
    requires i < |packets| && Carries(packets, h)
    ensures Reached(packets, i) <==>
              && Passed(packets, i) < |h.Record()|
              && NoneAnnounced(packets, |h.Record()|, i)
  {
    FieldsByOffset(h);
    hide ServerHello.Record, ServerHello.Body, AnnouncedAt, Carries, GoesOn;
    if i == 0 {
      assert Passed(packets, 0) == 0;
    } else {
      hide Passed, ServerHello.Valid;
      ReachedWithin(h, packets, i - 1);
      ReachedOneMore(packets, i);
      PassedOneMore(packets, i - 1);
      NoneAnnouncedStep(packets, |h.Record()|, i);
      hide Reached, NoneAnnounced;
      assert Reached(packets, i - 1) ==> Passed(packets, i - 1) < |h.Record()|;
      if Passed(packets, i - 1) < |h.Record()| {
        GoesOnWithin(h, packets, i - 1);
      }
    }
  }

  lemma NoneAnnouncedStep(packets: seq<seq<byte>>, record: nat, i: nat)
    requires i > 0
    ensures NoneAnnounced(packets, record, i) <==>
              NoneAnnounced(packets, record, i - 1) && !AnnouncedAt(packets, record, i - 1)
  {
    hide AnnouncedAt;
  }

  lemma GoesOnWithin(h: ServerHello, packets: seq<seq<byte>>, i: nat)
    requires i < |packets| && Carries(packets, h) && Passed(packets, i) < |h.Record()|
    ensures GoesOn(packets, i) <==> Passed(packets, i + 1) < |h.Record()| && !AnnouncedAt(packets, |h.Record()|, i)
  {
    StartsOnce(h, packets, i);
    PassedOneMore(packets, i);
    hide Passed, Announces13, Start, Left, ServerHello.Record, First, Carries;
  }

  lemma ReachedOneMore(packets: seq<seq<byte>>, i: nat)
    requires 0 < i < |packets|
    ensures Reached(packets, i) <==> Reached(packets, i - 1) && GoesOn(packets, i - 1)
  {
    hide GoesOn;
  }

  /** A ServerHello cut into packets in any way, with anything behind it: when none but the first
      packet begins like a ServerHello, the first n packets enable splicing exactly when the
      first packet has the six bytes by which one is recognised, the announcement lies in one of
      them within the record, and the suite is not the excluded one or could not be read from
      the first packet. */
  lemma HelloSplices(h: ServerHello, packets: seq<seq<byte>>, n: int)
    requires h.Valid() && h.Record() <= Flatten(packets)
    requires forall i :: 0 <= i < |packets| ==> packets[i] != []
    ensures packets != []
    ensures OneStart(packets, |h.Record()|) ==>
              (Spliced(packets, n) <==>
                 && Recognized(packets, |h.Record()|, n)
                 && (h.cipher != TLS_AES_128_CCM_8 || |packets[0]| < 79 || |h.Record()| < 79))
  {
    FieldsByOffset(h);
    assert packets != [];
    var a := packets[0];
    assert a <= h.Record() || h.Record() <= a;
    hide ServerHello.Record, ServerHello.Body, ServerHello.Valid, Spliced;
    if OneStart(packets, |h.Record()|) {
      if |a| < 6 {
        NeverStarts(packets, |h.Record()|, n);
      } else {
        SplicedWithin(h, packets, n);
      }
    }
  }

  lemma {:induction false} NoStart(packets: seq<seq<byte>>, i: nat)
    requires i < |packets| && forall j :: 0 <= j <= i ==> !IsServerHello(packets[j])
    ensures Start(packets, i) == -1
  {
    hide IsServerHello;
    if i > 0 {
      NoStart(packets, i - 1);
    }
  }

  lemma NeverStarts(packets: seq<seq<byte>>, record: nat, n: int)
    requires packets != [] && |packets[0]| < 6 && OneStart(packets, record)
    ensures !Spliced(packets, n)
  {
    NothingAnnounced();
    assert !IsServerHello(packets[0]);
    hide Announces13, Start, IsServerHello;
    forall i: nat | i < |packets|
      ensures !Splices(packets, i)
    {
      NoStart(packets, i);
    }
  }

  lemma SplicedWithin(h: ServerHello, packets: seq<seq<byte>>, n: int)
    requires Carries(packets, h)
    ensures Spliced(packets, n) <==>
              && AnnouncedWithin(packets, |h.Record()|, n)
              && (h.cipher != TLS_AES_128_CCM_8 || |packets[0]| < 79 || |h.Record()| < 79)
  {
    var r := |h.Record()|;
    forall i: nat | i < |packets|
      ensures Splices(packets, i) ==> AnnouncedAt(packets, r, i)
      ensures Splices(packets, i) <==>
                && AnnouncedAt(packets, r, i) && NoneAnnounced(packets, r, i)
                && (h.cipher != TLS_AES_128_CCM_8 || |packets[0]| < 79 || r < 79)
    {
      SplicesWithin(h, packets, i);
    }
    hide Splices, AnnouncedAt;
    if AnnouncedWithin(packets, r, n) {
      var i: nat :| i < n && AnnouncedAt(packets, r, i);
      var first := FirstAnnounced(packets, r, i);
      assert first < |packets|;
    }
  }

  lemma SplicesWithin(h: ServerHello, packets: seq<seq<byte>>, i: nat)
    requires i < |packets| && Carries(packets, h)
    ensures Splices(packets, i) <==>
              && AnnouncedAt(packets, |h.Record()|, i)
              && NoneAnnounced(packets, |h.Record()|, i)
              && (h.cipher != TLS_AES_128_CCM_8 || |packets[0]| < 79 || |h.Record()| < 79)
  {
    ReachedWithin(h, packets, i);
    NothingAnnounced();
    FieldsInPacket(h, packets[0]);
    hide ServerHello.Record, ServerHello.Valid, Announces13, Reached, Start, Left, Suite, Passed, CipherIn, Carries;
    if Passed(packets, i) < |h.Record()| {
      StartsOnce(h, packets, i);
    }
  }

  lemma {:induction false} FirstAnnounced(packets: seq<seq<byte>>, record: nat, i: nat) returns (first: nat)
    requires AnnouncedAt(packets, record, i)
    ensures first <= i && first < |packets| && AnnouncedAt(packets, record, first)
    ensures NoneAnnounced(packets, record, first)
  {
    if m: nat :| m < i && AnnouncedAt(packets, record, m) {
      first := FirstAnnounced(packets, record, m);
    } else {
      first := i;
    }
  }

  // ---- Messages that are missed, and messages that are taken for others ----

  function Front(h: ServerHello): seq<byte> {
    [0x16, 0x03, 0x03, Hi(|h.Body()|), Lo(|h.Body()|), 0x02] + h.length + [0x03, 0x03]
  }

  function Behind(h: ServerHello): seq<byte> {
    [if |h.sessionId| < 256 then |h.sessionId| else 0] + h.sessionId + [Hi(h.cipher), Lo(h.cipher)] + h.Rest()
  }

  lemma RecordParts(h: ServerHello)
    ensures h.Record() == Front(h) + h.random + Behind(h)
  {
    hide Hi, Lo, ServerHello.Rest;
    var front := [0x02] + h.length + [0x03, 0x03];
    assert h.Body() == front + h.random + Behind(h);
    hide ServerHello.Body, Behind;
    assert Front(h) == [0x16, 0x03, 0x03, Hi(|h.Body()|), Lo(|h.Body()|)] + front;
  }

  /** Any message whose random begins with the six bytes enables splicing, whatever its extensions. */
  lemma RandomTakenForAnnouncement(h: ServerHello)
    requires h.Valid() && h.random[..6] == SUPPORTED_VERSIONS && h.cipher != TLS_AES_128_CCM_8
    ensures SeenAll(FRESH, [h.Record()]).enableXtls
  {
    RecordParts(h);
    assert |Front(h)| == 11;
    hide ServerHello.Record, ServerHello.Valid, Front, Behind;
    assert h.Record()[11..17] == h.random[..6];
    assert Announces13At(h.Record(), 11);
    WholeHelloUnderstood(h, FRESH);
    OneSeen(h.Record());
  }

  lemma OneSeen(a: seq<byte>)
    ensures SeenAll(FRESH, [a]) == W.Seen(FRESH, a)
  {
    assert [a][1..] == [];
  }

  const ZEROS: seq<byte> := [0, 0, 0, 0, 0, 0, 0, 0, 0, 0, 0, 0, 0, 0, 0, 0,
                             0, 0, 0, 0, 0, 0, 0, 0, 0, 0, 0, 0, 0, 0, 0, 0]

  /** A TLS 1.2 message without extensions that is taken for TLS 1.3. */
  lemma Tls12TakenForTls13()
    ensures exists h: ServerHello ::
              h.Valid() && h.extensions == [] && !h.Selects13() && SeenAll(FRESH, [h.Record()]).enableXtls
  {
    var h := ServerHello([0, 0, 0], SUPPORTED_VERSIONS + ZEROS[..26], [], 0xc02f, 0, [], []);
    assert |ZEROS| == 32;
    assert h.Valid();
    RandomTakenForAnnouncement(h);
    hide ServerHello.Valid, ServerHello.Record, SeenAll;
    assert !h.Selects13();
  }

  /** TLS 1.3 selected at the end of a record of 55 bytes and the session id. */
  function Announcing(cipher: int, sessionId: seq<byte>): ServerHello {
    ServerHello([0, 0, 0], ZEROS, sessionId, cipher, 0, [VERSION_13], [])
  }

  lemma AnnouncingParts(cipher: int, sessionId: seq<byte>)
    requires 0x1300 <= cipher < 0x1400 && |sessionId| <= 6
    ensures var h := Announcing(cipher, sessionId);
            && h.Valid() && h.Selects13() && |h.Record()| == 55 + |sessionId|
            && Front(h) == [0x16, 0x03, 0x03, 0, 50 + |sessionId|, 0x02, 0, 0, 0, 0x03, 0x03]
            && Behind(h) == [|sessionId|] + sessionId + [0x13, Lo(cipher), 0, 0, 6] + SUPPORTED_VERSIONS
  {
    var h := Announcing(cipher, sessionId);
    assert |ZEROS| == 32;
    ExtensionsOfOne();
    hide ExtensionsText;
    assert h.Rest() == [0, 0, 6] + SUPPORTED_VERSIONS;
    RecordParts(h);
    hide ServerHello.Rest;
    assert |h.Body()| == 50 + |sessionId|;
  }

  lemma ExtensionsOfOne()
    ensures ExtensionsText([VERSION_13]) == SUPPORTED_VERSIONS
  {
    assert [VERSION_13][1..] == [];
  }

  lemma MarkIn(front: seq<byte>, zeros: seq<byte>, behind: seq<byte>, mark: byte, at: nat)
    requires mark != 0
    requires forall i :: 0 <= i < |front| ==> front[i] != mark
    requires forall i :: 0 <= i < |zeros| ==> zeros[i] == 0
    requires forall i :: 0 <= i < |behind| ==> (behind[i] == mark <==> i == at)
    ensures var s := front + zeros + behind;
            forall i :: 0 <= i < |s| ==> (s[i] == mark <==> i == |front| + |zeros| + at)
  {
  }

  /** The announcement ends the record, and its second byte occurs nowhere else. */
  lemma AnnouncingRecord(cipher: int, sessionId: seq<byte>)
    requires cipher == 0x1301 || cipher == TLS_AES_128_CCM_8
    requires |sessionId| <= 6 && 0x2b !in sessionId
    ensures var h, r := Announcing(cipher, sessionId), Announcing(cipher, sessionId).Record();
            && h.Valid() && h.Selects13() && |r| == 55 + |sessionId|
            && Announces13At(r, 49 + |sessionId|)
            && r[44..44 + |sessionId|] == sessionId
            && forall i :: 0 <= i < |r| ==> (r[i] == 0x2b <==> i == 50 + |sessionId|)
  {
    var h := Announcing(cipher, sessionId);
    AnnouncingParts(cipher, sessionId);
    RecordParts(h);
    assert Lo(cipher) == 0x01 || Lo(cipher) == 0x05;
    hide ServerHello.Record, Front, Behind, Lo, ServerHello.Valid, ServerHello.Selects13;
    BehindMarked(Lo(cipher), sessionId);
    MarkIn(Front(h), ZEROS, Behind(h), 0x2b, 7 + |sessionId|);
    var r := h.Record();
    assert r[43..] == Behind(h);
    assert r[49 + |sessionId|..] == Behind(h)[6 + |sessionId|..];
  }

  lemma BehindMarked(low: byte, sessionId: seq<byte>)
    requires (low == 0x01 || low == 0x05) && |sessionId| <= 6 && 0x2b !in sessionId
    ensures var b := [|sessionId|] + sessionId + [0x13, low, 0, 0, 6] + SUPPORTED_VERSIONS;
            && b[1..1 + |sessionId|] == sessionId && b[6 + |sessionId|..] == SUPPORTED_VERSIONS
            && forall i :: 0 <= i < |b| ==> (b[i] == 0x2b <==> i == 7 + |sessionId|)
  {
    var tail := [0x13, low, 0, 0, 6] + SUPPORTED_VERSIONS;
    assert forall i :: 0 <= i < |tail| ==> (tail[i] == 0x2b <==> i == 6);
    assert [|sessionId|] + sessionId + tail == [|sessionId|] + sessionId + [0x13, low, 0, 0, 6] + SUPPORTED_VERSIONS;
  }

  /** Without its second byte the announcement is not there. */
  lemma NoMarkNoAnnouncement(a: seq<byte>)
    requires forall i :: 1 <= i <= |a| - 5 ==> a[i] != 0x2b
    ensures !Announces13(a)
  {
    forall i
      ensures !Announces13At(a, i)
    {
      assert 0 <= i <= |a| - 6 ==> a[i..i + 6][1] == a[i + 1];
    }
  }

  /** Cut inside the announcement it is missed; in one piece it is not. */
  lemma CutAnnouncementIsMissed()
    ensures var h := Announcing(0x1301, []);
            var r := h.Record();
            && h.Valid() && h.Selects13() && |r| == 55
            && !SeenAll(FRESH, [r[..52], r[52..]]).enableXtls && SeenAll(FRESH, [r]).enableXtls
  {
    var h := Announcing(0x1301, []);
    AnnouncingRecord(0x1301, []);
    WholeHelloUnderstood(h, FRESH);
    var r := h.Record();
    OneSeen(r);
    hide ServerHello.Record, ServerHello.Valid, ServerHello.Selects13;
    FirstPacket(h, FRESH, r[..52]);
    NoMarkNoAnnouncement(r[..52]);
    TwoSeen(r[..52], r[52..]);
  }

  lemma TwoSeen(a: seq<byte>, b: seq<byte>)
    requires !W.Seen(FRESH, a).enableXtls
    ensures SeenAll(FRESH, [a, b]) == W.Seen(W.Seen(FRESH, a), b)
    ensures |b| < 6 ==> !SeenAll(FRESH, [a, b]).enableXtls
  {
    hide Announces13, IsServerHello;
    assert [a, b][1..] == [b] && [b][1..] == [];
    var s := W.Seen(FRESH, a);
    assert SeenAll(s, [b]) == W.Seen(s, b);
    if |b| < 6 {
      ShortPacket(s, b);
    }
  }

  lemma ShortPacket(t: Tls, b: seq<byte>)
    requires |b| < 6 && !t.enableXtls
    ensures !W.Seen(t, b).enableXtls
  {
  }

  /** In a record of less than 79 bytes the excluded suite is not read, and splicing is enabled. */
  lemma ExcludedSuiteIsOverlooked()
    ensures var h := Announcing(TLS_AES_128_CCM_8, []);
            h.Valid() && h.cipher == TLS_AES_128_CCM_8 && SeenAll(FRESH, [h.Record()]).enableXtls
  {
    AnnouncingRecord(TLS_AES_128_CCM_8, []);
    hide ServerHello.Record, ServerHello.Valid, ServerHello.Selects13;
    WholeHelloUnderstood(Announcing(TLS_AES_128_CCM_8, []), FRESH);
    OneSeen(Announcing(TLS_AES_128_CCM_8, []).Record());
  }

  /** A second packet that begins with a session id of these bytes is taken for a ServerHello
      of six bytes, and the announcement behind it is missed. */
  lemma LaterStartIsTaken()
    ensures var h := Announcing(0x1301, [0x16, 0x03, 0x03, 0, 1, 0x02]);
            var r := h.Record();
            && h.Valid() && h.Selects13() && |r| == 61
            && !SeenAll(FRESH, [r[..44], r[44..]]).enableXtls && SeenAll(FRESH, [r]).enableXtls
  {
    var id: seq<byte> := [0x16, 0x03, 0x03, 0, 1, 0x02];
    var h := Announcing(0x1301, id);
    AnnouncingRecord(0x1301, id);
    WholeHelloUnderstood(h, FRESH);
    var r := h.Record();
    OneSeen(r);
    hide ServerHello.Record, ServerHello.Valid, ServerHello.Selects13;
    FirstPacket(h, FRESH, r[..44]);
    NoMarkNoAnnouncement(r[..44]);
    TwoSeen(r[..44], r[44..]);
    assert r[44..][..6] == id;
    assert |r[44..]| == 17;
    StartOfSix(W.Seen(FRESH, r[..44]), r[44..]);
  }

  lemma StartOfSix(t: Tls, b: seq<byte>)
    requires |b| == 17 && b[..6] == [0x16, 0x03, 0x03, 0, 1, 0x02] && !t.enableXtls
    ensures !W.Seen(t, b).enableXtls
  {
    assert b[0] == b[..6][0] && b[1] == b[..6][1] && b[2] == b[..6][2];
    assert b[3] == b[..6][3] && b[4] == b[..6][4] && b[5] == b[..6][5];
    NoMarkNoAnnouncement(b[..6]);
    hide Announces13;
  }
}
