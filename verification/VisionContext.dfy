// The TLS detection state shared by VisionReader and VisionWriter of one connection,
// and VisionWriter::filterTls, which reads a downlink packet into it.
module VisionContext {
  import opened Bytes

  // filterTls runs on the first eight packets.
  const PACKETS_TO_FILTER := 8
  const TLS_AES_128_CCM_8 := 0x1305

  const SUPPORTED_VERSIONS: seq<byte> := [0x00, 0x2b, 0x00, 0x02, 0x03, 0x04]

  datatype Tls = Tls(
    packetsToFilter: int,
    isTLS: bool,
    isTLS12orAbove: bool,
    enableXtls: bool,
    cipher: int,
    remainingServerHello: int)

  const FRESH := Tls(PACKETS_TO_FILTER, false, false, false, 0, -1)

  class Context {
    var packetsToFilter: int
    var isTLS: bool
    var isTLS12orAbove: bool
    var enableXtls: bool
    var cipher: int
    var remainingServerHello: int

    function View(): Tls
      reads this
    {
      Tls(packetsToFilter, isTLS, isTLS12orAbove, enableXtls, cipher, remainingServerHello)
    }

    constructor ()
      ensures View() == FRESH
    {
      packetsToFilter, isTLS, isTLS12orAbove, enableXtls := PACKETS_TO_FILTER, false, false, false;
      cipher, remainingServerHello := 0, -1;
    }
  }

  // ---- What filterTls looks for ----

  predicate IsServerHello(data: seq<byte>) {
    |data| >= 6 && data[0] == 0x16 && data[1] == 0x03 && data[2] == 0x03 && data[5] == 0x02
  }

  predicate IsClientHello(data: seq<byte>) {
    |data| >= 6 && data[0] == 0x16 && data[1] == 0x03 && data[5] == 0x01
  }

  /** The selected cipher suite, when the packet reaches that far. */
  function CipherIn(data: seq<byte>, hello: int, otherwise: int): int {
    if |data| >= 79 && hello >= 79 then
      var sessionIdLen: int := data[43];
      if 43 + sessionIdLen + 3 <= |data| then
        Be16(data[43 + sessionIdLen + 1], data[43 + sessionIdLen + 2])
      else
        otherwise
    else
      otherwise
  }

  /** Does the supported_versions extension announcing TLS 1.3 occur in the packet? */
  ghost predicate Announces13(window: seq<byte>) {
    exists i :: Announces13At(window, i)
  }

  predicate Announces13At(window: seq<byte>, i: int) {
    0 <= i <= |window| - 6 && window[i..i + 6] == SUPPORTED_VERSIONS
  }

  function Hello(t: Tls, data: seq<byte>): Tls {
    if IsServerHello(data) then
      var hello := Be16(data[3], data[4]) + 5;
      t.(remainingServerHello := hello, isTLS12orAbove := true, isTLS := true,
         cipher := CipherIn(data, hello, t.cipher))
    else if IsClientHello(data) then
      t.(isTLS := true)
    else
      t
  }

  function Window(t: Tls, data: seq<byte>): seq<byte> {
    if t.remainingServerHello <= 0 then []
    else if t.remainingServerHello < |data| then data[..t.remainingServerHello]
    else data
  }

  ghost function Filtered(t: Tls, data: seq<byte>): Tls {
    var h := Hello(t.(packetsToFilter := t.packetsToFilter - 1), data);
    if h.remainingServerHello <= 0 then
      h
    else
      var left := h.(remainingServerHello := h.remainingServerHello - |data|);
      if Announces13(Window(h, data)) then
        left.(packetsToFilter := 0, enableXtls := h.enableXtls || h.cipher != TLS_AES_128_CCM_8)
      else if left.remainingServerHello <= 0 then
        left.(packetsToFilter := 0)
      else
        left
  }

  /** The first half of filterTls: a hello in this packet. */
  method DetectHello(ctx: Context, data: seq<byte>)
    modifies ctx
    ensures ctx.View() == Hello(old(ctx.View()), data)
  {
    if |data| >= 6 {
      if data[0] == 0x16 && data[1] == 0x03 && data[2] == 0x03 && data[5] == 0x02 {
        ctx.remainingServerHello := Be16(data[3], data[4]) + 5;
        ctx.isTLS12orAbove := true;
        ctx.isTLS := true;
        if |data| >= 79 && ctx.remainingServerHello >= 79 {
          var sessionIdLen: int := data[43];
          if 43 + sessionIdLen + 3 <= |data| {
            ctx.cipher := Be16(data[43 + sessionIdLen + 1], data[43 + sessionIdLen + 2]);
          }
        }
      } else if data[0] == 0x16 && data[1] == 0x03 && data[5] == 0x01 {
        ctx.isTLS := true;
      }
    }
  }

  method FilterTls(ctx: Context, data: seq<byte>)
    modifies ctx
    ensures ctx.View() == Filtered(old(ctx.View()), data)
  {
    hide Announces13, Hello;
    ctx.packetsToFilter := ctx.packetsToFilter - 1;
    DetectHello(ctx, data);
    ghost var h := ctx.View();
    if ctx.remainingServerHello > 0 {
      var end := if ctx.remainingServerHello < |data| then ctx.remainingServerHello else |data|;
      ctx.remainingServerHello := ctx.remainingServerHello - |data|;
      var found := ScanFor13(data, end);
      assert Window(h, data) == data[..end];
      if found {
        if ctx.cipher != TLS_AES_128_CCM_8 {
          ctx.enableXtls := true;
        }
        ctx.packetsToFilter := 0;
        return;
      }
      if ctx.remainingServerHello <= 0 {
        ctx.packetsToFilter := 0;
      }
    }
  }

  /** The scanning loop of filterTls. */
  method ScanFor13(data: seq<byte>, end: nat) returns (found: bool)
    requires end <= |data|
    ensures found <==> Announces13(data[..end])
  {
    var i := 0;
    while i + 6 <= end
      invariant 0 <= i
      invariant forall j :: 0 <= j < i ==> !Announces13At(data[..end], j)
    {
      assert data[..end][i..i + 6] == data[i..i + 6];
      if data[i..i + 6] == SUPPORTED_VERSIONS {
        assert Announces13At(data[..end], i);
        return true;
      }
      i := i + 1;
    }
    return false;
  }

  /** VisionReader's look at the bytes it has just unpadded. */
  function Noticed(t: Tls, output: seq<byte>): Tls {
    if t.packetsToFilter > 0 && |output| >= 6 then
      t.(packetsToFilter := t.packetsToFilter - 1, isTLS := t.isTLS || IsClientHello(output))
    else
      t
  }

  // ---- What every reader and writer call keeps ----

  /** TLS 1.3 splicing is enabled only on a closed filter, for TLS 1.2 or above,
      and never with the excluded cipher suite. */
  predicate Safe(t: Tls) {
    && 0 <= t.packetsToFilter <= PACKETS_TO_FILTER
    && (t.remainingServerHello > 0 ==> t.isTLS && t.isTLS12orAbove)
    && (t.enableXtls ==>
          && t.isTLS && t.isTLS12orAbove && t.packetsToFilter == 0
          && t.cipher != TLS_AES_128_CCM_8)
  }

  lemma FilterKeepsSafe(t: Tls, data: seq<byte>)
    requires Safe(t) && t.packetsToFilter > 0
    ensures Safe(Filtered(t, data))
    ensures !IsServerHello(data) && t.remainingServerHello <= 0 ==>
              Filtered(t, data).packetsToFilter == t.packetsToFilter - 1
              && Filtered(t, data).isTLS12orAbove == t.isTLS12orAbove
              && Filtered(t, data).remainingServerHello == t.remainingServerHello
  {
  }

  lemma NoticeKeepsSafe(t: Tls, output: seq<byte>)
    requires Safe(t)
    ensures Safe(Noticed(t, output))
  {
  }

  // ---- What changes the detection state, on the bytes ----

  /** A downlink packet shows TLS 1.2 or above by the bytes 16 03 03 and type 2 of a ServerHello, and
      TLS by those or by 16 03 and type 1 of a ClientHello; splicing is enabled only for another
      suite than 0x1305, and only where the six bytes are in a packet of a started record. */
  lemma DownlinkShows(t: Tls, data: seq<byte>)
    ensures var u := Filtered(t, data);
            var server := |data| >= 6 && data[..3] == [0x16, 0x03, 0x03] && data[5] == 2;
            var client := |data| >= 6 && data[..2] == [0x16, 0x03] && data[5] == 1;
            && (u.isTLS12orAbove <==> t.isTLS12orAbove || server)
            && (u.isTLS <==> t.isTLS || server || client)
            && (u.enableXtls ==> t.enableXtls || u.cipher != 0x1305)
            && (!server && t.remainingServerHello <= 0 ==>
                  u == t.(packetsToFilter := t.packetsToFilter - 1, isTLS := u.isTLS))
  {
    hide Announces13, CipherIn;
    assert |data| >= 6 ==> data[..3] == [data[0], data[1], data[2]] && data[..2] == [data[0], data[1]];
  }

  /** Unpadded uplink bytes show TLS by the same start of a ClientHello, and every six or more of them
      use up one packet of the filter, as long as there is one. */
  lemma UplinkShows(t: Tls, output: seq<byte>)
    ensures var u := Noticed(t, output);
            var client := |output| >= 6 && output[..2] == [0x16, 0x03] && output[5] == 1;
            && (u.isTLS <==> t.isTLS || (client && t.packetsToFilter > 0))
            && u.packetsToFilter == t.packetsToFilter - (if t.packetsToFilter > 0 && |output| >= 6 then 1 else 0)
            && u == t.(isTLS := u.isTLS, packetsToFilter := u.packetsToFilter)
  {
    assert |output| >= 6 ==> output[..2] == [output[0], output[1]];
  }
}
