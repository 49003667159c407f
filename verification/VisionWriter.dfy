// VisionWriter: frames target data with random padding until TLS application data
// (or too few remaining packets) ends the padding phase.
module VisionWriter {
  import opened Bytes
  import opened TlsRecord
  import opened VisionContext

  const CONTINUE: byte := 0
  const END: byte := 1
  const DIRECT: byte := 2

  const MAX_FRAME := 8192
  const FULL_HEADER := 21
  const SHORT_HEADER := 5

  // Padding seed parameters.
  const SEED0 := 900
  const SEED1 := 500
  const SEED2 := 900
  const SEED3 := 256

  // More padding bytes than any frame takes.
  const NOISE := 1401

  // The fields that change from call to call.
  datatype State = State(uuidWritten: bool, isPadding: bool, directCopy: bool)

  const INITIAL := State(false, true, false)

  /** What the random generator would answer in one call: a draw for each of the two
      distributions padding() may use, and padding bytes. */
  datatype Draw = Draw(wide: int, narrow: int, noise: seq<byte>) {
    ghost predicate InRange() {
      0 <= wide <= SEED1 && 0 <= narrow <= SEED3 && |noise| == NOISE
    }
  }

  // ---- The machine arithmetic of padding() ----

  function AsSize(x: int): (n: nat)
    ensures n < 0x1_0000_0000_0000_0000
  {
    x % 0x1_0000_0000_0000_0000
  }

  /** The size_t subtraction wraps when the packet is larger than a frame;
      the cast to int32_t brings the true (negative) difference back. */
  lemma RoomIsExact(header: nat, len: nat)
    requires header <= FULL_HEADER && len < 0x7fff_0000
    ensures AsInt32(AsSize(MAX_FRAME - header - len)) == MAX_FRAME - header - len
  {
    var room := MAX_FRAME - header - len;
    if room < 0 {
      assert AsSize(room) == room + 0x1_0000_0000_0000_0000;
      assert AsSize(room) == 0xffff_ffff * 0x1_0000_0000 + (room + 0x1_0000_0000);
    }
  }

  // ---- One call as a function ----

  function HeaderSize(uuidWritten: bool): nat {
    if uuidWritten then SHORT_HEADER else FULL_HEADER
  }

  function PaddingLen(uuidWritten: bool, len: nat, longPadding: bool, d: Draw): int {
    var wanted := if len < SEED0 && longPadding then d.wide + SEED2 - len else d.narrow;
    var room := MAX_FRAME - HeaderSize(uuidWritten) - len;
    if wanted <= room then wanted else if room > 0 then room else 0
  }

  /** Every frame carries a padding length that fits its 16-bit field; a padded frame
      fits the frame limit and a frame above the limit has no padding. */
  lemma PaddingFits(uuidWritten: bool, len: nat, longPadding: bool, d: Draw)
    requires d.InRange()
    ensures var n := PaddingLen(uuidWritten, len, longPadding, d);
            && 0 <= n < NOISE
            && (n > 0 ==> HeaderSize(uuidWritten) + len + n <= MAX_FRAME)
            && (len > 0 && longPadding && len < SEED0 ==> SEED2 <= len + n)
            // short TLS packets are all brought to 900 and the draw, others get the draw; a frame
            // without the room for that is filled up
            && var size := HeaderSize(uuidWritten) + len;
            && (longPadding && len < 900 && size + n < 8192 ==> len + n == 900 + d.wide)
            && (!(longPadding && len < 900) && size + n < 8192 ==> n == d.narrow)
            && (size + n >= 8192 ==> n == 0 || size + n == 8192)
            && n <= (if longPadding && len < 900 then 900 + d.wide - len else d.narrow)
  {
  }

  function Frame(prefix: seq<byte>, command: byte, data: seq<byte>, padding: seq<byte>): seq<byte> {
    prefix
    + [command, Hi(|data|), Lo(|data|), Hi(|padding|), Lo(|padding|)]
    + data
    + padding
  }

  predicate IsAppData(data: seq<byte>) {
    |data| >= 6 && data[0] == 0x17 && data[1] == 0x03 && data[2] == 0x03
  }

  /** The frame command for a packet, given the context after the packet was filtered. */
  function CommandFor(t: Tls, data: seq<byte>): byte {
    if t.isTLS && IsAppData(data) && WholeRecords(data) then
      if t.enableXtls then DIRECT else END
    else if !t.isTLS12orAbove && t.packetsToFilter <= 1 then
      END
    else
      CONTINUE
  }

  ghost function Seen(t: Tls, data: seq<byte>): Tls {
    if t.packetsToFilter > 0 then Filtered(t, data) else t
  }

  datatype Step = Step(state: State, tls: Tls, output: seq<byte>)

  ghost function Write(uuid: seq<byte>, w: State, t: Tls, data: seq<byte>, d: Draw): Step
    requires d.InRange()
  {
    if data == [] || w.directCopy then
      Step(w, t, data)
    else
      var seen := Seen(t, data);
      if !w.isPadding then
        Step(w.(directCopy := true), seen, data)
      else
        PaddingFits(w.uuidWritten, |data|, seen.isTLS, d);
        var command := CommandFor(seen, data);
        var n := PaddingLen(w.uuidWritten, |data|, seen.isTLS, d);
        Step(State(true, command == CONTINUE, command == DIRECT), seen,
             Frame(if w.uuidWritten then [] else uuid, command, data, d.noise[..n]))
  }

  /** After h bytes the frame says how much content and how much padding it carries. The
      content field is 16 bits wide: it is exact for less than 65536 bytes and no other. */
  ghost predicate HeaderSays(frame: seq<byte>, h: nat, data: seq<byte>) {
    && |frame| >= h + 5 + |data| && frame[h + 5..h + 5 + |data|] == data
    && (Be16(frame[h + 1], frame[h + 2]) == |data| <==> |data| < 0x1_0000)
    && Be16(frame[h + 3], frame[h + 4]) == |frame| - (h + 5 + |data|)
  }

  /** A frame's header is exact, and the frame keeps the limit or carries no padding. */
  lemma HeaderIsExact(uuid: seq<byte>, w: State, t: Tls, data: seq<byte>, d: Draw)
    requires |uuid| == 16 && d.InRange() && data != [] && w.isPadding && !w.directCopy
    ensures var output, prefix := Write(uuid, w, t, data, d).output, if w.uuidWritten then [] else uuid;
            && HeaderSays(output, |prefix|, data) && prefix <= output
            && (|output| <= MAX_FRAME || |output| == |prefix| + 5 + |data|)
            && |output| == |prefix| + 5 + |data| + PaddingLen(w.uuidWritten, |data|, Seen(t, data).isTLS, d)
  {
    var seen := Seen(t, data);
    var n := PaddingLen(w.uuidWritten, |data|, seen.isTLS, d);
    PaddingFits(w.uuidWritten, |data|, seen.isTLS, d);
    var prefix := if w.uuidWritten then [] else uuid;
    hide Seen, PaddingLen, CommandFor, Frame, HeaderSays;
    FrameIsExact(prefix, CommandFor(seen, data), data, d.noise[..n]);
  }

  lemma FrameIsExact(prefix: seq<byte>, command: byte, data: seq<byte>, padding: seq<byte>)
    requires |padding| < 0x1_0000
    ensures var f := Frame(prefix, command, data, padding);
            HeaderSays(f, |prefix|, data) && prefix <= f && |f| == |prefix| + 5 + |data| + |padding|
  {
    FrameParts(prefix, command, data, padding);
    Be16OfHiLo(|data|);
    Be16OfHiLo(|padding|);
    hide Frame, Hi, Lo, Be16;
  }

  lemma FrameParts(prefix: seq<byte>, command: byte, data: seq<byte>, padding: seq<byte>)
    ensures var f, h := Frame(prefix, command, data, padding), |prefix|;
            && |f| == h + 5 + |data| + |padding| && f[..h] == prefix && f[h + 5..h + 5 + |data|] == data
            && f[h + 1] == Hi(|data|) && f[h + 2] == Lo(|data|)
            && f[h + 3] == Hi(|padding|) && f[h + 4] == Lo(|padding|)
  {
    hide Hi, Lo;
  }

  class Writer {
    const uuid: seq<byte>
    const ctx: Context
    var uuidWritten: bool
    var isPadding: bool
    var directCopy: bool

    function View(): State
      reads this
    {
      State(uuidWritten, isPadding, directCopy)
    }

    constructor (uuid: seq<byte>, ctx: Context)
      requires |uuid| == 16
      ensures this.uuid == uuid && this.ctx == ctx && View() == INITIAL
    {
      this.uuid, this.ctx := uuid, ctx;
      uuidWritten, isPadding, directCopy := false, true, false;
    }

    method Process(data: seq<byte>, d: Draw) returns (output: seq<byte>)
      requires |uuid| == 16 && d.InRange()
      requires |data| < 0x7fff_0000  // packets come from int-sized reads
      modifies this, ctx
      ensures Step(View(), ctx.View(), output) == Write(uuid, old(View()), old(ctx.View()), data, d)
    {
      hide Filtered, WholeRecords, Frame, PaddingLen;
      if |data| == 0 || directCopy {
        return data;
      }
      if ctx.packetsToFilter > 0 {
        FilterTls(ctx, data);
      }
      ghost var seen := ctx.View();
      if !isPadding {
        directCopy := true;
        return data;
      }
      var isComplete := IsCompleteRecord(data);
      var longPadding := ctx.isTLS;
      if ctx.isTLS && |data| >= 6 && data[0] == 0x17 && data[1] == 0x03 && data[2] == 0x03 && isComplete {
        var command;
        if ctx.enableXtls {
          command := DIRECT;
          directCopy := true;
        } else {
          command := END;
        }
        isPadding := false;
        output := Padding(data, command, true, d);
        return;
      }
      if !ctx.isTLS12orAbove && ctx.packetsToFilter <= 1 {
        isPadding := false;
        output := Padding(data, END, longPadding, d);
        return;
      }
      output := Padding(data, CONTINUE, longPadding, d);
    }

    method Padding(data: seq<byte>, command: byte, longPadding: bool, d: Draw) returns (result: seq<byte>)
      requires |uuid| == 16 && d.InRange() && |data| < 0x7fff_0000
      modifies this`uuidWritten
      ensures uuidWritten
      ensures 0 <= PaddingLen(old(uuidWritten), |data|, longPadding, d) < NOISE
      ensures result == Frame(if old(uuidWritten) then [] else uuid, command, data,
                              d.noise[..PaddingLen(old(uuidWritten), |data|, longPadding, d)])
    {
      hide AsSize, AsInt32;
      var contentLen := |data|;
      var paddingLen: int;
      if contentLen < SEED0 && longPadding {
        paddingLen := d.wide + SEED2 - contentLen;
      } else {
        paddingLen := d.narrow;
      }
      var headerSize := if uuidWritten then SHORT_HEADER else FULL_HEADER;
      var maxPadding := AsInt32(AsSize(MAX_FRAME - headerSize - contentLen));
      RoomIsExact(headerSize, contentLen);
      if paddingLen > maxPadding {
        paddingLen := if maxPadding > 0 then maxPadding else 0;
      }
      PaddingFits(uuidWritten, contentLen, longPadding, d);
      assert paddingLen == PaddingLen(uuidWritten, contentLen, longPadding, d);
      result := Fill(data, command, headerSize, d.noise[..paddingLen]);
      uuidWritten := true;
    }

    /** Fills the frame buffer by offset. */
    method Fill(data: seq<byte>, command: byte, headerSize: nat, noise: seq<byte>) returns (result: seq<byte>)
      requires |uuid| == 16 && headerSize == HeaderSize(uuidWritten)
      ensures result == Frame(if uuidWritten then [] else uuid, command, data, noise)
    {
      hide Hi, Lo;
      var contentLen, paddingLen := |data|, |noise|;
      var frame := new byte[headerSize + contentLen + paddingLen];
      var offset := 0;
      ghost var prefix := [];
      if !uuidWritten {
        CopyInto(frame, offset, uuid);
        offset := offset + 16;
        prefix := uuid;
      }
      assert frame[..offset] == prefix;
      ghost var fields := [command, Hi(contentLen), Lo(contentLen), Hi(paddingLen), Lo(paddingLen)];
      CopyInto(frame, offset, [command, Hi(contentLen), Lo(contentLen), Hi(paddingLen), Lo(paddingLen)]);
      offset := offset + 5;
      assert frame[..offset] == prefix + fields;
      CopyInto(frame, offset, data);
      offset := offset + contentLen;
      assert frame[..offset] == prefix + fields + data;
      var i := 0;
      while i < paddingLen
        invariant 0 <= i <= paddingLen && offset == headerSize + contentLen + i
        invariant frame[..offset] == prefix + fields + data + noise[..i]
      {
        CopyInto(frame, offset, [noise[i]]);
        assert noise[..i] + [noise[i]] == noise[..i + 1];
        offset := offset + 1;
        i := i + 1;
      }
      assert frame[..offset] == frame[..];
      return frame[..];
    }
  }

  /** std::copy into the buffer at an offset. */
  method CopyInto(frame: array<byte>, offset: nat, src: seq<byte>)
    requires offset + |src| <= frame.Length
    modifies frame
    ensures frame[..offset + |src|] == old(frame[..offset]) + src
  {
    forall i | 0 <= i < |src| {
      frame[offset + i] := src[i];
    }
  }
}
