// VisionReader: the resumable automaton that removes Vision padding from an uplink
// that arrives cut at arbitrary places.
module VisionReader {
  import opened Bytes
  import opened VisionContext
  import VisionWriter

  // ---- The unpadding automaton, one byte at a time ----

  /** Start: nothing read yet. Framing: inside the padded phase, with the counters of the
      code (command bytes, content bytes and padding bytes still to come, and the current
      command). Plain: unpadding is over and bytes pass unchanged. */
  datatype Phase =
    | Start
    | Framing(header: int, content: int, padding: int, command: int)
    | Plain

  const FIRST_FRAME := Framing(5, -1, -1, 0)

  datatype Fed = Fed(phase: Phase, output: seq<byte>) {
    function Then(next: Fed): Fed {
      Fed(next.phase, output + next.output)
    }
  }

  function HeaderByte(p: Phase, b: byte): Phase
    requires p.Framing?
  {
    match p.header
    case 5 => p.(header := 4, command := b)
    case 4 => p.(header := 3, content := Be16(b, 0))
    case 3 => p.(header := 2, content := p.content + b)
    case 2 => p.(header := 1, padding := Be16(b, 0))
    case _ => p.(header := 0, padding := p.padding + b)
  }

  function FeedByte(p: Phase, b: byte): Fed {
    if !p.Framing? then
      Fed(Plain, [b])
    else if p.header > 0 then
      Fed(HeaderByte(p, b), [])
    else if p.content > 0 then
      Fed(p.(content := p.content - 1), [b])
    else if p.padding > 0 then
      Fed(p.(padding := p.padding - 1), [])
    else if p.command == VisionWriter.CONTINUE as int then
      Fed(HeaderByte(p.(header := 5), b), [])
    else
      Fed(Plain, [b])
  }

  function Feed(p: Phase, s: seq<byte>): Fed
    decreases |s|
  {
    if s == [] then Fed(p, [])
    else
      var f := FeedByte(p, s[0]);
      f.Then(Feed(f.phase, s[1..]))
  }

  /** What a whole uplink unpads to. */
  function Unpad(uuid: seq<byte>, s: seq<byte>): seq<byte> {
    if Padded(uuid, s) then Feed(FIRST_FRAME, s[16..]).output else s
  }

  predicate Padded(uuid: seq<byte>, s: seq<byte>) {
    |s| >= VisionWriter.FULL_HEADER && |uuid| == 16 && s[..16] == uuid
  }

  // ---- Laws of the automaton ----

  lemma FeedStep(p: Phase, s: seq<byte>)
    ensures s == [] ==> Feed(p, s) == Fed(p, [])
    ensures s != [] ==> Feed(p, s) == FeedByte(p, s[0]).Then(Feed(FeedByte(p, s[0]).phase, s[1..]))
  {
  }

  lemma {:induction false} FeedConcat(p: Phase, a: seq<byte>, b: seq<byte>)
    ensures Feed(p, a + b) == Feed(p, a).Then(Feed(Feed(p, a).phase, b))
    decreases |a|
  {
    hide Feed, FeedByte;
    FeedStep(p, a);
    if a == [] {
      assert a + b == b;
      assert [] + Feed(p, b).output == Feed(p, b).output;
    } else {
      FeedStep(p, a + b);
      assert (a + b)[1..] == a[1..] + b;
      FeedConcat(FeedByte(p, a[0]).phase, a[1..], b);
    }
  }

  lemma {:induction false} FeedPlain(s: seq<byte>)
    ensures Feed(Plain, s) == Fed(Plain, s)
  {
    if s != [] {
      FeedPlain(s[1..]);
      assert [s[0]] + s[1..] == s;
    }
  }

  lemma {:induction false} FeedContent(p: Phase, s: seq<byte>)
    requires p.Framing? && p.header <= 0 && |s| <= p.content
    ensures Feed(p, s) == Fed(p.(content := p.content - |s|), s)
    decreases |s|
  {
    if s != [] {
      FeedContent(p.(content := p.content - 1), s[1..]);
      assert [s[0]] + s[1..] == s;
    }
  }

  lemma {:induction false} FeedPadding(p: Phase, s: seq<byte>)
    requires p.Framing? && p.header <= 0 && p.content <= 0 && |s| <= p.padding
    ensures Feed(p, s) == Fed(p.(padding := p.padding - |s|), [])
    decreases |s|
  {
    if s != [] {
      FeedPadding(p.(padding := p.padding - 1), s[1..]);
    }
  }

  /** Unpadding never gives back bytes: it drops at least the header and the UUID. */
  lemma {:induction false} FeedShrinks(p: Phase, s: seq<byte>)
    ensures |Feed(p, s).output| <= |s|
    ensures p.Framing? && 0 < p.header <= 5 && |s| >= p.header ==> |Feed(p, s).output| <= |s| - p.header
    decreases |s|
  {
    hide Feed;
    FeedStep(p, s);
    if s != [] {
      FeedShrinks(FeedByte(p, s[0]).phase, s[1..]);
    }
  }

  // ---- One call of process, and a run of calls ----

  function Read(uuid: seq<byte>, p: Phase, data: seq<byte>): Fed {
    if data == [] then Fed(p, [])
    else if p.Start? then
      if Padded(uuid, data) then Feed(FIRST_FRAME, data[16..]) else Fed(Plain, data)
    else
      Feed(p, data)
  }

  function ReadAll(uuid: seq<byte>, p: Phase, pieces: seq<seq<byte>>): seq<seq<byte>>
    decreases |pieces|
  {
    if pieces == [] then []
    else
      var f := Read(uuid, p, pieces[0]);
      [f.output] + ReadAll(uuid, f.phase, pieces[1..])
  }

  lemma ReadAllStep(uuid: seq<byte>, p: Phase, pieces: seq<seq<byte>>)
    ensures pieces == [] ==> ReadAll(uuid, p, pieces) == []
    ensures pieces != [] ==>
              var f := Read(uuid, p, pieces[0]);
              ReadAll(uuid, p, pieces) == [f.output] + ReadAll(uuid, f.phase, pieces[1..])
  {
  }

  lemma ReadPlain(uuid: seq<byte>, data: seq<byte>)
    ensures Read(uuid, Plain, data) == Fed(Plain, data)
  {
    FeedPlain(data);
  }

  lemma {:induction false} ReadAllPlain(uuid: seq<byte>, pieces: seq<seq<byte>>)
    ensures ReadAll(uuid, Plain, pieces) == pieces
  {
    ReadAllStep(uuid, Plain, pieces);
    if pieces != [] {
      ReadPlain(uuid, pieces[0]);
      ReadAllPlain(uuid, pieces[1..]);
    }
  }

  lemma {:induction false} ReadAllFeeds(uuid: seq<byte>, p: Phase, pieces: seq<seq<byte>>)
    requires !p.Start?
    ensures Flatten(ReadAll(uuid, p, pieces)) == Feed(p, Flatten(pieces)).output
    decreases |pieces|
  {
    hide Feed, FeedByte;
    if pieces == [] {
      FeedStep(p, []);
    } else {
      var f := Feed(p, pieces[0]);
      FeedStep(p, pieces[0]);
      FeedKeepsStarted(p, pieces[0]);
      ReadAllFeeds(uuid, f.phase, pieces[1..]);
      FeedConcat(p, pieces[0], Flatten(pieces[1..]));
      assert ReadAll(uuid, p, pieces)[1..] == ReadAll(uuid, f.phase, pieces[1..]);
    }
  }

  lemma {:induction false} FeedKeepsStarted(p: Phase, s: seq<byte>)
    requires !p.Start?
    ensures !Feed(p, s).phase.Start?
    decreases |s|
  {
    if s != [] {
      FeedKeepsStarted(FeedByte(p, s[0]).phase, s[1..]);
    }
  }

  /** The first piece that is not empty. */
  function First(pieces: seq<seq<byte>>): seq<byte> {
    if pieces == [] then [] else if pieces[0] != [] then pieces[0] else First(pieces[1..])
  }

  /** Cutting does not matter, exactly when the first piece shows the whole first header
      or there is no padding to recognise: the pieces unpad to what the whole stream
      unpads to if and only if this holds. */
  lemma {:induction false} CuttingDoesNotMatter(uuid: seq<byte>, pieces: seq<seq<byte>>)
    requires |uuid| == 16
    ensures Flatten(ReadAll(uuid, Start, pieces)) == Unpad(uuid, Flatten(pieces)) <==>
            |First(pieces)| >= VisionWriter.FULL_HEADER || !Padded(uuid, Flatten(pieces))
    decreases |pieces|
  {
    if pieces != [] {
      assert ReadAll(uuid, Start, pieces)[1..] == ReadAll(uuid, Read(uuid, Start, pieces[0]).phase, pieces[1..]);
      if pieces[0] == [] {
        CuttingDoesNotMatter(uuid, pieces[1..]);
        assert Flatten(pieces) == Flatten(pieces[1..]);
        assert Flatten(ReadAll(uuid, Start, pieces)) == Flatten(ReadAll(uuid, Start, pieces[1..]));
      } else {
        CuttingAfterFirst(uuid, pieces[0], pieces[1..]);
      }
    }
  }

  lemma CuttingAfterFirst(uuid: seq<byte>, first: seq<byte>, more: seq<seq<byte>>)
    requires |uuid| == 16 && first != []
    ensures var f := Read(uuid, Start, first);
            f.output + Flatten(ReadAll(uuid, f.phase, more)) == Unpad(uuid, first + Flatten(more)) <==>
            |first| >= VisionWriter.FULL_HEADER || !Padded(uuid, first + Flatten(more))
  {
    hide Feed, Flatten, ReadAll;
    var rest := Flatten(more);
    var whole := first + rest;
    var f := Read(uuid, Start, first);
    if |first| >= VisionWriter.FULL_HEADER {
      assert whole[..16] == first[..16];
    }
    if Padded(uuid, first) {
      FeedKeepsStarted(FIRST_FRAME, first[16..]);
      ReadAllFeeds(uuid, f.phase, more);
      FeedConcat(FIRST_FRAME, first[16..], rest);
      assert whole[16..] == first[16..] + rest;
    } else {
      ReadAllFeeds(uuid, Plain, more);
      FeedPlain(rest);
      if Padded(uuid, whole) {
        FeedShrinks(FIRST_FRAME, whole[16..]);
      }
    }
  }

  /** A stream that does not begin with the uuid, or shows less than the first header, is passed
      through as it is, however it goes on. */
  lemma {:induction false} PassedThrough(uuid: seq<byte>, pieces: seq<seq<byte>>)
    requires |First(pieces)| < 21 || First(pieces)[..16] != uuid
    ensures ReadAll(uuid, Start, pieces) == pieces
    decreases |pieces|
  {
    ReadAllStep(uuid, Start, pieces);
    if pieces != [] {
      assert pieces == [pieces[0]] + pieces[1..];
      if pieces[0] == [] {
        PassedThrough(uuid, pieces[1..]);
      } else {
        ReadAllPlain(uuid, pieces[1..]);
      }
    }
  }

  class Reader {
    const uuid: seq<byte>
    const ctx: Context
    var withinPadding: bool
    var directCopy: bool
    var remainingCommand: int
    var remainingContent: int
    var remainingPadding: int
    var currentCommand: int

    // The counters stay in range, and the low byte of a length is clear until it is read
    // (so the | that completes it is an addition).
    predicate Valid()
      reads this
    {
      && |uuid| == 16
      && (View().Start? ==> currentCommand == 0)
      && (View().Framing? ==> Counting())
    }

    function View(): Phase
      reads this
    {
      if directCopy || !withinPadding then Plain
      else if remainingCommand == -1 && remainingContent == -1 && remainingPadding == -1 then Start
      else Framing(remainingCommand, remainingContent, remainingPadding, currentCommand)
    }

    constructor (uuid: seq<byte>, ctx: Context)
      requires |uuid| == 16
      ensures this.uuid == uuid && this.ctx == ctx && Valid() && View() == Start
    {
      this.uuid, this.ctx := uuid, ctx;
      withinPadding, directCopy, currentCommand := true, false, 0;
      remainingCommand, remainingContent, remainingPadding := -1, -1, -1;
    }

    method Process(data: seq<byte>) returns (output: seq<byte>)
      requires Valid()
      modifies this, ctx
      ensures Valid()
      ensures Fed(View(), output) == Read(uuid, old(View()), data)
      ensures ctx.View() ==
              if data == [] || old(View()).Plain? || (old(View()).Start? && !Padded(uuid, data))
              then old(ctx.View()) else Noticed(old(ctx.View()), output)
      // directCopy(), on which the relays branch, implies that nothing is unpadded any more
      ensures directCopy ==> View().Plain?
      ensures data != [] && old(View()).Plain? ==> directCopy
    {
      hide Feed, FeedByte;
      if |data| == 0 {
        return data;
      }
      if directCopy {
        FeedPlain(data);
        return data;
      }
      if !withinPadding {
        directCopy := true;
        FeedPlain(data);
        return data;
      }
      var pos := 0;
      if remainingCommand == -1 && remainingContent == -1 && remainingPadding == -1 {
        if |data| >= VisionWriter.FULL_HEADER && data[..16] == uuid {
          pos := 16;
          remainingCommand := 5;
        } else {
          directCopy := true;
          return data;
        }
      }
      assert pos == 0 ==> data[pos..] == data;
      output := Unframe(data, pos);
      if ctx.packetsToFilter > 0 && |output| >= 6 {
        if output[0] == 0x16 && output[1] == 0x03 && output[5] == 0x01 {
          ctx.isTLS := true;
        }
        ctx.packetsToFilter := ctx.packetsToFilter - 1;
      }
    }

    /** The unpadding loop of process, over data[from..]. */
    method Unframe(data: seq<byte>, from: nat) returns (output: seq<byte>)
      requires |uuid| == 16 && from <= |data| && Counting()
      requires !directCopy && withinPadding
      modifies this
      ensures Valid() && !View().Start?
      ensures Fed(View(), output) == Feed(old(Counters()), data[from..])
      ensures directCopy ==> View().Plain?
    {
      hide Feed, HeaderByte;
      ghost var all := Feed(Counters(), data[from..]);
      var pos := from;
      output := [];
      assert all.output == [] + all.output;
      while pos < |data|
        invariant from <= pos <= |data| && Counting()
        invariant !directCopy && withinPadding
        invariant all == Fed(Counters(), output).Then(Feed(Counters(), data[pos..]))
        decreases |data| - pos, if remainingCommand > 0 then 0 else 1
      {
        ghost var p, rest, before := Counters(), data[pos..], pos;
        if remainingCommand > 0 {
          while remainingCommand > 0 && pos < |data|
            invariant from <= pos <= |data| && Counting()
            invariant !directCopy && withinPadding
            invariant pos > before || (pos == before && remainingCommand > 0)
            invariant all == Fed(Counters(), output).Then(Feed(Counters(), data[pos..]))
          {
            HeaderStep(Counters(), data, pos);
            TakeHeaderByte(data[pos]);
            pos := pos + 1;
          }
        } else if remainingContent > 0 {
          var toRead := if remainingContent < |data| - pos then remainingContent else |data| - pos;
          ContentStep(p, data, pos, toRead);
          assert output + data[pos..pos + toRead] + Feed(p.(content := p.content - toRead), data[pos + toRead..]).output
              == output + (data[pos..pos + toRead] +
                           Feed(p.(content := p.content - toRead), data[pos + toRead..]).output);
          output := output + data[pos..pos + toRead];
          pos := pos + toRead;
          remainingContent := remainingContent - toRead;
        } else if remainingPadding > 0 {
          var toSkip := if remainingPadding < |data| - pos then remainingPadding else |data| - pos;
          PaddingStep(p, data, pos, toSkip);
          pos := pos + toSkip;
          remainingPadding := remainingPadding - toSkip;
        } else if currentCommand == VisionWriter.CONTINUE as int {
          NextFrame(p, rest);
          remainingCommand := 5;
        } else {
          LastFrame(p, rest);
          withinPadding := false;
          if currentCommand == VisionWriter.DIRECT as int {
            directCopy := true;
          }
          output := output + data[pos..];
          return;
        }
      }
      FeedStep(Counters(), data[pos..]);
    }

    method TakeHeaderByte(b: byte)
      requires Counting() && remainingCommand > 0
      modifies this`remainingCommand, this`remainingContent, this`remainingPadding, this`currentCommand
      ensures Counting() && remainingCommand == old(remainingCommand) - 1
      ensures Counters() == HeaderByte(old(Counters()), b)
    {
      match remainingCommand {
        case 5 => currentCommand := b;
        case 4 => remainingContent := Be16(b, 0);
        case 3 => remainingContent := remainingContent + b;
        case 2 => remainingPadding := Be16(b, 0);
        case _ => remainingPadding := remainingPadding + b;
      }
      remainingCommand := remainingCommand - 1;
    }

    predicate Counting()
      reads this
    {
      && 0 <= remainingCommand <= 5 && -1 <= remainingContent && -1 <= remainingPadding
      && (remainingCommand == 3 ==> 0 <= remainingContent && remainingContent % 256 == 0)
      && (remainingCommand == 1 ==> 0 <= remainingPadding && remainingPadding % 256 == 0)
    }

    function Counters(): Phase
      reads this
    {
      Framing(remainingCommand, remainingContent, remainingPadding, currentCommand)
    }
  }

  // ---- The steps of the unpadding loop ----

  lemma HeaderStep(p: Phase, data: seq<byte>, pos: nat)
    requires p.Framing? && p.header > 0 && pos < |data|
    ensures Feed(p, data[pos..]) == Feed(HeaderByte(p, data[pos]), data[pos + 1..])
  {
    hide Feed;
    FeedStep(p, data[pos..]);
    assert data[pos..][1..] == data[pos + 1..];
  }

  lemma ContentStep(p: Phase, data: seq<byte>, pos: nat, n: nat)
    requires p.Framing? && p.header <= 0 && n <= p.content && pos + n <= |data|
    ensures Feed(p, data[pos..]) ==
            Fed(Start, data[pos..pos + n]).Then(Feed(p.(content := p.content - n), data[pos + n..]))
  {
    hide Feed;
    FeedContent(p, data[pos..pos + n]);
    FeedConcat(p, data[pos..pos + n], data[pos + n..]);
    assert data[pos..] == data[pos..pos + n] + data[pos + n..];
  }

  lemma PaddingStep(p: Phase, data: seq<byte>, pos: nat, n: nat)
    requires p.Framing? && p.header <= 0 && p.content <= 0 && n <= p.padding && pos + n <= |data|
    ensures Feed(p, data[pos..]) == Feed(p.(padding := p.padding - n), data[pos + n..])
  {
    hide Feed;
    FeedPadding(p, data[pos..pos + n]);
    FeedConcat(p, data[pos..pos + n], data[pos + n..]);
    assert data[pos..] == data[pos..pos + n] + data[pos + n..];
  }

  predicate FrameOver(p: Phase) {
    p.Framing? && p.header <= 0 && p.content <= 0 && p.padding <= 0
  }

  lemma NextFrame(p: Phase, s: seq<byte>)
    requires FrameOver(p) && p.command == VisionWriter.CONTINUE as int && s != []
    ensures Feed(p, s) == Feed(p.(header := 5), s)
  {
    hide Feed;
    FeedStep(p, s);
    FeedStep(p.(header := 5), s);
  }

  lemma LastFrame(p: Phase, s: seq<byte>)
    requires FrameOver(p) && p.command != VisionWriter.CONTINUE as int && s != []
    ensures Feed(p, s) == Fed(Plain, s)
  {
    hide Feed;
    FeedStep(p, s);
    FeedPlain(s[1..]);
    assert [s[0]] + s[1..] == s;
  }
}
