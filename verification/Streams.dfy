// Plain sockets and the two loops over them: AsyncStream::writeFull and copyStream.
//
// A receiving socket is the list of pieces its recv calls will return, followed by
// an end that repeats for ever (0 = EOF, negative = error). A sending socket answers
// each send from a schedule of results; a result above the offered length accepts
// all of it, a result of 0 or less is a failure, and an exhausted schedule fails.
// A failure need not last: a send that finds no queue entry fails on a healthy socket.
module Streams {
  import opened Bytes

  datatype RecvResult = RecvResult(data: seq<byte>, result: int) {
    predicate Eof() { result == 0 }
    predicate Error() { result < 0 }
  }

  class Source {
    var chunks: seq<seq<byte>>
    const ending: int

    ghost predicate Valid()
      reads this
    {
      ending <= 0 && forall i :: 0 <= i < |chunks| ==> chunks[i] != []
    }

    constructor (chunks: seq<seq<byte>>, ending: int)
      requires ending <= 0 && forall i :: 0 <= i < |chunks| ==> chunks[i] != []
      ensures Valid() && this.chunks == chunks && this.ending == ending
    {
      this.chunks, this.ending := chunks, ending;
    }

    method Read() returns (rr: RecvResult)
      requires Valid()
      modifies this
      ensures Valid()
      ensures old(chunks) == [] ==> rr == RecvResult([], ending) && ending <= 0 && chunks == []
      ensures old(chunks) != [] ==>
                rr.data != [] && rr == RecvResult(old(chunks)[0], |old(chunks)[0]|) && chunks == old(chunks)[1..]
    {
      if |chunks| == 0 {
        rr := RecvResult([], ending);
      } else {
        rr := RecvResult(chunks[0], |chunks[0]|);
        chunks := chunks[1..];
      }
    }
  }

  class Sink {
    var sent: seq<byte>
    var outcomes: seq<int>

    constructor (outcomes: seq<int>)
      ensures sent == [] && this.outcomes == outcomes
    {
      this.sent, this.outcomes := [], outcomes;
    }

    method Send(data: seq<byte>) returns (n: int)
      requires data != []
      modifies this
      ensures n <= |data|
      ensures Refuses(old(outcomes)) ==> n <= 0 && n == Refusal(old(outcomes)) && sent == old(sent)
      ensures !Refuses(old(outcomes)) ==> n == Accepts(old(outcomes), |data|) && sent == old(sent) + data[..n]
      ensures outcomes == Later(old(outcomes))
    {
      if |outcomes| == 0 {
        n := -1;
      } else {
        n := if outcomes[0] < |data| then outcomes[0] else |data|;
        if n > 0 {
          sent := sent + data[..n];
        }
        outcomes := outcomes[1..];
      }
    }

    /** AsyncStream::writeFull: send what is left until all is accepted or a send fails. */
    method WriteFull(data: seq<byte>) returns (r: int)
      modifies this
      ensures sent == old(sent) + data[..WriteAll(data, old(outcomes)).taken]
      ensures outcomes == WriteAll(data, old(outcomes)).rest
      ensures r == WriteAll(data, old(outcomes)).Return(|data|)
      // so many bytes went out, or none and the refusal is returned
      ensures r <= |data| && (data != [] && r > 0 ==> sent == old(sent) + data[..r])
      ensures data != [] && r <= 0 ==> sent == old(sent) && Refuses(old(outcomes)) && r == Refusal(old(outcomes))
    {
      hide WriteAll;
      ghost var w := WriteAll(data, outcomes);
      var offset := 0;
      assert data[0..] == data;
      while offset < |data|
        invariant 0 <= offset <= |data|
        invariant sent == old(sent) + data[..offset]
        invariant w == WriteAll(data[offset..], outcomes).After(offset)
        invariant offset == 0 ==> outcomes == old(outcomes)
      {
        ghost var left, schedule := data[offset..], outcomes;
        var n := Send(data[offset..]);
        WriteAllStep(left, schedule);
        if n <= 0 {
          return if offset > 0 then offset else n;
        }
        assert left[n..] == data[offset + n..];
        assert data[..offset] + left[..n] == data[..offset + n];
        offset := offset + n;
      }
      WriteAllStep(data[offset..], outcomes);
      return |data|;
    }
  }

  // ---- One writeFull as a function of the schedule ----

  predicate Refuses(outcomes: seq<int>) {
    outcomes == [] || outcomes[0] <= 0
  }

  function Refusal(outcomes: seq<int>): int
    requires Refuses(outcomes)
  {
    if outcomes == [] then -1 else outcomes[0]
  }

  function Accepts(outcomes: seq<int>, offered: nat): (n: nat)
    requires !Refuses(outcomes)
    ensures n <= offered && (offered > 0 ==> n > 0)
  {
    if outcomes[0] < offered then outcomes[0] else offered
  }

  function Later(outcomes: seq<int>): seq<int> {
    if outcomes == [] then [] else outcomes[1..]
  }

  datatype Written = Written(taken: nat, code: int, rest: seq<int>) {
    // What writeFull returns for `offered` bytes.
    function Return(offered: nat): int {
      if taken == offered then offered else if taken > 0 then taken else code
    }

    function After(offset: nat): Written {
      Written(offset + taken, code, rest)
    }
  }

  function WriteAll(data: seq<byte>, outcomes: seq<int>): (w: Written)
    ensures w.taken <= |data|
    ensures w.taken < |data| ==> w.code <= 0
  {
    if data == [] then
      Written(0, 0, outcomes)
    else if Refuses(outcomes) then
      Written(0, Refusal(outcomes), Later(outcomes))
    else
      var n := Accepts(outcomes, |data|);
      WriteAll(data[n..], Later(outcomes)).After(n)
  }

  lemma WriteAllStep(data: seq<byte>, outcomes: seq<int>)
    ensures data == [] ==> WriteAll(data, outcomes) == Written(0, 0, outcomes)
    ensures data != [] && Refuses(outcomes) ==>
              WriteAll(data, outcomes) == Written(0, Refusal(outcomes), Later(outcomes))
    ensures data != [] && !Refuses(outcomes) ==>
              var n := Accepts(outcomes, |data|);
              WriteAll(data, outcomes) == WriteAll(data[n..], Later(outcomes)).After(n)
  {
  }

  lemma NothingTaken(data: seq<byte>, outcomes: seq<int>)
    requires WriteAll(data, outcomes).Return(|data|) <= 0
    ensures data[..WriteAll(data, outcomes).taken] == []
  {
  }

  // ---- Writing a list of pieces in order, giving up when a writeFull returns 0 or less ----

  datatype Pushed = Pushed(sent: seq<byte>, rest: seq<int>, done: bool, used: nat) {
    // This much was pushed, then `next`.
    function Then(next: Pushed): Pushed {
      Pushed(sent + next.sent, next.rest, next.done, used + next.used)
    }
  }

  const NOTHING := Pushed([], [], true, 0)

  lemma ThenLaws(a: Pushed, b: Pushed, c: Pushed)
    ensures a.Then(b).Then(c) == a.Then(b.Then(c))
    ensures NOTHING.Then(a) == a
    ensures a.Then(b).sent == a.sent + b.sent && a.Then(b).rest == b.rest && a.Then(b).done == b.done
  {
    assert a.sent + b.sent + c.sent == a.sent + (b.sent + c.sent);
    assert [] + a.sent == a.sent;
  }

  /** Empty pieces are skipped, as the relays do. `used` counts the pieces taken up. */
  function PushAll(pieces: seq<seq<byte>>, outcomes: seq<int>): (p: Pushed)
    ensures p.used <= |pieces|
    ensures p.done ==> p.used == |pieces|
  {
    if pieces == [] then
      Pushed([], outcomes, true, 0)
    else if pieces[0] == [] then
      Pushed([], [], true, 1).Then(PushAll(pieces[1..], outcomes))
    else
      var w := WriteAll(pieces[0], outcomes);
      if w.Return(|pieces[0]|) <= 0 then
        Pushed([], w.rest, false, 1)
      else
        Pushed(pieces[0][..w.taken], [], true, 1).Then(PushAll(pieces[1..], w.rest))
  }

  lemma PushAllStep(pieces: seq<seq<byte>>, outcomes: seq<int>)
    ensures pieces == [] ==> PushAll(pieces, outcomes) == Pushed([], outcomes, true, 0)
    ensures pieces != [] && pieces[0] == [] ==>
              PushAll(pieces, outcomes) == Pushed([], [], true, 1).Then(PushAll(pieces[1..], outcomes))
    ensures pieces != [] && pieces[0] != [] ==>
              var w := WriteAll(pieces[0], outcomes);
              PushAll(pieces, outcomes) ==
              if w.Return(|pieces[0]|) <= 0 then Pushed([], w.rest, false, 1)
              else Pushed(pieces[0][..w.taken], [], true, 1).Then(PushAll(pieces[1..], w.rest))
  {
  }

  predicate AllEmpty(pieces: seq<seq<byte>>) {
    forall i :: 0 <= i < |pieces| ==> pieces[i] == []
  }

  /** Nothing is skipped: where a piece is cut short, the socket refuses the next send or
      there is nothing more to send. It depends on the lengths of the pieces only. */
  predicate NoGap(pieces: seq<seq<byte>>, outcomes: seq<int>) {
    if pieces == [] then true
    else if pieces[0] == [] then NoGap(pieces[1..], outcomes)
    else
      var w := WriteAll(pieces[0], outcomes);
      if w.taken == |pieces[0]| then NoGap(pieces[1..], w.rest)
      else w.taken > 0 ==> Refuses(w.rest) || AllEmpty(pieces[1..])
  }

  /** No send fails. */
  predicate NoFailure(pieces: seq<seq<byte>>, outcomes: seq<int>) {
    if pieces == [] then true
    else
      var w := WriteAll(pieces[0], outcomes);
      w.taken == |pieces[0]| && NoFailure(pieces[1..], w.rest)
  }

  lemma NoGapStep(pieces: seq<seq<byte>>, outcomes: seq<int>)
    requires pieces != []
    ensures pieces[0] == [] ==> NoGap(pieces, outcomes) == NoGap(pieces[1..], outcomes)
    ensures pieces[0] != [] ==>
              var w := WriteAll(pieces[0], outcomes);
              NoGap(pieces, outcomes) <==>
                if w.taken == |pieces[0]| then NoGap(pieces[1..], w.rest)
                else w.taken > 0 ==> Refuses(w.rest) || AllEmpty(pieces[1..])
  {
  }

  /** What one piece comes to: cut off at its start, cut short, or taken whole. */
  lemma PieceStep(pieces: seq<seq<byte>>, outcomes: seq<int>)
    requires pieces != [] && pieces[0] != []
    ensures var w := WriteAll(pieces[0], outcomes);
            PushAll(pieces, outcomes) ==
            if w.taken == 0 then Pushed([], w.rest, false, 1)
            else Pushed(pieces[0][..w.taken], [], true, 1).Then(PushAll(pieces[1..], w.rest))
  {
    hide WriteAll, PushAll;
    PushAllStep(pieces, outcomes);
  }

  /** A refusal stops the relay before it sends anything, and nothing else does. */
  lemma {:induction false} NothingSentExactly(pieces: seq<seq<byte>>, outcomes: seq<int>)
    ensures PushAll(pieces, outcomes).sent == [] <==> Refuses(outcomes) || AllEmpty(pieces)
    decreases |pieces|
  {
    hide WriteAll, PushAll;
    PushAllStep(pieces, outcomes);
    if pieces != [] {
      assert AllEmpty(pieces) <==> pieces[0] == [] && AllEmpty(pieces[1..]) by {
        assert pieces == [pieces[0]] + pieces[1..];
      }
      if pieces[0] == [] {
        NothingSentExactly(pieces[1..], outcomes);
      } else {
        WriteAllStep(pieces[0], outcomes);
      }
    }
  }

  /** Without a gap the bytes sent are a prefix of the pieces taken up. */
  lemma {:induction false} PushedIsPrefix(pieces: seq<seq<byte>>, outcomes: seq<int>)
    requires NoGap(pieces, outcomes)
    ensures IsPrefix(PushAll(pieces, outcomes).sent, Flatten(pieces[..PushAll(pieces, outcomes).used]))
    decreases |pieces|, 1
  {
    hide WriteAll, PushAll, NoGap;
    PushAllStep(pieces, outcomes);
    if pieces != [] {
      var p := PushAll(pieces, outcomes);
      NoGapStep(pieces, outcomes);
      if pieces[0] == [] {
        PushedIsPrefix(pieces[1..], outcomes);
      } else {
        PushedPieceIsPrefix(pieces, outcomes);
      }
      assert pieces[..p.used] == [pieces[0]] + pieces[1..][..p.used - 1];
      FlattenConcat([pieces[0]], pieces[1..][..p.used - 1]);
      assert Flatten([pieces[0]]) == pieces[0];
    }
  }

  lemma {:induction false} PushedPieceIsPrefix(pieces: seq<seq<byte>>, outcomes: seq<int>)
    requires NoGap(pieces, outcomes) && pieces != [] && pieces[0] != []
    ensures var p := PushAll(pieces, outcomes);
            p.used > 0 && IsPrefix(p.sent, pieces[0] + Flatten(pieces[1..][..p.used - 1]))
    decreases |pieces|, 0
  {
    hide WriteAll, PushAll, NoGap, Flatten;
    var w := WriteAll(pieces[0], outcomes);
    PieceStep(pieces, outcomes);
    NoGapStep(pieces, outcomes);
    if w.taken > 0 {
      var next := PushAll(pieces[1..], w.rest);
      if w.taken < |pieces[0]| {
        NothingSentExactly(pieces[1..], w.rest);
        assert pieces[0][..w.taken] + [] == pieces[0][..w.taken];
        PrefixOfConcat(pieces[0][..w.taken], pieces[0], Flatten(pieces[1..][..next.used]));
      } else {
        PushedIsPrefix(pieces[1..], w.rest);
        PrefixAfter(pieces[0], next.sent, Flatten(pieces[1..][..next.used]));
      }
    }
  }

  /** The relay sends no more than there is, and less exactly when a send fails. */
  lemma {:induction false} SentLength(pieces: seq<seq<byte>>, outcomes: seq<int>)
    ensures |PushAll(pieces, outcomes).sent| <= |Flatten(pieces)|
    ensures |PushAll(pieces, outcomes).sent| == |Flatten(pieces)| <==> NoFailure(pieces, outcomes)
    ensures NoFailure(pieces, outcomes) ==> PushAll(pieces, outcomes).done && NoGap(pieces, outcomes)
    decreases |pieces|
  {
    if pieces != [] {
      var w := WriteAll(pieces[0], outcomes);
      SentLength(pieces[1..], w.rest);
      hide WriteAll, PushAll, NoGap;
      NoGapStep(pieces, outcomes);
      WriteAllStep(pieces[0], outcomes);
      PushAllStep(pieces, outcomes);
    }
  }

  /** Everything is sent exactly when no send fails. */
  lemma AllSentExactly(pieces: seq<seq<byte>>, outcomes: seq<int>)
    ensures PushAll(pieces, outcomes).sent == Flatten(pieces) <==> NoFailure(pieces, outcomes)
    ensures NoFailure(pieces, outcomes) ==> PushAll(pieces, outcomes).done
  {
    SentLength(pieces, outcomes);
    if NoFailure(pieces, outcomes) {
      hide NoGap, NoFailure, WriteAll, PushAll, Flatten;
      PushedIsPrefixOfAll(pieces, outcomes);
    }
  }

  lemma PushedIsPrefixOfAll(pieces: seq<seq<byte>>, outcomes: seq<int>)
    requires NoGap(pieces, outcomes)
    ensures IsPrefix(PushAll(pieces, outcomes).sent, Flatten(pieces))
  {
    hide NoGap, WriteAll, PushAll, Flatten;
    var p := PushAll(pieces, outcomes);
    PushedIsPrefix(pieces, outcomes);
    FlattenConcat(pieces[..p.used], pieces[p.used..]);
    assert pieces[..p.used] + pieces[p.used..] == pieces;
    PrefixOfConcat(p.sent, Flatten(pieces[..p.used]), Flatten(pieces[p.used..]));
  }

  lemma CopyMeaning(before: seq<byte>, chunks: seq<seq<byte>>, outcomes: seq<int>)
    ensures var p := PushAll(chunks, outcomes);
            && (NoGap(chunks, outcomes) ==> IsPrefix(before + p.sent, before + Flatten(chunks)))
            && (before + p.sent == before + Flatten(chunks) <==> NoFailure(chunks, outcomes))
  {
    hide NoGap, NoFailure, WriteAll, PushAll, Flatten, IsPrefix;
    var p := PushAll(chunks, outcomes);
    AllSentExactly(chunks, outcomes);
    assert (before + p.sent)[|before|..] == p.sent && (before + Flatten(chunks))[|before|..] == Flatten(chunks);
    if NoGap(chunks, outcomes) {
      PushedIsPrefixOfAll(chunks, outcomes);
      PrefixAfter(before, p.sent, Flatten(chunks));
    }
  }

  /** copyStream: read, write all, until EOF, a read error or a write that returns 0 or less. */
  method CopyStream(dst: Sink, src: Source) returns (ok: bool)
    requires src.Valid()
    modifies dst, src
    ensures src.Valid()
    ensures dst.sent == old(dst.sent) + PushAll(old(src.chunks), old(dst.outcomes)).sent
    ensures dst.outcomes == PushAll(old(src.chunks), old(dst.outcomes)).rest
    ensures src.chunks == old(src.chunks)[PushAll(old(src.chunks), old(dst.outcomes)).used..]
    ensures ok <==> PushAll(old(src.chunks), old(dst.outcomes)).done && src.ending == 0
    // the bytes sent are a prefix of the bytes read, and all of them exactly when no send failed
    ensures NoGap(old(src.chunks), old(dst.outcomes)) ==>
              IsPrefix(dst.sent, old(dst.sent) + Flatten(old(src.chunks)))
    ensures dst.sent == old(dst.sent) + Flatten(old(src.chunks)) <==> NoFailure(old(src.chunks), old(dst.outcomes))
  {
    hide WriteAll, PushAll, NoGap, NoFailure, IsPrefix, Flatten;
    ghost var all := PushAll(src.chunks, dst.outcomes);
    ghost var soFar := Pushed([], [], true, 0);
    while true
      invariant src.Valid()
      invariant soFar.used <= |old(src.chunks)| && src.chunks == old(src.chunks)[soFar.used..]
      invariant dst.sent == old(dst.sent) + soFar.sent
      invariant all == soFar.Then(PushAll(src.chunks, dst.outcomes))
      decreases |src.chunks|
    {
      ghost var pieces, schedule := src.chunks, dst.outcomes;
      PushAllStep(pieces, schedule);
      var rr := src.Read();
      if rr.Eof() {
        ok := true;
        break;
      }
      if rr.Error() {
        ok := false;
        break;
      }
      var written := dst.WriteFull(rr.data);
      if written <= 0 {
        ok := false;
        break;
      }
      soFar := Pushed(soFar.sent + rr.data[..WriteAll(rr.data, schedule).taken], [], true, soFar.used + 1);
    }
    assert dst.sent == old(dst.sent) + all.sent && dst.outcomes == all.rest;
    hide Pushed.Then;
    CopyMeaning(old(dst.sent), old(src.chunks), old(dst.outcomes));
  }
}
