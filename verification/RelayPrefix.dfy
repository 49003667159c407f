// When a relay keeps the order of the stream: the exact condition under which what it sends
// is a prefix of what it read.
module RelayPrefix {
  import opened Bytes
  import opened Streams

  predicate SameLengths(a: seq<seq<byte>>, b: seq<seq<byte>>) {
    |a| == |b| && forall i :: 0 <= i < |a| ==> |a[i]| == |b[i]|
  }

  ghost predicate SendsPrefix(pieces: seq<seq<byte>>, outcomes: seq<int>) {
    IsPrefix(PushAll(pieces, outcomes).sent, Flatten(pieces))
  }

  /** The relay keeps the order, whatever the bytes of the pieces, exactly when no gap opens
      behind a piece cut short. */
  lemma PrefixExactly(pieces: seq<seq<byte>>, outcomes: seq<int>)
    ensures NoGap(pieces, outcomes) <==>
            forall other :: SameLengths(pieces, other) ==> SendsPrefix(other, outcomes)
  {
    if NoGap(pieces, outcomes) {
      forall other | SameLengths(pieces, other)
        ensures SendsPrefix(other, outcomes)
      {
        GapsByLength(pieces, other, outcomes);
        PushedIsPrefixOfAll(other, outcomes);
      }
    } else {
      var other := Scrambled(pieces, outcomes);
      assert SameLengths(pieces, other) && !SendsPrefix(other, outcomes);
    }
  }

  // ---- Only lengths matter ----

  lemma {:induction false} WritesByLength(a: seq<byte>, b: seq<byte>, outcomes: seq<int>)
    requires |a| == |b|
    ensures WriteAll(a, outcomes) == WriteAll(b, outcomes)
    decreases |a|
  {
    if a != [] && !Refuses(outcomes) {
      var n := Accepts(outcomes, |a|);
      WritesByLength(a[n..], b[n..], Later(outcomes));
    }
  }

  lemma {:induction false} GapsByLength(a: seq<seq<byte>>, b: seq<seq<byte>>, outcomes: seq<int>)
    requires SameLengths(a, b)
    ensures NoGap(a, outcomes) == NoGap(b, outcomes)
    decreases |a|
  {
    hide WriteAll, NoGap;
    if a == [] {
      assert b == [];
    } else {
      NoGapStep(a, outcomes);
      NoGapStep(b, outcomes);
      WritesByLength(a[0], b[0], outcomes);
      assert AllEmpty(a[1..]) <==> AllEmpty(b[1..]) by {
        assert forall i :: 0 <= i < |a| - 1 ==> |a[1..][i]| == |b[1..][i]|;
      }
      GapsByLength(a[1..], b[1..], outcomes);
      GapsByLength(a[1..], b[1..], WriteAll(a[0], outcomes).rest);
    }
  }

  // ---- A gap shows in some contents ----

  function Zeros(pieces: seq<seq<byte>>): seq<seq<byte>> {
    seq(|pieces|, i requires 0 <= i < |pieces| => seq(|pieces[i]|, j => 0))
  }

  predicate AllZero(s: seq<byte>) {
    forall i :: 0 <= i < |s| ==> s[i] == 0
  }

  lemma {:induction false} ZerosSendZeros(pieces: seq<seq<byte>>, outcomes: seq<int>)
    requires forall i :: 0 <= i < |pieces| ==> AllZero(pieces[i])
    ensures AllZero(PushAll(pieces, outcomes).sent)
    decreases |pieces|
  {
    hide WriteAll, PushAll;
    PushAllStep(pieces, outcomes);
    if pieces != [] {
      ZerosSendZeros(pieces[1..], outcomes);
      ZerosSendZeros(pieces[1..], WriteAll(pieces[0], outcomes).rest);
      assert AllZero(pieces[0]);
    }
  }

  /** A piece of zeros but for a one at the cut, then zeros: after the one is skipped, the
      next thing sent is a zero. */
  lemma CutShows(pieces: seq<seq<byte>>, outcomes: seq<int>) returns (other: seq<seq<byte>>)
    requires pieces != [] && pieces[0] != []
    requires var w := WriteAll(pieces[0], outcomes);
             0 < w.taken < |pieces[0]| && !Refuses(w.rest) && !AllEmpty(pieces[1..])
    ensures SameLengths(pieces, other) && !SendsPrefix(other, outcomes)
  {
    hide WriteAll, PushAll, AllEmpty;
    var w, k := WriteAll(pieces[0], outcomes), WriteAll(pieces[0], outcomes).taken;
    var first := seq(|pieces[0]|, i => 0)[k := 1];
    var later := Zeros(pieces[1..]);
    other := [first] + later;
    assert other[1..] == later;
    WritesByLength(pieces[0], first, outcomes);
    PieceStep(other, outcomes);
    var next := PushAll(later, w.rest);
    ZerosSendZeros(later, w.rest);
    NothingSentExactly(later, w.rest);
    EmptyByLength(pieces[1..], later);
    var p := PushAll(other, outcomes);
    assert p.sent == first[..k] + next.sent && p.sent[k] == 0;
    assert Flatten(other) == first + Flatten(later) && Flatten(other)[k] == 1;
    assert SameLengths(pieces, other);
    DiffersAt(p.sent, Flatten(other), k);
  }

  lemma DiffersAt(a: seq<byte>, b: seq<byte>, k: nat)
    requires k < |a| && k < |b| && a[k] != b[k]
    ensures !IsPrefix(a, b)
  {
    assert |a| <= |b| ==> b[..|a|][k] == b[k];
  }

  lemma EmptyByLength(a: seq<seq<byte>>, b: seq<seq<byte>>)
    requires SameLengths(a, b)
    ensures AllEmpty(a) <==> AllEmpty(b)
  {
  }

  lemma {:induction false} Scrambled(pieces: seq<seq<byte>>, outcomes: seq<int>) returns (other: seq<seq<byte>>)
    requires !NoGap(pieces, outcomes)
    ensures SameLengths(pieces, other) && !SendsPrefix(other, outcomes)
    decreases |pieces|
  {
    hide WriteAll, NoGap, AllEmpty;
    NoGapHere(pieces, outcomes);
    NoGapStep(pieces, outcomes);
    WriteAllStep(pieces[0], outcomes);
    var w := WriteAll(pieces[0], outcomes);
    if pieces[0] == [] {
      var more := Scrambled(pieces[1..], outcomes);
      other := [pieces[0]] + more;
      FrontKept(pieces[0], more, outcomes);
    } else if w.taken == |pieces[0]| {
      var more := Scrambled(pieces[1..], w.rest);
      other := [pieces[0]] + more;
      FrontKept(pieces[0], more, outcomes);
    } else {
      other := CutShows(pieces, outcomes);
    }
  }

  lemma NoGapHere(pieces: seq<seq<byte>>, outcomes: seq<int>)
    ensures pieces == [] ==> NoGap(pieces, outcomes)
  {
  }

  /** A piece taken whole in front changes nothing about the order of what follows. */
  lemma FrontKept(front: seq<byte>, more: seq<seq<byte>>, outcomes: seq<int>)
    requires WriteAll(front, outcomes).taken == |front|
    requires front == [] ==> WriteAll(front, outcomes).rest == outcomes
    requires !SendsPrefix(more, WriteAll(front, outcomes).rest)
    ensures !SendsPrefix([front] + more, outcomes)
  {
    hide WriteAll, PushAll;
    var all, w := [front] + more, WriteAll(front, outcomes);
    assert all[1..] == more;
    PushAllStep(all, outcomes);
    var next := PushAll(more, w.rest);
    assert PushAll(all, outcomes).sent == front + next.sent;
    assert Flatten(all) == front + Flatten(more);
    PrefixBehind(front, next.sent, Flatten(more));
  }

  lemma PrefixBehind(front: seq<byte>, a: seq<byte>, b: seq<byte>)
    ensures IsPrefix(front + a, front + b) ==> IsPrefix(a, b)
  {
    if IsPrefix(front + a, front + b) {
      assert (front + b)[..|front + a|][|front|..] == b[..|a|];
      assert (front + a)[|front|..] == a;
    }
  }

  // ---- Sockets that stay failed ----

  /** A failed socket stays failed. */
  ghost predicate Sticky(outcomes: seq<int>) {
    forall i, j :: 0 <= i < j < |outcomes| && outcomes[i] <= 0 ==> outcomes[j] <= 0
  }

  /** A short write leaves a sticky socket refusing for ever; a full one leaves it sticky. */
  lemma {:induction false} ShortWriteMeansFailed(data: seq<byte>, outcomes: seq<int>)
    requires Sticky(outcomes)
    ensures Sticky(WriteAll(data, outcomes).rest)
    ensures WriteAll(data, outcomes).taken < |data| ==> Refuses(WriteAll(data, outcomes).rest)
    ensures Refuses(outcomes) ==> Refuses(WriteAll(data, outcomes).rest)
    decreases |data|
  {
    if data != [] && !Refuses(outcomes) {
      ShortWriteMeansFailed(data[Accepts(outcomes, |data|)..], Later(outcomes));
    }
  }

  /** A socket that stays failed never leaves a gap; and as long as it has not failed,
      everything has been sent. */
  lemma {:induction false} StickyHasNoGap(pieces: seq<seq<byte>>, outcomes: seq<int>)
    requires Sticky(outcomes)
    ensures NoGap(pieces, outcomes)
    ensures !Refuses(PushAll(pieces, outcomes).rest) ==> NoFailure(pieces, outcomes)
    ensures Refuses(outcomes) ==> Refuses(PushAll(pieces, outcomes).rest)
    decreases |pieces|
  {
    hide WriteAll, PushAll, Sticky;
    PushAllStep(pieces, outcomes);
    if pieces != [] {
      var w := WriteAll(pieces[0], outcomes);
      ShortWriteMeansFailed(pieces[0], outcomes);
      StickyHasNoGap(pieces[1..], outcomes);
      StickyHasNoGap(pieces[1..], w.rest);
      WriteAllStep(pieces[0], outcomes);
    }
  }

  // ---- Both sides of the condition, on schedules that recover ----

  /** writeFull reports a short write as progress, so copyStream goes on to the next piece:
      a socket that refuses once behind a partial send loses the middle of the stream. */
  lemma ShortWriteThenRecoveryLosesBytes()
    ensures !NoGap([[1, 2], [3]], [1, 0, 1])
    ensures PushAll([[1, 2], [3]], [1, 0, 1]) == Pushed([1, 3], [], true, 2)
    ensures !SendsPrefix([[1, 2], [3]], [1, 0, 1])
  {
    hide WriteAll, PushAll, Flatten, NoGap;
    var pieces: seq<seq<byte>> := [[1, 2], [3]];
    FlattenTwo<byte>([1, 2], [3]);
    DiffersAt([1, 3], [1, 2, 3], 1);
    ShortWrite();
    PushAllStep(pieces, [1, 0, 1]);
    PushAllStep(pieces[1..], [1]);
    PushAllStep(pieces[1..][1..], []);
    NoGapStep(pieces, [1, 0, 1]);
    assert pieces[1..][0] != [];
  }

  lemma ShortWrite()
    ensures WriteAll([1, 2], [1, 0, 1]) == Written(1, 0, [1])
    ensures WriteAll([3], [1]) == Written(1, 0, [])
  {
    hide WriteAll;
    WriteAllStep([1, 2], [1, 0, 1]);
    WriteAllStep([1, 2][1..], [0, 1]);
    WriteAllStep([3], [1]);
    WriteAllStep([3][1..], []);
  }

  /** Recovery by itself does no harm: here no piece is cut short. */
  lemma RecoveryWithoutAGap()
    ensures !Sticky([1, 0, 1]) && NoGap([[7], [8]], [1, 0, 1])
    ensures PushAll([[7], [8]], [1, 0, 1]).sent == [7]
  {
    assert [1, 0, 1][1] <= 0 && [1, 0, 1][2] > 0;
    var pieces: seq<seq<byte>> := [[7], [8]];
    hide WriteAll, PushAll, Sticky;
    WriteAllStep([7], [1, 0, 1]);
    WriteAllStep([7][1..], [0, 1]);
    WriteAllStep([8], [0, 1]);
    PushAllStep(pieces, [1, 0, 1]);
    PushAllStep(pieces[1..], [0, 1]);
    NoGapStep(pieces, [1, 0, 1]);
    NoGapStep(pieces[1..], [0, 1]);
  }
}
