// UringBufferedStream: exact reads of n bytes over a stream that arrives in pieces.
module BufferedStream {
  import opened Bytes
  import opened Streams

  /** What has been read in and not handed out, and what has not been read in. */
  datatype Reading = Reading(held: seq<byte>, chunks: seq<seq<byte>>) {
    function Bytes(): seq<byte> {
      held + Flatten(chunks)
    }
  }

  predicate NoneEmpty(chunks: seq<seq<byte>>) {
    forall i :: 0 <= i < |chunks| ==> chunks[i] != []
  }

  /** Pieces are read in until `need` bytes are held or the stream ends. */
  function Filled(r: Reading, need: nat): Reading
    decreases |r.chunks|
  {
    if |r.held| >= need || r.chunks == [] then r
    else Filled(Reading(r.held + r.chunks[0], r.chunks[1..]), need)
  }

  /** What is left when `need` bytes are handed out, or all if there are fewer. */
  function Took(r: Reading, need: nat): Reading {
    var f := Filled(r, need);
    Reading(if |f.held| >= need then f.held[need..] else [], f.chunks)
  }

  lemma {:induction false} FilledKeeps(r: Reading, need: nat)
    ensures var f := Filled(r, need);
            && f.Bytes() == r.Bytes()
            && (|f.held| < need <==> |r.Bytes()| < need) && (|f.held| < need ==> f.chunks == [])
            && (|r.held| >= need ==> f == r)
            && (NoneEmpty(r.chunks) ==> NoneEmpty(f.chunks))
    decreases |r.chunks|
  {
    if |r.held| < need && r.chunks != [] {
      FilledKeeps(Reading(r.held + r.chunks[0], r.chunks[1..]), need);
      assert r.held + (r.chunks[0] + Flatten(r.chunks[1..])) == r.held + r.chunks[0] + Flatten(r.chunks[1..]);
    }
  }

  /** What is handed out and what is left are what there was. */
  lemma TookRest(r: Reading, need: nat)
    ensures Took(r, need).Bytes() == if |r.Bytes()| >= need then r.Bytes()[need..] else []
  {
    FilledKeeps(r, need);
    hide Filled;
    var f := Filled(r, need);
    if |f.held| >= need {
      assert f.Bytes()[need..] == f.held[need..] + Flatten(f.chunks);
    }
  }

  /** Two reads in a row leave what one read of both lengths would. */
  lemma {:induction false} TookTwice(r: Reading, first: nat, second: nat)
    ensures Took(Took(r, first), second) == Took(r, first + second)
    decreases |r.chunks|
  {
    if |r.held| >= first {
      if |r.held| < first + second && r.chunks != [] {
        var next := Reading(r.held + r.chunks[0], r.chunks[1..]);
        assert (r.held + r.chunks[0])[first..] == r.held[first..] + r.chunks[0];
        TookTwice(next, first, second);
      } else {
        assert |r.held| >= first + second ==> r.held[first..][second..] == r.held[first + second..];
      }
    } else if r.chunks != [] {
      TookTwice(Reading(r.held + r.chunks[0], r.chunks[1..]), first, second);
    }
  }

  /** What is held and what is unread once all but the last bytes of a stream are handed out. */
  function AllBut(arriving: seq<seq<byte>>, last: nat): Reading {
    var n := |Flatten(arriving)| - last;
    if n < 0 then Reading([], arriving) else Took(Reading([], arriving), n)
  }

  class UringBufferedStream {
    const stream: Source
    var buffer: seq<byte>
    var consumed: nat
    // the pieces as they were in the beginning, and how many bytes have been asked for
    ghost const arriving: seq<seq<byte>>
    ghost var asked: nat

    ghost predicate Valid()
      reads this, stream
    {
      && consumed <= |buffer| && stream.Valid()
      && NoneEmpty(arriving) && View() == Took(Reading([], arriving), asked)
    }

    ghost function View(): Reading
      requires consumed <= |buffer|
      reads this, stream
    {
      Reading(buffer[consumed..], stream.chunks)
    }

    /** Everything not yet handed out: what is buffered and what the stream will still deliver. */
    ghost function Remaining(): seq<byte>
      requires Valid()
      reads this, stream
    {
      View().Bytes()
    }

    constructor (stream: Source)
      requires stream.Valid()
      ensures this.stream == stream && arriving == stream.chunks
      ensures Valid() && Remaining() == Flatten(stream.chunks)
    {
      this.stream, buffer, consumed := stream, [], 0;
      arriving, asked := stream.chunks, 0;
    }

    function Available(): nat
      requires Valid()
      reads this, stream
    {
      |buffer| - consumed
    }

    method Consume(n: nat) returns (result: seq<byte>)
      requires consumed + n <= |buffer|
      modifies `buffer, `consumed
      ensures consumed <= |buffer|
      ensures result == old(View()).held[..n] && View() == Reading(old(View()).held[n..], stream.chunks)
    {
      HeldSlices(buffer, consumed, n);
      result := buffer[consumed..consumed + n];
      consumed := consumed + n;
      if consumed == |buffer| {
        buffer := [];
        consumed := 0;
      }
    }

    /** Exactly `need` bytes when that many are still to come; otherwise all there is. No more
        pieces are read in than that takes. */
    method Read(need: nat) returns (data: seq<byte>)
      requires Valid()
      modifies this, stream
      ensures Valid() && View() == Took(old(View()), need)
      ensures |old(Remaining())| >= need ==>
                data == old(Remaining())[..need] && Remaining() == old(Remaining())[need..]
      ensures |old(Remaining())| < need ==> data == old(Remaining()) && Remaining() == []
    {
      ghost var was := View();
      FilledKeeps(was, need);
      TookRest(was, need);
      TookTwice(Reading([], arriving), asked, need);
      asked := asked + need;
      while |buffer| - consumed < need
        invariant consumed <= |buffer| && stream.Valid() && asked == old(asked) + need
        invariant Filled(View(), need) == Filled(was, need)
        decreases |stream.chunks|
      {
        hide Took, Reading.Bytes, Flatten, NoneEmpty;
        ghost var here := View();
        FillStep(here, need);
        var rr := stream.Read();
        if rr.Error() || rr.Eof() {
          TookFrom(was, need, here);
          if |buffer| - consumed > 0 {
            data := Consume(|buffer| - consumed);
            return;
          }
          return [];
        }
        buffer := buffer + rr.data;
        assert View() == Reading(here.held + rr.data, stream.chunks);
      }
      hide Took, Reading.Bytes, Flatten, NoneEmpty;
      FillStep(View(), need);
      TookFrom(was, need, View());
      data := Consume(need);
    }

    /** The buffered bytes are handed out; with the unread pieces they are what remained. */
    method DrainRemaining() returns (result: seq<byte>)
      requires Valid()
      modifies this
      ensures Valid() && View() == Reading([], stream.chunks)
      ensures result + Flatten(stream.chunks) == old(Remaining())
      ensures Remaining() == Flatten(stream.chunks)
    {
      TookTwice(Reading([], arriving), asked, |buffer| - consumed);
      asked := asked + (|buffer| - consumed);
      result := buffer[consumed..];
      consumed := |buffer|;
    }

    /** How far the stream has got says what it holds. */
    lemma HoldsWhatWasReadAlong()
      requires Valid()
      ensures View() == AllBut(arriving, |Remaining()|)
    {
      var start := Reading([], arriving);
      var all := Flatten(arriving);
      assert start.Bytes() == all;
      TookRest(start, asked);
      if asked > |all| {
        TookAll(start, asked);
        TookAll(start, |all|);
      }
      hide Took, Flatten;
    }
  }

  lemma TookAll(r: Reading, need: nat)
    requires NoneEmpty(r.chunks) && need >= |r.Bytes()|
    ensures Took(r, need) == Reading([], [])
  {
    FilledKeeps(r, need);
    hide Filled;
    MoreToCome(Filled(r, need));
  }

  lemma HeldSlices(buffer: seq<byte>, consumed: nat, need: nat)
    requires consumed + need <= |buffer|
    ensures buffer[consumed..][need..] == buffer[consumed + need..]
    ensures buffer[consumed..][..need] == buffer[consumed..consumed + need]
  {
  }

  lemma AllInOnePiece(s: seq<byte>, last: nat)
    requires last < |s|
    ensures AllBut([s], last) == Reading(s[|s| - last..], [])
  {
    FlattenOne(s);
    assert [] + s == s && [s][1..] == [];
    FillStep(Reading([], [s]), |s| - last);
    FillStep(Reading(s, []), |s| - last);
    hide Filled;
  }

  lemma MoreToCome(r: Reading)
    requires NoneEmpty(r.chunks)
    ensures |r.Bytes()| > |r.held| || r.chunks == []
  {
  }

  lemma FillStep(r: Reading, need: nat)
    ensures |r.held| >= need || r.chunks == [] ==> Filled(r, need) == r
    ensures |r.held| < need && r.chunks != [] ==>
              Filled(r, need) == Filled(Reading(r.held + r.chunks[0], r.chunks[1..]), need)
  {
  }

  lemma TookFrom(r: Reading, need: nat, f: Reading)
    requires Filled(r, need) == f && Filled(f, need) == f
    ensures Took(r, need) == Reading(if |f.held| >= need then f.held[need..] else [], f.chunks)
    ensures |f.held| >= need ==> |r.Bytes()| >= need && r.Bytes()[..need] == f.held[..need]
    ensures f.chunks == [] ==> r.Bytes() == f.held
  {
    FilledKeeps(r, need);
    hide Filled;
  }
}
