// VisionWriter::isCompleteRecord: is a packet made of whole TLS application-data records?
// The record layout is that of RFC 8446 section 5.1; the code excludes empty records.
module TlsRecord {
  import opened Bytes

  /** One whole record: type 0x17, version 0x0303, a non-zero length and that much payload. */
  predicate IsRecord(r: seq<byte>) {
    |r| > 5 && r[0] == 0x17 && r[1] == 0x03 && r[2] == 0x03 && |r| == 5 + Be16(r[3], r[4])
  }

  /** The recursive grammar: nothing, or one record followed by whole records. */
  predicate WholeRecords(s: seq<byte>)
    decreases |s|
  {
    s == [] || (StartsWithRecord(s) && WholeRecords(s[5 + Be16(s[3], s[4])..]))
  }

  predicate StartsWithRecord(s: seq<byte>) {
    |s| > 5 && 5 + Be16(s[3], s[4]) <= |s| && IsRecord(s[..5 + Be16(s[3], s[4])])
  }

  /** Accepts exactly the concatenations of whole records. */
  lemma {:induction false} RecordsOf(s: seq<byte>) returns (records: seq<seq<byte>>)
    requires WholeRecords(s)
    ensures Flatten(records) == s && forall i :: 0 <= i < |records| ==> IsRecord(records[i])
    decreases |s|
  {
    if s == [] {
      records := [];
    } else {
      var n := 5 + Be16(s[3], s[4]);
      var more := RecordsOf(s[n..]);
      records := [s[..n]] + more;
      assert records[1..] == more;
      assert s[..n] + s[n..] == s;
    }
  }

  lemma {:induction false} RecordsAccepted(records: seq<seq<byte>>)
    requires forall i :: 0 <= i < |records| ==> IsRecord(records[i])
    ensures WholeRecords(Flatten(records))
  {
    if records != [] {
      var r, s := records[0], Flatten(records);
      RecordsAccepted(records[1..]);
      assert s[..|r|] == r && s[|r|..] == Flatten(records[1..]);
      assert s[3] == r[3] && s[4] == r[4];
    }
  }

  lemma WholeRecordsExactly(s: seq<byte>)
    ensures WholeRecords(s) <==>
            exists records: seq<seq<byte>> ::
              Flatten(records) == s && forall i :: 0 <= i < |records| ==> IsRecord(records[i])
  {
    if WholeRecords(s) {
      var records := RecordsOf(s);
    }
    forall records: seq<seq<byte>> | Flatten(records) == s && forall i :: 0 <= i < |records| ==> IsRecord(records[i])
      ensures WholeRecords(s)
    {
      RecordsAccepted(records);
    }
  }

  /** A record is its type, version, length and payload. */
  lemma RecordIs(r: seq<byte>)
    ensures IsRecord(r) <==> exists payload: seq<byte> ::
              0 < |payload| < 0x1_0000 && r == [0x17, 0x03, 0x03, Hi(|payload|), Lo(|payload|)] + payload
  {
    hide Hi, Lo, Be16;
    if IsRecord(r) {
      HiLoOfBe16(r[3], r[4]);
      assert r == [0x17, 0x03, 0x03, Hi(|r[5..]|), Lo(|r[5..]|)] + r[5..];
    }
    forall payload: seq<byte> | 0 < |payload| < 0x1_0000
      ensures IsRecord([0x17, 0x03, 0x03, Hi(|payload|), Lo(|payload|)] + payload)
    {
      Be16OfHiLo(|payload|);
    }
  }

  method IsCompleteRecord(data: seq<byte>) returns (complete: bool)
    ensures complete <==> WholeRecords(data)
  {
    hide WholeRecords;
    var headerLen: nat, recordLen: nat, i: nat := 5, 0, 0;
    ghost var start := 0;
    assert data[0..] == data;
    while i < |data|
      invariant 0 <= start <= i <= |data| && headerLen == 5 - (i - start) && 0 <= headerLen
      invariant headerLen <= 4 ==> data[start] == 0x17
      invariant headerLen <= 3 ==> data[start + 1] == 0x03
      invariant headerLen <= 2 ==> data[start + 2] == 0x03
      invariant headerLen >= 2 ==> recordLen == 0
      invariant headerLen == 1 ==> recordLen == Be16(data[start + 3], 0)
      invariant headerLen == 0 ==> recordLen == Be16(data[start + 3], data[start + 4])
      invariant WholeRecords(data) <==> WholeRecords(data[start..])
    {
      ghost var rest := data[start..];
      if headerLen > 0 {
        var b := data[i];
        i := i + 1;
        match headerLen {
          case 5 => if b != 0x17 { RejectedAt(rest, 0); return false; }
          case 4 => if b != 0x03 { RejectedAt(rest, 1); return false; }
          case 3 => if b != 0x03 { RejectedAt(rest, 2); return false; }
          case 2 => recordLen := Be16(b, 0);
          case _ => recordLen := recordLen + b;  // the low byte is still clear, so | is +
        }
        headerLen := headerLen - 1;
      } else if recordLen > 0 {
        var remaining := |data| - i;
        if remaining < recordLen {
          CutShort(rest);
          return false;
        }
        RecordTaken(rest);
        assert rest[5 + recordLen..] == data[i + recordLen..];
        i := i + recordLen;
        start := i;
        recordLen := 0;
        headerLen := 5;
      } else {
        CutShort(rest);
        return false;
      }
    }
    CutShort(data[start..]);
    return headerLen == 5 && recordLen == 0;
  }

  lemma RejectedAt(s: seq<byte>, k: nat)
    requires k <= 2 && k < |s| && s[k] != if k == 0 then 0x17 else 0x03
    ensures !WholeRecords(s)
  {
  }

  lemma CutShort(s: seq<byte>)
    ensures s == [] ==> WholeRecords(s)
    ensures 0 < |s| <= 5 ==> !WholeRecords(s)
    ensures |s| > 5 && (Be16(s[3], s[4]) == 0 || |s| < 5 + Be16(s[3], s[4])) ==> !WholeRecords(s)
  {
  }

  lemma RecordTaken(s: seq<byte>)
    requires |s| > 5 && s[0] == 0x17 && s[1] == 0x03 && s[2] == 0x03
    requires Be16(s[3], s[4]) > 0 && 5 + Be16(s[3], s[4]) <= |s|
    ensures WholeRecords(s) <==> WholeRecords(s[5 + Be16(s[3], s[4])..])
  {
    var r := s[..5 + Be16(s[3], s[4])];
    assert r[0] == s[0] && r[1] == s[1] && r[2] == s[2] && r[3] == s[3] && r[4] == s[4];
  }
}
