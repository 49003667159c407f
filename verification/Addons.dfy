// Protobuf addons of a VLESS request: decodeVarint and the field loop of parseAddons.
module Addons {
  import opened Bytes

  const U64 := 0x1_0000_0000_0000_0000

  // ---- Varints ----

  function Pow128(k: nat): (p: nat)
    ensures p >= 1
  {
    if k == 0 then 1 else 128 * Pow128(k - 1)
  }

  lemma {:induction false} Pow128UpTo9(k: nat)
    requires k <= 9
    ensures Pow128(k) <= 0x8000_0000_0000_0000
    ensures k <= 8 ==> Pow128(k) <= 0x0100_0000_0000_0000
    ensures k == 9 ==> Pow128(k) == 0x8000_0000_0000_0000
  {
    assert Pow128(3) == 0x20_0000;
    assert Pow128(6) == 0x400_0000_0000 by { assert Pow128(4) == 128 * Pow128(3); assert Pow128(5) == 128 * Pow128(4); }
    assert Pow128(8) == 0x0100_0000_0000_0000 by { assert Pow128(7) == 128 * Pow128(6); }
    assert Pow128(9) == 128 * Pow128(8);
    Pow128Monotone(k, 9);
    if k <= 8 {
      Pow128Monotone(k, 8);
    }
  }

  lemma {:induction false} Pow128Monotone(a: nat, b: nat)
    requires a <= b
    ensures Pow128(a) <= Pow128(b)
  {
    if a < b {
      Pow128Monotone(a, b - 1);
    }
  }

  /** The sum of the 7-bit groups, least significant first. */
  function GroupSum(g: seq<byte>): nat {
    if g == [] then 0 else g[0] % 128 + 128 * GroupSum(g[1..])
  }

  /** A varint: at most ten bytes, the top bit set on all but the last. */
  predicate IsVarint(g: seq<byte>) {
    && 1 <= |g| <= 10
    && g[|g| - 1] < 128
    && forall i :: 0 <= i < |g| - 1 ==> g[i] >= 128
  }

  function Value(g: seq<byte>): nat {
    GroupSum(g) % U64
  }

  lemma {:induction false} GroupSumSnoc(g: seq<byte>, b: byte)
    ensures GroupSum(g + [b]) == GroupSum(g) + b % 128 * Pow128(|g|)
    ensures GroupSum(g) < Pow128(|g|)
  {
    if g == [] {
      assert GroupSum([b]) == b % 128 + 128 * GroupSum([b][1..]);
    } else {
      assert (g + [b])[1..] == g[1..] + [b];
      GroupSumSnoc(g[1..], b);
      var c, p := b % 128, Pow128(|g| - 1);
      assert 128 * (c * p) == c * (128 * p);
    }
  }

  /** Adding the next group at its place, in 64 bits: the groups do not overlap, so the
      | of the code is this sum; bits above 63 are shifted out. */
  lemma NextGroup(g: seq<byte>, b: byte)
    requires |g| <= 9
    ensures GroupSum(g) < U64
    ensures GroupSum(g) + b % 128 * Pow128(|g|) % U64 == Value(g + [b])
    ensures |g| <= 8 ==> Value(g + [b]) == GroupSum(g + [b])
  {
    hide GroupSum, Pow128;
    GroupSumSnoc(g, b);
    Pow128UpTo9(|g|);
    GroupFits(b % 128, Pow128(|g|), GroupSum(g), |g|);
  }

  lemma GroupFits(c: int, p: int, sum: int, k: nat)
    requires 0 <= c < 128 && 0 <= sum < p && k <= 9
    requires k <= 8 ==> p <= 0x0100_0000_0000_0000
    requires k == 9 ==> p == 0x8000_0000_0000_0000
    ensures sum + c * p % U64 == (sum + c * p) % U64
    ensures k <= 8 ==> sum + c * p < U64
  {
    if k == 9 {
      var high := c / 2;
      assert c * p == high * U64 + c % 2 * 0x8000_0000_0000_0000;
    } else {
      assert c * p <= 127 * p;
    }
  }

  /** How long the varint at the front of s is; 0 when there is none. */
  function VarintLen(s: seq<byte>): nat {
    VarintLenFrom(s, 0)
  }

  function VarintLenFrom(s: seq<byte>, k: nat): (n: nat)
    ensures n <= |s| && n <= 10 && (n > 0 ==> k < n)
    decreases 10 - k
  {
    if k >= 10 || k >= |s| then 0
    else if s[k] < 128 then k + 1
    else VarintLenFrom(s, k + 1)
  }

  lemma {:induction false} VarintLenSound(s: seq<byte>, k: nat)
    requires forall i :: 0 <= i < k && i < |s| ==> s[i] >= 128
    ensures var n := VarintLenFrom(s, k);
            n > 0 ==> IsVarint(s[..n])
    decreases 10 - k
  {
    if k < 10 && k < |s| && s[k] >= 128 {
      VarintLenSound(s, k + 1);
    }
  }

  lemma {:induction false} VarintLenComplete(g: seq<byte>, rest: seq<byte>, k: nat)
    requires IsVarint(g) && k < |g|
    ensures VarintLenFrom(g + rest, k) == |g|
    decreases 10 - k
  {
    if g[k] >= 128 {
      VarintLenComplete(g, rest, k + 1);
    }
  }

  method DecodeVarint(bytes: seq<byte>, start: nat) returns (ok: bool, value: nat, pos: nat)
    requires start <= |bytes|
    ensures start <= pos <= |bytes|
    ensures ok <==> VarintLen(bytes[start..]) > 0
    ensures ok ==> pos == start + VarintLen(bytes[start..]) && value == Value(bytes[start..pos])
  {
    hide Value, GroupSum, Pow128;
    value, pos := 0, start;
    var shift := 0;
    ghost var s := bytes[start..];
    EmptySum(bytes[start..start]);
    while pos < |bytes| && shift <= 63
      invariant start <= pos <= |bytes| && shift == 7 * (pos - start) && shift <= 70
      invariant shift <= 63 ==> value == GroupSum(bytes[start..pos])
      invariant VarintLen(s) == VarintLenFrom(s, pos - start)
    {
      var b := bytes[pos];
      ghost var g := bytes[start..pos];
      NextGroup(g, b);
      assert bytes[start..pos + 1] == g + [b];
      assert s[pos - start] == b;
      value := value + b % 128 * Pow128(shift / 7) % U64;
      pos := pos + 1;
      if b < 128 {
        return true, value, pos;
      }
      shift := shift + 7;
    }
    return false, 0, pos;
  }

  lemma EmptySum(g: seq<byte>)
    requires g == []
    ensures GroupSum(g) == 0
  {
  }

  // ---- Canonical encoding ----

  function EncodeVarint(v: nat): seq<byte> {
    if v < 128 then [v] else [128 + v % 128] + EncodeVarint(v / 128)
  }

  lemma {:induction false} EncodeShape(v: nat, k: nat)
    requires k >= 1 && v < Pow128(k)
    ensures var g := EncodeVarint(v);
            && 1 <= |g| <= k && g[|g| - 1] < 128 && (forall i :: 0 <= i < |g| - 1 ==> g[i] >= 128)
            && GroupSum(g) == v
  {
    if v < 128 {
      assert GroupSum([v]) == v % 128 + 128 * GroupSum([v][1..]);
    } else {
      assert Pow128(1) == 128 * Pow128(0);
      EncodeShape(v / 128, k - 1);
      var tail := EncodeVarint(v / 128);
      var g := [128 + v % 128] + tail;
      assert g[1..] == tail;
      assert (128 + v % 128) % 128 == v % 128;
    }
  }

  /** decodeVarint inverts the canonical encoding of every 64-bit value. */
  lemma EncodeVarintDecodes(v: nat)
    requires v < U64
    ensures IsVarint(EncodeVarint(v)) && Value(EncodeVarint(v)) == v
  {
    hide EncodeVarint, GroupSum;
    Pow128UpTo9(9);
    assert Pow128(10) == 128 * Pow128(9);
    EncodeShape(v, 10);
  }

  // ---- Fields ----

  /** A field on the wire: the raw varints of its tag and of its value (wire type 0) or length
      (wire type 2), so that encodings that are not the shortest are covered too. */
  datatype Field = Field(tag: seq<byte>, second: seq<byte>, payload: seq<byte>) {
    predicate WellFormed() {
      && IsVarint(tag) && IsVarint(second)
      && (IsScalar() || IsBlock())
    }

    predicate IsScalar() {
      Value(tag) % 8 == 0 && payload == []
    }

    predicate IsBlock() {
      Value(tag) % 8 == 2 && Value(second) == |payload|
    }

    function Wire(): seq<byte> {
      tag + second + payload
    }

    predicate Sets(number: nat) {
      Value(tag) % 8 == 2 && Value(tag) / 8 == number
    }
  }

  ghost predicate AllWellFormed(fs: seq<Field>) {
    forall i :: 0 <= i < |fs| ==> fs[i].WellFormed()
  }

  function WireOf(fs: seq<Field>): seq<byte> {
    if fs == [] then [] else fs[0].Wire() + WireOf(fs[1..])
  }

  const FLOW := 1
  const SEED := 2

  /** The payload of the last field with this number. */
  function LastOf(fs: seq<Field>, number: nat, otherwise: seq<byte>): seq<byte> {
    if fs == [] then otherwise
    else if fs[|fs| - 1].Sets(number) then fs[|fs| - 1].payload
    else LastOf(fs[..|fs| - 1], number, otherwise)
  }

  lemma LastOfSnoc(fs: seq<Field>, f: Field, number: nat, otherwise: seq<byte>)
    ensures LastOf(fs + [f], number, otherwise) == if f.Sets(number) then f.payload else LastOf(fs, number, otherwise)
  {
    assert (fs + [f])[..|fs|] == fs;
  }

  /** What a field of this number says in the end: the payload of the last one, or nothing. */
  ghost predicate LastSays(fs: seq<Field>, number: nat, v: seq<byte>) {
    || (v == [] && forall i :: 0 <= i < |fs| ==> Value(fs[i].tag) != 8 * number + 2)
    || exists i :: LastAt(fs, number, i) && v == fs[i].payload
  }

  ghost predicate LastAt(fs: seq<Field>, number: nat, i: int) {
    && 0 <= i < |fs| && Value(fs[i].tag) == 8 * number + 2
    && forall j :: i < j < |fs| ==> Value(fs[j].tag) != 8 * number + 2
  }

  lemma {:induction false} LastOfSays(fs: seq<Field>, number: nat)
    ensures LastSays(fs, number, LastOf(fs, number, []))
  {
    hide Value;
    if fs != [] {
      var last := |fs| - 1;
      if fs[last].Sets(number) {
        assert LastAt(fs, number, last);
      } else {
        var before := fs[..last];
        LastOfSays(before, number);
        if i :| LastAt(before, number, i) && LastOf(fs, number, []) == before[i].payload {
          assert LastAt(fs, number, i);
        }
      }
    }
  }

  /** The field at the front of the data. */
  function TakeField(s: seq<byte>): Option<Field> {
    var t := VarintLen(s);
    if t == 0 then None
    else
      var n := VarintLen(s[t..]);
      if n == 0 then None
      else Classify(s[..t], s[t..t + n], s[t + n..])
  }

  function Classify(tag: seq<byte>, second: seq<byte>, rest: seq<byte>): Option<Field> {
    if Value(tag) % 8 == 0 then Some(Field(tag, second, []))
    else if Value(tag) % 8 == 2 && Value(second) <= |rest| then Some(Field(tag, second, rest[..Value(second)]))
    else None
  }

  lemma TakeFieldSound(s: seq<byte>)
    ensures var r := TakeField(s);
            r.Some? ==> r.value.WellFormed() && 0 < |r.value.Wire()| <= |s| && r.value.Wire() == s[..|r.value.Wire()|]
  {
    hide Value, VarintLenFrom, IsVarint, Classify, Field.Wire, Field.WellFormed;
    var t := VarintLen(s);
    var n := VarintLen(s[t..]);
    VarintLenSound(s, 0);
    VarintLenSound(s[t..], 0);
    if t > 0 && n > 0 {
      assert s[t..][..n] == s[t..t + n];
      ClassifySound(s, t, n);
    }
  }

  lemma ClassifySound(s: seq<byte>, t: nat, n: nat)
    requires 0 < t && 0 < n && t + n <= |s| && IsVarint(s[..t]) && IsVarint(s[t..t + n])
    ensures var r := Classify(s[..t], s[t..t + n], s[t + n..]);
            r.Some? ==> r.value.WellFormed() && 0 < |r.value.Wire()| <= |s| && r.value.Wire() == s[..|r.value.Wire()|]
  {
    hide Value, IsVarint;
  }

  lemma TakeFieldComplete(f: Field, rest: seq<byte>)
    requires f.WellFormed()
    ensures TakeField(f.Wire() + rest) == Some(f)
  {
    WireShape(f, rest);
    VarintNotEmpty(f.tag);
    VarintNotEmpty(f.second);
    VarintLenComplete(f.tag, f.second + (f.payload + rest), 0);
    VarintLenComplete(f.second, f.payload + rest, 0);
    ClassifyComplete(f, rest);
    hide Classify, VarintLenFrom, IsVarint, Field.Wire, Field.WellFormed;
  }

  lemma WireShape(f: Field, rest: seq<byte>)
    ensures var s, t, n := f.Wire() + rest, |f.tag|, |f.second|;
            && s == f.tag + (f.second + (f.payload + rest))
            && s[..t] == f.tag && s[t..] == f.second + (f.payload + rest)
            && s[t..t + n] == f.second && s[t + n..] == f.payload + rest
  {
    var s := f.Wire() + rest;
    assert s == f.tag + (f.second + (f.payload + rest));
  }

  lemma ClassifyComplete(f: Field, rest: seq<byte>)
    requires f.WellFormed()
    ensures Classify(f.tag, f.second, f.payload + rest) == Some(f)
  {
    hide Value, IsVarint;
    assert (f.payload + rest)[..|f.payload|] == f.payload;
  }

  lemma VarintNotEmpty(g: seq<byte>)
    requires IsVarint(g)
    ensures 1 <= |g| <= 10
  {
  }

  function Fields(s: seq<byte>): Option<seq<Field>>
    decreases |s|
  {
    if s == [] then Some([])
    else
      TakeFieldSound(s);
      var f := TakeField(s);
      if f.None? then None
      else
        var more := Fields(s[|f.value.Wire()|..]);
        if more.None? then None else Some([f.value] + more.value)
  }

  /** The data parse exactly when they are the wire form of well-formed fields,
      and then to those fields. */
  lemma {:induction false} FieldsSound(s: seq<byte>)
    ensures Fields(s).Some? ==> AllWellFormed(Fields(s).value) && WireOf(Fields(s).value) == s
    decreases |s|
  {
    hide TakeField, Field.Wire, Field.WellFormed;
    if s != [] {
      TakeFieldSound(s);
      var f := TakeField(s);
      if f.Some? {
        FieldsSound(s[|f.value.Wire()|..]);
        if Fields(s).Some? {
          var fs := Fields(s).value;
          assert fs[1..] == Fields(s[|f.value.Wire()|..]).value;
        }
      }
    }
  }

  lemma {:induction false} FieldsComplete(fs: seq<Field>)
    requires AllWellFormed(fs)
    ensures Fields(WireOf(fs)) == Some(fs)
  {
    hide TakeField, Field.Wire, Field.WellFormed;
    if fs != [] {
      var f, rest := fs[0], WireOf(fs[1..]);
      FieldsComplete(fs[1..]);
      TakeFieldComplete(f, rest);
      TakeFieldSound(f.Wire() + rest);
      assert (f.Wire() + rest)[|f.Wire()|..] == rest;
      assert [f] + fs[1..] == fs;
    }
  }

  datatype Parsed = Parsed(ok: bool, flow: seq<byte>, seed: seq<byte>)

  function Meaning(data: seq<byte>): Parsed {
    if Fields(data).None? then Parsed(false, [], [])
    else Parsed(true, LastOf(Fields(data).value, FLOW, []), LastOf(Fields(data).value, SEED, []))
  }

  /** parseAddons on any sequence of well-formed fields of wire types 0 and 2 returns the
      last flow and the last seed, and it rejects everything else. */
  lemma AddonsMeaning(data: seq<byte>)
    ensures Meaning(data).ok <==> exists fs :: AllWellFormed(fs) && WireOf(fs) == data
    ensures forall fs :: AllWellFormed(fs) && WireOf(fs) == data ==>
              Meaning(data) == Parsed(true, LastOf(fs, FLOW, []), LastOf(fs, SEED, []))
  {
    hide Fields, WireOf, LastOf;
    FieldsSound(data);
    forall fs | AllWellFormed(fs) && WireOf(fs) == data
      ensures Fields(data) == Some(fs)
    {
      FieldsComplete(fs);
    }
  }

  /** The field loop of parseAddons. */
  method ParseAddons(data: seq<byte>) returns (r: Parsed)
    ensures r == Meaning(data)
  {
    hide Fields, LastOf, TakeField, Field.Wire, Field.WellFormed, Value;
    var pos: nat := 0;
    var flow, seed := [], [];
    ghost var done: seq<Field> := [];
    EmptyFields();
    assert data[0..] == data;
    while pos < |data|
      invariant pos <= |data|
      invariant Fields(data) == After(done, Fields(data[pos..]))
      invariant flow == LastOf(done, FLOW, []) && seed == LastOf(done, SEED, [])
    {
      ghost var s := data[pos..];
      TakeFieldSound(s);
      FieldsStep(s);
      var ok, f := NextField(data, pos);
      if !ok {
        return Parsed(false, [], []);
      }
      LastOfSnoc(done, f, FLOW, []);
      LastOfSnoc(done, f, SEED, []);
      if Value(f.tag) % 8 == 2 && Value(f.tag) / 8 == FLOW {
        flow := f.payload;
      } else if Value(f.tag) % 8 == 2 && Value(f.tag) / 8 == SEED {
        seed := f.payload;
      }
      assert s[|f.Wire()|..] == data[pos + |f.Wire()|..];
      AfterSnoc(done, f, Fields(data[pos + |f.Wire()|..]));
      done := done + [f];
      pos := pos + |f.Wire()|;
    }
    FieldsStep(data[pos..]);
    assert done + [] == done;
    return Parsed(true, flow, seed);
  }

  function After(done: seq<Field>, more: Option<seq<Field>>): Option<seq<Field>> {
    if more.None? then None else Some(done + more.value)
  }

  lemma AfterSnoc(done: seq<Field>, f: Field, more: Option<seq<Field>>)
    ensures After(done, After([f], more)) == After(done + [f], more)
  {
    if more.Some? {
      assert done + ([f] + more.value) == done + [f] + more.value;
    }
  }

  lemma FieldsStep(s: seq<byte>)
    ensures s == [] ==> Fields(s) == Some([])
    ensures s != [] && TakeField(s).None? ==> Fields(s) == None
    ensures s != [] && TakeField(s).Some? && |TakeField(s).value.Wire()| <= |s| ==>
              Fields(s) == After([TakeField(s).value], Fields(s[|TakeField(s).value.Wire()|..]))
  {
  }

  lemma EmptyFields()
    ensures LastOf([], FLOW, []) == [] && LastOf([], SEED, []) == []
    ensures forall more :: After([], more) == more
  {
    forall more: Option<seq<Field>>
      ensures After([], more) == more
    {
      if more.Some? {
        assert [] + more.value == more.value;
      }
    }
  }

  /** One turn of the loop: decode the field at pos. */
  method NextField(data: seq<byte>, start: nat) returns (ok: bool, f: Field)
    requires start < |data|
    ensures ok <==> TakeField(data[start..]).Some?
    ensures ok ==> f == TakeField(data[start..]).value
  {
    hide Value, VarintLen;
    ghost var s := data[start..];
    f := Field([], [], []);
    var tag, pos, value, end;
    ok, tag, pos := DecodeVarint(data, start);
    if !ok {
      return;
    }
    assert s[..pos - start] == data[start..pos] && s[pos - start..] == data[pos..];
    var wireType := tag % 8;
    if wireType != 2 && wireType != 0 {
      return false, f;
    }
    ok, value, end := DecodeVarint(data, pos);
    if !ok {
      return;
    }
    assert s[pos - start..end - start] == data[pos..end] && s[end - start..] == data[end..];
    if wireType == 0 {
      f := Field(data[start..pos], data[pos..end], []);
    } else if value > |data| - end {
      ok := false;
    } else {
      assert data[end..][..value] == data[end..end + value];
      f := Field(data[start..pos], data[pos..end], data[end..end + value]);
    }
  }
}
