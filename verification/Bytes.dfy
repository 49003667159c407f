// Bytes, 16-bit big-endian fields and the flattening of a list of pieces.
module Bytes {

  type byte = x: int | 0 <= x < 256

  datatype Option<+T> = None | Some(value: T)

  /** The bytes of a list of pieces, in order: what a stream carries however it was cut. */
  function Flatten<T>(pieces: seq<seq<T>>): seq<T> {
    if pieces == [] then [] else pieces[0] + Flatten(pieces[1..])
  }

  lemma {:induction false} FlattenConcat<T>(a: seq<seq<T>>, b: seq<seq<T>>)
    ensures Flatten(a + b) == Flatten(a) + Flatten(b)
  {
    if a == [] {
      assert a + b == b;
    } else {
      assert (a + b)[1..] == a[1..] + b;
      FlattenConcat(a[1..], b);
    }
  }

  lemma FlattenSnoc<T>(a: seq<seq<T>>, x: seq<T>)
    ensures Flatten(a + [x]) == Flatten(a) + x
  {
    FlattenConcat(a, [x]);
    FlattenOne(x);
  }

  lemma FlattenOne<T>(a: seq<T>)
    ensures Flatten([a]) == a
  {
    assert [a][1..] == [];
  }

  lemma FlattenTwo<T>(a: seq<T>, b: seq<T>)
    ensures Flatten([a, b]) == a + b
  {
    assert [a, b][1..] == [b];
    FlattenOne(b);
  }

  // A 16-bit field is written as (n >> 8, n) and read as (hi << 8) | lo.

  function Hi(n: int): byte {
    n / 256 % 256
  }

  function Lo(n: int): byte {
    n % 256
  }

  function Be16(hi: byte, lo: byte): (n: int)
    ensures 0 <= n < 0x1_0000
  {
    hi * 256 + lo
  }

  lemma Be16OfHiLo(n: int)
    requires 0 <= n
    ensures Be16(Hi(n), Lo(n)) == n % 0x1_0000
    ensures n < 0x1_0000 ==> Be16(Hi(n), Lo(n)) == n
  {
    var high := n / 256;
    var top := high / 256;
    assert n == 0x1_0000 * top + 256 * (high % 256) + n % 256;
  }

  lemma HiLoOfBe16(hi: byte, lo: byte)
    ensures Hi(Be16(hi, lo)) == hi && Lo(Be16(hi, lo)) == lo
  {
  }

  // A conversion to int32_t: the low 32 bits, in two's complement.
  function AsInt32(x: int): int {
    var low := x % 0x1_0000_0000;
    if low < 0x8000_0000 then low else low - 0x1_0000_0000
  }

  lemma PrefixAfter<T>(a: seq<T>, b: seq<T>, c: seq<T>)
    requires IsPrefix(b, c)
    ensures IsPrefix(a + b, a + c)
  {
    assert (a + c)[..|a + b|] == a + c[..|b|];
  }

  lemma PrefixOfConcat<T>(a: seq<T>, b: seq<T>, c: seq<T>)
    requires IsPrefix(a, b)
    ensures IsPrefix(a, b + c)
  {
    assert (b + c)[..|a|] == b[..|a|];
  }

  ghost predicate IsPrefix<T>(a: seq<T>, b: seq<T>) {
    |a| <= |b| && a == b[..|a|]
  }
}
